/** Theater seeding at start-up: skip when any theater exists, fail when
    there is no user "bob", otherwise add four fixed theaters. */
module Seeding {
  import opened Nullable
  import opened Data
  import opened Strings
  import opened Theaters

  const SeedManagerName := "bob"

  /** Returning early, throwing "Bob user is missing", and seeding. */
  datatype SeedOutcome = AlreadySeeded | BobMissing | Seeded

  /** The text SQL Server compares under its default collation: trailing
      spaces are padding and do not take part in `=`. */
  function TrimTrailingSpaces(s: string): (t: string)
    ensures |t| <= |s| && t == s[..|t|]
    ensures forall i :: |t| <= i < |s| ==> s[i] == ' '
    ensures t == [] || t[|t| - 1] != ' '
    decreases |s|
  {
    if s != [] && s[|s| - 1] == ' ' then TrimTrailingSpaces(s[..|s| - 1]) else s
  }

  /** `u.UserName == "bob"` as the database evaluates it: the default
      collation ignores letter case and trailing spaces. */
  predicate IsSeedManager(userName: string)
  {
    ToLowerInvariant(TrimTrailingSpaces(userName)) == SeedManagerName
  }

  /** The user names the query matches: "bob" in any mix of upper and lower
      case, followed by any number of spaces. */
  lemma SeedManagerSpellings(userName: string)
    ensures IsSeedManager(userName) <==>
      var t := TrimTrailingSpaces(userName);
      |t| == 3 && forall i :: 0 <= i < 3 ==> t[i] == SeedManagerName[i] || t[i] == ToUpperChar(SeedManagerName[i])
  {
    MatchesIgnoringCase(TrimTrailingSpaces(userName), SeedManagerName);
  }

  /** `Users.Where(u => u.UserName == "bob").Select(u => u.Id).FirstOrDefault()`:
      the id of the first user the query matches, or 0 when there is none. */
  function BobId(users: seq<User>): (id: int)
    ensures (forall i :: 0 <= i < |users| ==> !IsSeedManager(users[i].userName)) ==> id == 0
    ensures (exists i :: 0 <= i < |users| && IsSeedManager(users[i].userName)) ==>
      exists i :: && 0 <= i < |users|
                  && IsSeedManager(users[i].userName) && users[i].id == id
                  && forall j :: 0 <= j < i ==> !IsSeedManager(users[j].userName)
    decreases |users|
  {
    if users == [] then 0
    else if IsSeedManager(users[0].userName) then users[0].id
    else
      var id := BobId(users[1..]);
      assert forall i :: 0 < i < |users| ==> users[i] == users[1..][i - 1];
      id
  }

  /** Padding a name that does not end in a space with spaces does not change
      what the database compares. */
  lemma {:induction false} TrimPadding(name: string, pad: nat)
    requires name == [] || name[|name| - 1] != ' '
    ensures TrimTrailingSpaces(name + seq(pad, _ => ' ')) == name
    decreases pad
  {
    if pad > 0 {
      var padded := name + seq(pad, _ => ' ');
      assert padded[..|padded| - 1] == name + seq(pad - 1, _ => ' ');
      TrimPadding(name, pad - 1);
    } else {
      assert name + seq(pad, _ => ' ') == name;
    }
  }

  /** A user "Bob", with or without trailing spaces, is the seed manager
      too. */
  lemma CapitalisedBobIsFound(id: int, pad: nat)
    ensures BobId([User(id, "Bob" + seq(pad, _ => ' '))]) == id
  {
    TrimPadding("Bob", pad);
    assert ToLowerInvariant("Bob") == SeedManagerName;
  }

  /** The four theaters `Initialize` adds, before the database numbers them:
      bob manages the first and the third. */
  function SeedRows(bobId: int): (rows: seq<Theater>)
    ensures |rows| == 4
    ensures forall i :: 0 <= i < 4 ==> rows[i].managerId == if i % 2 == 0 then Some(bobId) else None
  {
    [ Theater(0, "AMC Palace 10", "123 Main St, Springfield", 150, Some(bobId)),
      Theater(0, "Regal Cinema", "456 Elm St, Shelbyville", 200, None),
      Theater(0, "Grand Theater", "789 Broadway Ave, Metropolis", 300, Some(bobId)),
      Theater(0, "Vintage Drive-In", "101 Retro Rd, Smallville", 75, None) ]
  }

  /** A non-empty text starting with a digit or a capital letter is not blank. */
  lemma NonBlank(s: string)
    requires |s| > 0 && ('0' <= s[0] <= '9' || 'A' <= s[0] <= 'Z')
    ensures !Strings.IsNullOrWhiteSpace(Some(s))
  {
  }

  /** Every seeded theater passes the controller's validation. */
  lemma SeedRowsAreAcceptable(bobId: int)
    ensures AllAcceptable(SeedRows(bobId))
  {
    var rows := SeedRows(bobId);
    forall i | 0 <= i < 4
      ensures !IsInvalid(ToDto(rows[i]))
    {
      var t := rows[i];
      assert |t.name| <= 30 && t.seatCount > 0;
      NonBlank(t.name);
      NonBlank(t.address);
    }
  }

  /** The Theaters table `Initialize` leaves behind, given the table, the id
      the query finds for bob and the identity column's next value before it
      runs. */
  function SeededTheaters(theaters: seq<Theater>, bobId: int, first: int): (r: seq<Theater>)
    ensures |theaters| > 0 || bobId == 0 ==> r == theaters
    ensures |theaters| == 0 && bobId != 0 ==>
      && |r| == 4
      && forall i :: 0 <= i < 4 ==>
           && r[i].id == first + i
           && r[i].managerId == (if i % 2 == 0 then Some(bobId) else None)
           && r[i].(id := 0) == SeedRows(bobId)[i]
  {
    if |theaters| > 0 || bobId == 0 then theaters
    else Numbered(SeedRows(bobId), first)
  }

  /** Seeding again after seeding changes nothing, whatever the identity
      column has reached. */
  lemma SeedingIsIdempotent(theaters: seq<Theater>, bobId: int, first: int, again: int)
    ensures SeededTheaters(SeededTheaters(theaters, bobId, first), bobId, again) ==
            SeededTheaters(theaters, bobId, first)
  {
  }

  /** `SeedTheaters.Initialize`. The user table is only read. */
  method Initialize(context: DataContext) returns (r: SeedOutcome)
    requires context.Valid()
    modifies context`theaters, context`nextTheaterId
    ensures context.Valid()
    ensures context.users == old(context.users)
    ensures r == AlreadySeeded <==> |old(context.theaters)| > 0
    ensures r == BobMissing <==> |old(context.theaters)| == 0 && BobId(context.users) == 0
    ensures context.theaters == SeededTheaters(old(context.theaters), BobId(context.users), old(context.nextTheaterId))
    ensures context.nextTheaterId == old(context.nextTheaterId) + if r == Seeded then 4 else 0
    ensures r == Seeded ==> AllAcceptable(context.theaters)
  {
    if |context.theaters| > 0 {
      return AlreadySeeded;
    }
    var bobId := BobId(context.users);
    if bobId == 0 {
      return BobMissing;
    }
    var rows := SeedRows(bobId);
    SeedRowsAreAcceptable(bobId);
    context.AddRange(rows);
    forall i | 0 <= i < |context.theaters|
      ensures !IsInvalid(ToDto(context.theaters[i]))
    {
      assert ToDto(context.theaters[i]) == ToDto(rows[i]).(id := context.theaters[i].id);
    }
    r := Seeded;
  }

  /** Running `Initialize` twice leaves the table a single run leaves, and
      the second run never seeds. */
  method InitializeTwice(context: DataContext) returns (first: SeedOutcome, second: SeedOutcome)
    requires context.Valid()
    modifies context`theaters, context`nextTheaterId
    ensures context.Valid()
    ensures second != Seeded
    ensures context.theaters == SeededTheaters(old(context.theaters), BobId(context.users), old(context.nextTheaterId))
  {
    first := Initialize(context);
    second := Initialize(context);
  }
}
