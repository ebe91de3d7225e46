/** The database context as far as the core uses it: the Theaters table,
    the Users table, and the identity column that numbers new theaters. */
module Data {
  import opened Nullable

  /** A row of the Theaters table. */
  datatype Theater = Theater(id: int, name: string, address: string, seatCount: int, managerId: Option<int>)

  /** The columns of a row of the Users table that the core reads. */
  datatype User = User(id: int, userName: string)

  /** Rows as `SaveChanges` stores them: the identity column hands out
      `first`, `first + 1`, … in insertion order. */
  function Numbered(rows: seq<Theater>, first: int): (r: seq<Theater>)
  {
    seq(|rows|, i requires 0 <= i < |rows| => rows[i].(id := first + i))
  }

  predicate UniqueIds(ts: seq<Theater>)
  {
    forall i, j :: 0 <= i < j < |ts| ==> ts[i].id != ts[j].id
  }

  class DataContext {
    var theaters: seq<Theater>
    var users: seq<User>
    /** The next value of the Theaters identity column. */
    var nextTheaterId: int

    /** Ids are unique, positive, and below the identity column's next value. */
    ghost predicate Valid()
      reads this
    {
      && 0 < nextTheaterId
      && UniqueIds(theaters)
      && forall i :: 0 <= i < |theaters| ==> 0 < theaters[i].id < nextTheaterId
    }

    constructor (users: seq<User>)
      ensures Valid()
      ensures theaters == [] && this.users == users && nextTheaterId == 1
    {
      theaters := [];
      this.users := users;
      nextTheaterId := 1;
    }

    /** `Theaters.Add(t)` then `SaveChanges()`: `t` is stored under the next
        identity value. */
    method Add(t: Theater) returns (id: int)
      requires Valid()
      modifies this`theaters, this`nextTheaterId
      ensures Valid()
      ensures id == old(nextTheaterId) && nextTheaterId == id + 1
      ensures theaters == old(theaters) + [t.(id := id)]
    {
      id := nextTheaterId;
      theaters := theaters + [t.(id := id)];
      nextTheaterId := nextTheaterId + 1;
    }

    /** `Theaters.AddRange(rows)` then `SaveChanges()`. */
    method AddRange(rows: seq<Theater>)
      requires Valid()
      modifies this`theaters, this`nextTheaterId
      ensures Valid()
      ensures theaters == old(theaters) + Numbered(rows, old(nextTheaterId))
      ensures nextTheaterId == old(nextTheaterId) + |rows|
    {
      theaters := theaters + Numbered(rows, nextTheaterId);
      nextTheaterId := nextTheaterId + |rows|;
    }

    /** Field assignments on the tracked row at `k`, then `SaveChanges()`. */
    method Replace(k: nat, t: Theater)
      requires Valid()
      requires k < |theaters| && t.id == theaters[k].id
      modifies this`theaters
      ensures Valid()
      ensures theaters == old(theaters)[k := t]
    {
      theaters := theaters[k := t];
    }

    /** `Theaters.Remove(row at k)` then `SaveChanges()`. */
    method RemoveAt(k: nat)
      requires Valid()
      requires k < |theaters|
      modifies this`theaters
      ensures Valid()
      ensures theaters == old(theaters)[..k] + old(theaters)[k + 1..]
    {
      theaters := theaters[..k] + theaters[k + 1..];
    }
  }
}
