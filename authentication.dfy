/** The authentication controller: `login` against three fixed accounts,
    `me` from the decoded cookie, and `logout`. */
module Authentication {
  import opened Nullable
  import opened Strings
  import Int32
  import opened Http
  import opened CookieAuth

  /** The user record the endpoints return and the login cookie encodes. */
  datatype UserDto = UserDto(id: int, userName: string, roles: seq<string>)

  /** The login request body; either field may be null. */
  datatype LoginDto = LoginDto(userName: Option<string>, password: Option<string>)

  const ValidPassword := "Test123!"

  const Galkadi := UserDto(1, "galkadi", ["Admin"])
  const Bob := UserDto(2, "bob", ["User"])
  const Sue := UserDto(3, "sue", ["User"])

  predicate IsAccount(u: UserDto)
  {
    u == Bob || u == Galkadi || u == Sue
  }

  /** The account switch of `Login`: the user name lower-cased with
      `ToLowerInvariant` and matched against the three account names. */
  function FindAccount(userName: Option<string>): (r: Option<UserDto>)
    ensures r.Some? ==> IsAccount(r.value)
    ensures r.Some? <==> userName.Some? && ToLowerInvariant(userName.value) in {"bob", "galkadi", "sue"}
    ensures r.Some? ==> ToLowerInvariant(userName.value) == r.value.userName
  {
    match userName
    case None => None
    case Some(name) =>
      var key := ToLowerInvariant(name);
      if key == "bob" then Some(Bob)
      else if key == "galkadi" then Some(Galkadi)
      else if key == "sue" then Some(Sue)
      else None
  }

  /** The cookie text `Login` stores: `"{Id};{UserName};{string.Join(",", Roles)}"`. */
  function CookieValue(u: UserDto): (c: string)
    ensures ';' !in u.userName && ';' !in Join(u.roles, ',') ==>
      Split(c, ';') == [Int32.ToString(u.id), u.userName, Join(u.roles, ',')]
  {
    var id, csv := Int32.ToString(u.id), Join(u.roles, ',');
    if ';' !in u.userName && ';' !in csv then
      SplitThree(id, u.userName, csv, ';');
      id + ";" + u.userName + ";" + csv
    else
      id + ";" + u.userName + ";" + csv
  }

  /** The user record `Me` rebuilds from the claims: `int.Parse` of the
      NameIdentifier claim, the Name claim and the Role claims in order. */
  function UserFromClaims(p: Principal): (u: UserDto)
    requires Int32.TryParse(p.nameIdentifier).Some?
    ensures Int32.TryParse(p.nameIdentifier) == Some(u.id)
    ensures u.userName == p.name && u.roles == p.roles
  {
    UserDto(Int32.TryParse(p.nameIdentifier).value, p.name, p.roles)
  }

  /** The cookie as the client keeps it between requests: what `Login`
      appends and `Logout` deletes, and what the handler reads. */
  class AuthenticationController {
    var authCookie: Option<string>

    constructor (cookie: Option<string>)
      ensures authCookie == cookie
    {
      authCookie := cookie;
    }

    /** `POST api/authentication/login`: the password first, then the user
        name; a cookie is set only on success. */
    method Login(dto: LoginDto) returns (r: ActionResult<UserDto>)
      modifies this
      ensures dto.password != Some(ValidPassword) ==>
        r == BadRequest && authCookie == old(authCookie)
      ensures dto.password == Some(ValidPassword) && FindAccount(dto.userName).None? ==>
        r == BadRequest && authCookie == old(authCookie)
      ensures dto.password == Some(ValidPassword) && FindAccount(dto.userName).Some? ==>
        var account := FindAccount(dto.userName).value;
        r == Ok(account) && authCookie == Some(CookieValue(account))
    {
      if dto.password != Some(ValidPassword) {
        return BadRequest;
      }
      var account := FindAccount(dto.userName);
      if account.None? {
        return BadRequest;
      }
      var userDto := account.value;
      authCookie := Some(CookieValue(userDto));
      r := Ok(userDto);
    }

    /** `GET api/authentication/me`: 401 unless the handler authenticated
        the cookie, else the user record carried by the principal. */
    function Me(): (r: ActionResult<UserDto>)
      reads this
      ensures r == Unauthorized <==> !IsAuthenticated(Authenticate(authCookie))
      ensures r != Unauthorized ==>
        var p := Authenticate(authCookie).principal;
        && r.Ok?
        && Int32.ToString(r.value.id) == p.nameIdentifier
        && r.value.userName == p.name
        && r.value.roles == p.roles
    {
      var user := Authenticate(authCookie);
      if !IsAuthenticated(user) then Unauthorized
      else Ok(UserFromClaims(user.principal))
    }

    /** `POST api/authentication/logout`: deletes the cookie when the
        request has one; always 200. */
    method Logout() returns (r: ActionResult<()>)
      modifies this
      ensures r == Ok(())
      ensures authCookie == None
      ensures old(authCookie) == None ==> authCookie == old(authCookie)
    {
      if authCookie != None {
        authCookie := None;
      }
      r := Ok(());
    }
  }

  /** The login cookie decodes to the id, user name and roles it was made
      from, for every 32-bit id (zero and negative ones too), every user name
      without `;` and every list of non-empty roles without `,` or `;`. */
  lemma LoginCookieRoundTrip(u: UserDto)
    requires Int32.InRange(u.id)
    requires ';' !in u.userName
    requires forall i :: 0 <= i < |u.roles| ==> u.roles[i] != "" && ',' !in u.roles[i] && ';' !in u.roles[i]
    ensures Authenticate(Some(CookieValue(u))) == Success(Principal(Int32.ToString(u.id), u.userName, u.roles))
    ensures UserFromClaims(Authenticate(Some(CookieValue(u))).principal) == u
  {
    var id, csv := Int32.ToString(u.id), Join(u.roles, ',');
    JoinWithout(u.roles, ',', ';');
    Int32.ParseToString(u.id);
    AuthenticateFields(id, u.userName, csv);
    SplitRemoveEmptyJoin(u.roles, ',');
  }

  /** Each of the three accounts survives login, the handler and `Me`
      unchanged. */
  lemma AccountsRoundTrip(u: UserDto)
    requires IsAccount(u)
    ensures Authenticate(Some(CookieValue(u))).Success?
    ensures UserFromClaims(Authenticate(Some(CookieValue(u))).principal) == u
  {
    LoginCookieRoundTrip(u);
  }

  /** A user name holding `;` makes its own login cookie unreadable. */
  lemma SemicolonInUserNameBreaksCookie(u: UserDto)
    requires ';' in u.userName
    ensures Authenticate(Some(CookieValue(u))) == Fail(InvalidCookieFormat)
  {
    var id, csv := Int32.ToString(u.id), Join(u.roles, ',');
    assert CookieValue(u) == id + [';'] + (u.userName + [';'] + csv);
    SplitAppend(id, u.userName + [';'] + csv, ';');
    SplitAppend(u.userName, csv, ';');
    SplitAtOccurrence(u.userName, ';');
  }

  /** Re-issuing a cookie from what `Me` returns gives back the same
      principal: the handler's output is a fixed point of login encoding. */
  lemma ReissuedCookieIsEquivalent(cookie: string)
    requires Authenticate(Some(cookie)).Success?
    ensures var p := Authenticate(Some(cookie)).principal;
      Authenticate(Some(CookieValue(UserFromClaims(p)))) == Success(p)
  {
    var p := Authenticate(Some(cookie)).principal;
    LoginCookieRoundTrip(UserFromClaims(p));
  }

  /** Matching a user name to an account ignores ASCII case and nothing else. */
  lemma AccountMatchIgnoresCase(name: string, u: UserDto)
    requires IsAccount(u)
    ensures FindAccount(Some(name)) == Some(u) <==>
      |name| == |u.userName| &&
      forall i :: 0 <= i < |name| ==> name[i] == u.userName[i] || name[i] == ToUpperChar(u.userName[i])
  {
  }

  /** Of the three accounts, only galkadi's session is in the Admin role. */
  lemma OnlyGalkadiIsAdmin(u: UserDto)
    requires IsAccount(u)
    ensures IsInRole(Authenticate(Some(CookieValue(u))), "Admin") <==> u == Galkadi
  {
    LoginCookieRoundTrip(u);
  }

  /** A login cookie whose id lies outside the 32-bit range is refused as
      an invalid user id. */
  lemma OverflowingIdRefused(u: UserDto)
    requires !Int32.InRange(u.id)
    requires ';' !in u.userName
    requires forall i :: 0 <= i < |u.roles| ==> ';' !in u.roles[i]
    ensures Authenticate(Some(CookieValue(u))) == Fail(InvalidUserId)
  {
    JoinWithout(u.roles, ',', ';');
    Int32.ParseOutOfRange(u.id);
  }

  /** The cookie of the Admin account, as the client sees it. */
  lemma GalkadiCookieText()
    ensures CookieValue(Galkadi) == "1;galkadi;Admin"
  {
  }

  lemma UpperCaseGalkadiMatches()
    ensures FindAccount(Some("GALKADI")) == Some(Galkadi)
  {
  }

  /** Logging in as "GALKADI", reading `me`, and logging out twice. */
  method GalkadiSession() returns (login: ActionResult<UserDto>, cookie: Option<string>,
                                   me: ActionResult<UserDto>, meAfterLogout: ActionResult<UserDto>)
    ensures login == Ok(Galkadi) && cookie == Some("1;galkadi;Admin")
    ensures me == Ok(Galkadi)
    ensures meAfterLogout == Unauthorized
  {
    var client := new AuthenticationController(None);
    UpperCaseGalkadiMatches();
    GalkadiCookieText();
    AccountsRoundTrip(Galkadi);
    login := client.Login(LoginDto(Some("GALKADI"), Some("Test123!")));
    cookie := client.authCookie;
    me := client.Me();
    var _ := client.Logout();
    var _ := client.Logout();
    meAfterLogout := client.Me();
  }

  /** A wrong password is refused whatever the user name, and sets no cookie. */
  method WrongPasswordSession(userName: Option<string>, password: Option<string>)
    returns (login: ActionResult<UserDto>, cookie: Option<string>)
    requires password != Some(ValidPassword)
    ensures login == BadRequest && cookie == None
  {
    var client := new AuthenticationController(None);
    login := client.Login(LoginDto(userName, password));
    cookie := client.authCookie;
  }
}
