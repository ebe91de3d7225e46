/** The `AuthCookie` authentication handler: it turns the cookie text
    `"id;username;role1,role2"` into no credential, a failure, or a principal. */
module CookieAuth {
  import opened Nullable
  import opened Strings
  import Int32

  const InvalidCookieFormat := "Invalid cookie format"
  const InvalidUserId := "Invalid user id"

  /** The claims of the ticket the handler issues: the NameIdentifier claim
      (the id as text), the Name claim, and one Role claim per role, in order. */
  datatype Principal = Principal(nameIdentifier: string, name: string, roles: seq<string>)

  /** `AuthenticateResult.NoResult()`, `.Fail(message)` and `.Success(ticket)`. */
  datatype AuthenticateResult =
    | NoResult
    | Fail(message: string)
    | Success(principal: Principal)

  /** `User.Identity.IsAuthenticated` for a request the handler saw. */
  predicate IsAuthenticated(user: AuthenticateResult)
  {
    user.Success?
  }

  /** `User.IsInRole(role)`: an ordinal match against the Role claims. */
  predicate IsInRole(user: AuthenticateResult, role: string)
  {
    user.Success? && role in user.principal.roles
  }

  /** What every principal the handler issues satisfies: the id claim is the
      canonical text of a 32-bit integer, the name holds no `;`, and every role
      is non-empty and holds neither `,` nor `;`. */
  predicate WellFormed(p: Principal)
  {
    && Int32.TryParse(p.nameIdentifier).Some?
    && p.nameIdentifier == Int32.ToString(Int32.TryParse(p.nameIdentifier).value)
    && ';' !in p.name
    && forall i :: 0 <= i < |p.roles| ==> p.roles[i] != "" && ',' !in p.roles[i] && ';' !in p.roles[i]
  }

  /** `HandleAuthenticateAsync` on the request's `AuthCookie` value. */
  function Authenticate(cookie: Option<string>): (r: AuthenticateResult)
    ensures r == NoResult <==> IsNullOrEmpty(cookie)
    ensures r.Success? <==>
      !IsNullOrEmpty(cookie) && |Split(cookie.value, ';')| == 3 &&
      Int32.TryParse(Split(cookie.value, ';')[0]).Some?
    ensures r == Fail(InvalidCookieFormat) <==>
      !IsNullOrEmpty(cookie) && |Split(cookie.value, ';')| != 3
    ensures r == Fail(InvalidUserId) <==>
      !IsNullOrEmpty(cookie) && |Split(cookie.value, ';')| == 3 &&
      Int32.TryParse(Split(cookie.value, ';')[0]).None?
    ensures r.Success? ==>
      var parts := Split(cookie.value, ';');
      && |parts| == 3
      && Int32.TryParse(r.principal.nameIdentifier) == Int32.TryParse(parts[0])
      && r.principal.name == parts[1]
      && r.principal.roles == SplitRemoveEmpty(parts[2], ',')
    ensures r.Success? ==> WellFormed(r.principal)
  {
    if IsNullOrEmpty(cookie) then NoResult
    else
      var parts := Split(cookie.value, ';');
      if |parts| != 3 then Fail(InvalidCookieFormat)
      else
        match Int32.TryParse(parts[0])
        case None => Fail(InvalidUserId)
        case Some(userId) =>
          Int32.ParseToString(userId);
          Success(Principal(Int32.ToString(userId), parts[1], SplitRemoveEmpty(parts[2], ',')))
  }

  /** Any cookie of three `;`-free fields whose first field parses is
      accepted: the id claim is the parsed value's text, the name is the
      second field, and the roles are the non-empty `,` entries of the third,
      in order. */
  lemma AuthenticateFields(id: string, name: string, roles: string)
    requires ';' !in id && ';' !in name && ';' !in roles
    requires Int32.TryParse(id).Some?
    ensures Authenticate(Some(id + ";" + name + ";" + roles)) ==
      Success(Principal(Int32.ToString(Int32.TryParse(id).value), name, SplitRemoveEmpty(roles, ',')))
  {
    SplitThree(id, name, roles, ';');
  }

  /** Empty entries in the roles field, leading or doubled, give no Role
      claim: `",Admin,,User"` gives Admin and User. */
  lemma RolesSkipEmptyEntries(a: string, b: string)
    requires a != "" && b != "" && ',' !in a && ',' !in b
    ensures SplitRemoveEmpty([','] + a + [',', ','] + b, ',') == [a, b]
  {
    var tail := "" + [','] + b;
    assert [','] + a + [',', ','] + b == "" + [','] + (a + [','] + tail);
    SplitRemoveEmptyAppend("", a + [','] + tail, ',');
    SplitRemoveEmptyAppend(a, tail, ',');
    SplitRemoveEmptyAppend("", b, ',');
    SplitRemoveEmptyWithoutDelimiter("", ',');
    SplitRemoveEmptyWithoutDelimiter(a, ',');
    SplitRemoveEmptyWithoutDelimiter(b, ',');
  }
}
