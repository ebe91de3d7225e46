# Theater API core in Dafny

This project models the core of a small ASP.NET theater API and proves properties about it. The core has four parts:

- **Cookie authentication handler.** `CookieAuthHandler` reads the `AuthCookie` value `"id;username;role1,role2"`. It gives one of three results: no result (no credential), a failure ("Invalid cookie format" or "Invalid user id"), or a principal. The principal carries a NameIdentifier claim, a Name claim and one Role claim per role.
- **Authentication controller.** `Login` first checks the password against the fixed value `Test123!`. It then lower-cases the user name and matches it against three hard-coded accounts: galkadi (1, Admin), bob (2, User) and sue (3, User). On success it stores the cookie `"id;name;roles"`. `Me` rebuilds the user record from the decoded principal. `Logout` deletes the cookie when there is one.
- **Theaters controller.** Reads are public. Create, update and delete are for Admins only. Each one checks its preconditions in a fixed order: create gives 401, then 403, then 400; update gives 401, then 404, then 403, then 400; delete gives 401, then 404, then 403. `IsInvalid` rejects a blank or over-long (more than 120 characters) name, a blank address, and a seat count of 0 or less.
- **Theater seeding.** `Initialize` does nothing if any theater exists. It fails if the user table has no user whose name matches `bob`. The database compares names under SQL Server's default collation, which ignores letter case and trailing spaces. Otherwise it adds four fixed theaters, and bob manages the first and the third.

How the model is built:

- Pure logic is written as functions over datatypes: the .NET string and integer helpers, the cookie decoder, the account switch and the validation.
- State that the source changes in place is written as classes whose methods carry `modifies` clauses:
  - the client's cookie is the field `AuthenticationController.authCookie`;
  - the database is `Data.DataContext`, with the Theaters table as a `seq` and an identity counter that numbers new rows.
- The controllers' results are `Http.ActionResult` values, one per HTTP status.
- The signed-in user is passed explicitly as the handler's `AuthenticateResult`.

The handler does not check the cookie against anything on the server. `LoginCookieRoundTrip` shows that any well-formed text a client sends is accepted with the id, name and roles it states, including the Admin role.

The model states what the code does, including where that is looser than one might expect:

- **Update is Admin only** (`Controllers/TheatersController.cs:90`). No manager or ownership rule exists anywhere in the code.
- **Create never sets a manager** (`Controllers/TheatersController.cs:62-67`).
- **Any 32-bit id is accepted**, including zero and negative ids: the handler checks nothing beyond `int.TryParse`.
- **Validation comes last.** An invalid body from a caller who is not an Admin gets 403, not 400.
- **Roles are an ordered list** of claims, not a set. Duplicate roles are kept.

## Model

| member | source | states |
|---|---|---|
| CookieAuth.Authenticate | Selu383.SP25.P02.Api/Features/Secuirty/CookieAuthHandler.cs:19-61 | A null or empty cookie gives NoResult and never a failure. A split on `;` that does not give exactly 3 parts gives Fail "Invalid cookie format". A first field that is not a 32-bit integer gives Fail "Invalid user id". Every other cookie, a 3-part one whose first field parses, gives Success. On success, the id claim denotes the parsed id, the name is the second field, and the roles are the non-empty comma entries of the third field. Every issued principal is well formed. |
| CookieAuth.AuthenticateFields | Selu383.SP25.P02.Api/Features/Secuirty/CookieAuthHandler.cs:30-61 | Any cookie of three fields without `;` whose first field parses is accepted, including client text such as `" 7;x;,Admin"`. The id claim is the parsed value's text, the name is the second field, and the roles are the non-empty `,` entries of the third. |
| CookieAuth.RolesSkipEmptyEntries | Selu383.SP25.P02.Api/Features/Secuirty/CookieAuthHandler.cs:52-55 | Leading and doubled commas give no Role claim. `",Admin,,User"` gives Admin and User. |
| CookieAuth.IsAuthenticated | Selu383.SP25.P02.Api/Controllers/AuthController.cs:87 | `User.Identity.IsAuthenticated` holds exactly when the handler succeeded. |
| CookieAuth.IsInRole | Selu383.SP25.P02.Api/Controllers/TheatersController.cs:51 | `User.IsInRole(role)` holds exactly when the handler succeeded and the role is one of the Role claims, compared exactly. |
| Strings.IsWhiteSpace | Selu383.SP25.P02.Api/Controllers/TheatersController.cs:136 | `char.IsWhiteSpace`: U+0009 to U+000D, U+0085 and the Unicode space, line and paragraph separators. |
| Strings.IsNullOrEmpty | Selu383.SP25.P02.Api/Features/Secuirty/CookieAuthHandler.cs:23 | `string.IsNullOrEmpty`: null or the empty text. |
| Strings.IsNullOrWhiteSpace | Selu383.SP25.P02.Api/Controllers/TheatersController.cs:136-138 | `string.IsNullOrWhiteSpace`: null, or every character is white space. The empty text is included. |
| Strings.Split | Selu383.SP25.P02.Api/Features/Secuirty/CookieAuthHandler.cs:30 | `Split` always gives at least one piece. No piece holds the delimiter, and no piece holds a character that the input does not hold. |
| Strings.SplitRemoveEmpty | Selu383.SP25.P02.Api/Features/Secuirty/CookieAuthHandler.cs:52-55 | The role entries are non-empty. They hold no `,` and no character that is missing from the roles field. Every non-empty piece of the plain split is among them. |
| Strings.SplitRemoveEmptyWithoutDelimiter | Selu383.SP25.P02.Api/Features/Secuirty/CookieAuthHandler.cs:52 | A field without `,` gives itself as the one entry, or no entry when it is empty. |
| Strings.SplitRemoveEmptyAppend | Selu383.SP25.P02.Api/Features/Secuirty/CookieAuthHandler.cs:52 | The entries of `a + "," + b` are those of `a` followed by those of `b`. With the previous row this fixes the entries, in order, for every text. |
| Strings.RemoveEmptyEntries | Selu383.SP25.P02.Api/Features/Secuirty/CookieAuthHandler.cs:52 | Keeps only non-empty pieces, each taken from the input, keeps every non-empty piece, and never grows the list. |
| Strings.RemoveEmptyEntriesAppend | Selu383.SP25.P02.Api/Features/Secuirty/CookieAuthHandler.cs:52 | On a concatenation it gives the kept pieces of the first part followed by those of the second, so the kept pieces stay in order. |
| Strings.JoinSplit | Selu383.SP25.P02.Api/Features/Secuirty/CookieAuthHandler.cs:30 | Joining the pieces of a split with the delimiter gives back the original text. |
| Strings.SplitJoin | Selu383.SP25.P02.Api/Controllers/AuthController.cs:72 | Splitting a join of pieces that do not hold the delimiter gives back the pieces. |
| Strings.SplitRemoveEmptyJoin | Selu383.SP25.P02.Api/Features/Secuirty/CookieAuthHandler.cs:52-55 | For non-empty roles without `,`, splitting `string.Join(",", roles)` with RemoveEmptyEntries gives back the roles. This includes the empty list, whose join is "". |
| Strings.SplitAtOccurrence | Selu383.SP25.P02.Api/Features/Secuirty/CookieAuthHandler.cs:30-31 | Text that holds the delimiter splits into at least two pieces. |
| Strings.SplitAppend | Selu383.SP25.P02.Api/Features/Secuirty/CookieAuthHandler.cs:30 | Splitting `a + d + b` gives the pieces of `a` followed by the pieces of `b`. |
| Strings.SplitWithoutDelimiter | Selu383.SP25.P02.Api/Features/Secuirty/CookieAuthHandler.cs:30 | Text without the delimiter splits into itself. |
| Strings.Join | Selu383.SP25.P02.Api/Controllers/AuthController.cs:72 | Every character of every piece appears in the joined text. `JoinSplit` and `SplitJoin` show that it is the inverse of `Split`. |
| Strings.SplitThree | Selu383.SP25.P02.Api/Features/Secuirty/CookieAuthHandler.cs:30-38 | Three fields without `;`, joined by `;`, split back into exactly those three fields. |
| Strings.JoinWithout | Selu383.SP25.P02.Api/Controllers/AuthController.cs:72 | A character that is neither the separator nor in any piece is not in the join. |
| Strings.RemoveEmptyEntriesOfNonEmpty | Selu383.SP25.P02.Api/Features/Secuirty/CookieAuthHandler.cs:52 | RemoveEmptyEntries changes nothing when no piece is empty. |
| Strings.ToLowerInvariant | Selu383.SP25.P02.Api/Controllers/AuthController.cs:37 | The result has the input's length, and each character is lower-cased. |
| Strings.LowerCharMatches | Selu383.SP25.P02.Api/Controllers/AuthController.cs:37 | A character lower-cases to a lower-case letter exactly when it is that letter or its capital. |
| Strings.MatchesIgnoringCase | Selu383.SP25.P02.Api/Controllers/AuthController.cs:37 | The lower-cased text equals a lower-case word exactly when it is that word spelled with any mix of upper and lower case. |
| Int32.NatToString | Selu383.SP25.P02.Api/Features/Secuirty/CookieAuthHandler.cs:47 | The rendering of a natural number is a non-empty run of digits without a leading zero, and it reads back as the same number. |
| Int32.ToString | Selu383.SP25.P02.Api/Features/Secuirty/CookieAuthHandler.cs:47 | `ToString()` gives digits and a leading `-` exactly for negative values. It never holds `;` or `,`. |
| Int32.TryParse | Selu383.SP25.P02.Api/Features/Secuirty/CookieAuthHandler.cs:40 | A successful parse always gives a 32-bit value. |
| Int32.TrimLeadingWhite | Selu383.SP25.P02.Api/Features/Secuirty/CookieAuthHandler.cs:40 | The result is the input with its leading number white space removed: a suffix of the input, everything dropped is white space, and the result does not start with white space. |
| Int32.TrimTrailingWhite | Selu383.SP25.P02.Api/Features/Secuirty/CookieAuthHandler.cs:40 | The result is the input with its trailing number white space removed: a prefix of the input, everything dropped is white space, and the result does not end with white space. |
| Int32.ParseToString | Selu383.SP25.P02.Api/Features/Secuirty/CookieAuthHandler.cs:40-47 | Every 32-bit value parses back from its own rendering. |
| Int32.ParseOutOfRange | Selu383.SP25.P02.Api/Features/Secuirty/CookieAuthHandler.cs:40-43 | A value outside the 32-bit range does not parse from its rendering. The parser reports overflow instead of wrapping. |
| Authentication.FindAccount | Selu383.SP25.P02.Api/Controllers/AuthController.cs:35-69 | An account is found exactly when the lower-cased name is bob, galkadi or sue. The account's canonical name is that lower-cased name, and a null name finds nothing. |
| Authentication.CookieValue | Selu383.SP25.P02.Api/Controllers/AuthController.cs:72 | For a user name without `;` and a role list whose join has no `;`, the cookie splits on `;` into exactly the id's text, the user name and the joined roles. |
| Authentication.UserFromClaims | Selu383.SP25.P02.Api/Controllers/AuthController.cs:94-106 | The rebuilt id is the integer the NameIdentifier claim denotes. The name and roles are the claims' values, in order. |
| Authentication.AuthenticationController.Login | Selu383.SP25.P02.Api/Controllers/AuthController.cs:24-82 | The password is checked first: anything but `Test123!` gives 400. An unknown or null name also gives 400. No failure touches the cookie. On success the body is the account and the cookie is `"id;name;roles"`. |
| Authentication.AuthenticationController.Me | Selu383.SP25.P02.Api/Controllers/AuthController.cs:85-109 | The result is 401 exactly when the handler does not authenticate the cookie. Otherwise it is 200 with the principal's id, name and role list. |
| Authentication.AuthenticationController.Logout | Selu383.SP25.P02.Api/Controllers/AuthController.cs:112-120 | Always 200. The cookie is gone afterwards, and a request without a cookie changes nothing, so a second call does nothing. |
| Authentication.LoginCookieRoundTrip | Selu383.SP25.P02.Api/Features/Secuirty/CookieAuthHandler.cs:30-55 | Decoding the login cookie gives back the id (any 32-bit value), the user name and the roles. This needs a name without `;` and roles that are non-empty with no `,` or `;`. `Me` then rebuilds the same record. |
| Authentication.AccountsRoundTrip | Selu383.SP25.P02.Api/Controllers/AuthController.cs:37-81 | Each of the three accounts survives login, the handler and `Me` unchanged. |
| Authentication.SemicolonInUserNameBreaksCookie | Selu383.SP25.P02.Api/Features/Secuirty/CookieAuthHandler.cs:30-34 | A user name that holds `;` turns its own login cookie into "Invalid cookie format". |
| Authentication.OverflowingIdRefused | Selu383.SP25.P02.Api/Features/Secuirty/CookieAuthHandler.cs:40-43 | A login cookie whose id is outside the 32-bit range gives "Invalid user id". |
| Authentication.ReissuedCookieIsEquivalent | Selu383.SP25.P02.Api/Controllers/AuthController.cs:94-106 | Issuing a new login cookie from what `Me` returns gives back the same principal. |
| Authentication.AccountMatchIgnoresCase | Selu383.SP25.P02.Api/Controllers/AuthController.cs:37-64 | A name selects an account exactly when it spells the account name in any ASCII case. |
| Authentication.OnlyGalkadiIsAdmin | Selu383.SP25.P02.Api/Controllers/AuthController.cs:39-64 | Of the three accounts' sessions, only galkadi's is in the Admin role. |
| Authentication.GalkadiCookieText | Selu383.SP25.P02.Api/Controllers/AuthController.cs:72 | The Admin account's cookie is exactly `1;galkadi;Admin`. |
| Authentication.UpperCaseGalkadiMatches | Selu383.SP25.P02.Api/Controllers/AuthController.cs:37-55 | "GALKADI" selects the galkadi account. |
| Authentication.GalkadiSession | Selu383.SP25.P02.Api/Controllers/AuthController.cs:24-120 | Logging in as "GALKADI" gives 200 with galkadi's record and the cookie `1;galkadi;Admin`. `me` then returns that record. After two logouts `me` gives 401. |
| Authentication.WrongPasswordSession | Selu383.SP25.P02.Api/Controllers/AuthController.cs:27-33 | A wrong or missing password gives 400 for any user name and sets no cookie. |
| Theaters.IsInvalid | Selu383.SP25.P02.Api/Controllers/TheatersController.cs:134-140 | A body passes exactly when it has a name of 1 to 120 characters with a character that is not white space, an address with such a character, and a positive seat count. |
| Theaters.ToDto | Selu383.SP25.P02.Api/Controllers/TheatersController.cs:144-150 | A row's projection to (Id, Name, Address, SeatCount). The name and address are never null. |
| Theaters.GetTheaterDtos | Selu383.SP25.P02.Api/Controllers/TheatersController.cs:142-151 | Every row is projected to (Id, Name, Address, SeatCount), in table order. |
| Theaters.FindTheater | Selu383.SP25.P02.Api/Controllers/TheatersController.cs:84 | Gives the first row with the id, or nothing exactly when no row has it. |
| Theaters.TheatersController.GetAllTheaters | Selu383.SP25.P02.Api/Controllers/TheatersController.cs:23-27 | Needs no user. Gives every theater's projection, in order. |
| Theaters.TheatersController.GetTheaterById | Selu383.SP25.P02.Api/Controllers/TheatersController.cs:29-38 | Needs no user. Gives 404 exactly when no row has the id, and otherwise 200 with that row's projection. |
| Theaters.TheatersController.CreateTheater | Selu383.SP25.P02.Api/Controllers/TheatersController.cs:40-73 | Checks 401, then 403 unless Admin, then 400 if invalid. On success exactly one row is appended, with the body's name, address and seat count and no manager, and 201 returns the body under the new id. Every other outcome leaves the table alone. Ids stay unique. |
| Theaters.TheatersController.UpdateTheater | Selu383.SP25.P02.Api/Controllers/TheatersController.cs:75-107 | Checks 401, then 404, then 403 unless Admin (ownership grants nothing), then 400. On success only the target's name, address and seat count change; its id, its manager and all other rows stay the same. Every other outcome leaves the table alone. |
| Theaters.TheatersController.DeleteTheater | Selu383.SP25.P02.Api/Controllers/TheatersController.cs:109-132 | Checks 401, then 404, then 403 unless Admin. On success exactly that row is removed and no row with the id remains. Every other outcome leaves the table alone. |
| Data.DataContext.Add | Selu383.SP25.P02.Api/Controllers/TheatersController.cs:68-71 | Appends the row under the next identity value and keeps ids unique. |
| Data.DataContext.AddRange | Selu383.SP25.P02.Api/Data/SeedTheaters.cs:30-61 | Appends the rows in order, numbered consecutively from the next identity value. |
| Data.DataContext.Replace | Selu383.SP25.P02.Api/Controllers/TheatersController.cs:100-103 | Replaces only the row at the position, keeping its id. |
| Data.DataContext.RemoveAt | Selu383.SP25.P02.Api/Controllers/TheatersController.cs:129-130 | Removes only the row at the position. |
| Seeding.TrimTrailingSpaces | Selu383.SP25.P02.Api/Data/SeedTheaters.cs:21 | The name as the database compares it: a prefix of the input, everything dropped is a space, and no trailing space is left. |
| Seeding.IsSeedManager | Selu383.SP25.P02.Api/Data/SeedTheaters.cs:21 | `u.UserName == "bob"` under the default collation: the name, trailing spaces removed and lower-cased, is "bob". |
| Seeding.SeedManagerSpellings | Selu383.SP25.P02.Api/Data/SeedTheaters.cs:21 | A name matches exactly when, without its trailing spaces, it is "bob" in any mix of upper and lower case. |
| Seeding.TrimPadding | Selu383.SP25.P02.Api/Data/SeedTheaters.cs:21 | Trailing spaces added to a name that does not end in a space are not compared. |
| Seeding.BobId | Selu383.SP25.P02.Api/Data/SeedTheaters.cs:20-23 | Gives the id of the first user whose name matches "bob" under the collation, or 0 when there is none. |
| Seeding.CapitalisedBobIsFound | Selu383.SP25.P02.Api/Data/SeedTheaters.cs:20-23 | A user "Bob", with or without trailing spaces, is found as the seed manager. |
| Seeding.SeedRows | Selu383.SP25.P02.Api/Data/SeedTheaters.cs:30-59 | Gives the four literal theaters. The first and third are managed by bob, and the second and fourth have no manager. |
| Seeding.SeedRowsAreAcceptable | Selu383.SP25.P02.Api/Data/SeedTheaters.cs:31-58 | Every seeded theater passes the controller's `IsInvalid` check. |
| Seeding.SeededTheaters | Selu383.SP25.P02.Api/Data/SeedTheaters.cs:14-59 | Given bob's id, the table is unchanged when any theater exists or the id is 0. An id of 0 covers both a missing bob and a bob whose id is 0. Otherwise the table is the four seed rows with consecutive ids, in order. |
| Seeding.SeedingIsIdempotent | Selu383.SP25.P02.Api/Data/SeedTheaters.cs:14-17 | Seeding a seeded table changes nothing. |
| Seeding.Initialize | Selu383.SP25.P02.Api/Data/SeedTheaters.cs:9-63 | The outcome is: returns early if theaters exist, fails if bob is missing, and seeds otherwise. The table becomes `SeededTheaters`, the users are only read, and the seeded rows are valid. |
| Seeding.InitializeTwice | Selu383.SP25.P02.Api/Data/SeedTheaters.cs:14-17 | Two runs leave the table that one run leaves, and the second run never seeds. |

## Left out

- Strings.ToLowerInvariant: maps only the ASCII letters A-Z. .NET also lower-cases other letters, some of them to ASCII. The Kelvin sign U+212A becomes `k`, so .NET would accept a spelling of "galkadi" with a Kelvin sign, and the model refuses it.
- Theaters.IsInvalid: name lengths are counted in Unicode scalar values. .NET's `Length` counts UTF-16 code units, so a name with characters outside the Basic Multilingual Plane counts as longer in .NET.
- Int32.TryParse: the invariant culture is assumed. The trailing NUL characters that .NET's number parser tolerates are not modelled, and neither is culture-specific sign text.
- Cookie transport is not modelled: the cookie attributes (HttpOnly, not Secure, path `/`), the URL-escaping that `Response.Cookies.Append` applies and the request decoding reverses, and header mechanics. The model keeps the cookie as the decoded text.
- Several pieces of ASP.NET machinery become plain values:
  - the `[Authorize]` short-circuit, which gives the same 401 before the action runs;
  - the challenge and forbid handlers behind `Unauthorized()` and `Forbid()`;
  - `CreatedAtAction` routing and its Location header;
  - `ClaimsPrincipal` and ticket construction;
  - `Task` wrappers.
- Authentication.UserFromClaims: `int.Parse` throws on a claim that is not an integer. Its requires clause rules that case out, and `CookieAuth.Authenticate` proves that every principal it issues meets it.
- Data.DataContext.Add: the identity counter is unbounded, and it numbers rows consecutively. A SQL Server IDENTITY column does not promise consecutive values: it can skip values after a restart or a rolled-back insert. `Data.DataContext.AddRange` and `Seeding.SeededTheaters` share this assumption. The model does not capture the 32-bit identity column overflowing, failed `SaveChanges` calls, concurrent requests or database constraints such as the column length limit and the unique user-name index.
- Seeding.BobId: the comparison follows SQL Server's default collation (SQL_Latin1_General_CP1_CI_AS) only in ignoring ASCII letter case and trailing spaces. Width- and kana-insensitivity, non-ASCII case folding and other collations are not modelled. `FirstOrDefault` has no `OrderBy`, so SQL leaves the order open, and the model takes the first matching user in table order. The unique user-name index uses the same collation and allows at most one match anyway.
- Seeding.Initialize: the thrown exception becomes the `BobMissing` outcome. Service-provider lookup and disposal of the context are left out.
- Program.cs (dependency injection, middleware, migrations, HTTPS redirection) and the DataContext model configuration are wiring with no behaviour to state.
- The `Manager` navigation property and the user-role tables are left out. Only a user's id and user name are read.
- `GetAllTheaters` returns a deferred query in the source. The model gives the rows as they are when it is called.
