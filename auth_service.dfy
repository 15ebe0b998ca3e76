/**
 * `AuthService`: registration, login and the bearer-token check in front of every analysis
 * endpoint. The user table (`UserMapper`) is a class holding its rows; the password encoder is
 * a pair of function-valued parameters; clock readings and the random token are passed in.
 */
module AuthService {
  import opened Wrappers
  import opened Text
  import opened Exceptions
  import opened AuthTokenService

  const AUTHORIZATION_PREFIX := "Bearer "
  const BAD_REQUEST := 400
  const CONFLICT := 409
  const USERNAME_REQUIRED := "Username is required"
  const USERNAME_TAKEN := "Username is already registered"
  const INVALID_CREDENTIALS := "Invalid username or password"
  const MISSING_HEADER := "Missing Authorization header"
  const INVALID_HEADER := "Invalid Authorization header"
  const AUTHENTICATION_REQUIRED := "Authentication required"

  /** `UserDto`: what the API reveals about a user. */
  datatype UserDto = UserDto(id: Option<int>, username: Option<string>, createdAt: Option<int>)

  /** `AuthResponse`: the issued token and the user it belongs to. */
  datatype AuthResponse = AuthResponse(token: string, user: UserDto)

  // ---------------------------------------------------------------------------------------
  // The user table

  /** The `User` bean that `register` fills in before the insert. */
  class User {
    var id: Option<int>
    var username: Option<string>
    var passwordHash: Option<string>
    var createdAt: Option<int>

    constructor ()
      ensures id == None && username == None && passwordHash == None && createdAt == None
    {
      id, username, passwordHash, createdAt := None, None, None, None;
    }
  }

  /** One stored user. */
  datatype UserRow = UserRow(id: int, username: Option<string>, passwordHash: Option<string>,
                             createdAt: Option<int>)

  /** `findByUsername(username)`: the stored user with that name, or `null`. */
  function ByUsername(rows: seq<UserRow>, username: string): (r: Option<UserRow>)
    ensures r.Some? <==> exists i :: 0 <= i < |rows| && rows[i].username == Some(username)
    ensures r.Some? ==> r.value in rows && r.value.username == Some(username)
    ensures r.Some? ==> exists i :: 0 <= i < |rows| && rows[i] == r.value
                                    && forall j :: 0 <= j < i ==> rows[j].username != Some(username)
  {
    if rows == [] then None
    else if rows[0].username == Some(username) then Some(rows[0])
    else
      var r := ByUsername(rows[1..], username);
      assert forall i :: 1 <= i < |rows| ==> rows[i] == rows[1..][i - 1];
      r
  }

  /** No two stored users share a username. */
  ghost predicate UniqueUsernames(rows: seq<UserRow>) {
    forall i, j :: 0 <= i < j < |rows| && rows[i].username.Some? ==> rows[i].username != rows[j].username
  }

  /** `UserMapper`, with generated ids 1, 2, 3, ... written back into the inserted bean. */
  class UserStore {
    var rows: seq<UserRow>
    var nextId: int

    ghost predicate Valid()
      reads this
    {
      nextId == |rows| + 1 && forall i :: 0 <= i < |rows| ==> rows[i].id == i + 1
    }

    constructor ()
      ensures Valid() && rows == []
    {
      rows, nextId := [], 1;
    }

    /** `insert(user)`: stores the bean's fields under a fresh id and sets `user.id`. */
    method Insert(user: User)
      requires Valid()
      modifies this, user`id
      ensures Valid()
      ensures user.id == Some(old(nextId))
      ensures rows == old(rows) + [UserRow(old(nextId), user.username, user.passwordHash, user.createdAt)]
    {
      rows := rows + [UserRow(nextId, user.username, user.passwordHash, user.createdAt)];
      user.id := Some(nextId);
      nextId := nextId + 1;
    }

    /** `findByUsername(username)`. */
    method FindByUsername(username: string) returns (r: Option<UserRow>)
      ensures r == ByUsername(rows, username)
    {
      var i := 0;
      while i < |rows|
        invariant 0 <= i <= |rows|
        invariant ByUsername(rows, username) == ByUsername(rows[i..], username)
      {
        if rows[i].username == Some(username) {
          return Some(rows[i]);
        }
        assert rows[i..][1..] == rows[i + 1..];
        i := i + 1;
      }
      return None;
    }
  }

  /** A name not yet taken, appended to a table of unique names, keeps the names unique and is
      then found as the new row. */
  lemma AppendedUserFound(rows: seq<UserRow>, row: UserRow, username: string)
    requires UniqueUsernames(rows) && ByUsername(rows, username).None?
    requires row.username == Some(username)
    ensures UniqueUsernames(rows + [row])
    ensures ByUsername(rows + [row], username) == Some(row)
  {
    var all := rows + [row];
    forall i, j | 0 <= i < j < |all| && all[i].username.Some?
      ensures all[i].username != all[j].username
    {
      if j == |rows| {
        assert all[i] == rows[i];
      } else {
        assert all[i] == rows[i] && all[j] == rows[j];
      }
    }
    assert all[|rows|] == row;
  }

  // ---------------------------------------------------------------------------------------
  // Pure checks

  /** `normalizeUsername`: a null name, or one that trims to nothing, is a bad request; any
      other name is trimmed. Normalizing a normalized name changes nothing. */
  function NormalizeUsername(username: Option<string>): (r: Result<string, Exception>)
    ensures r.Failure? <==> username.None? || JavaTrim(username.value) == []
    ensures r.Failure? ==> r.error == ResponseStatusException(BAD_REQUEST, USERNAME_REQUIRED)
    ensures r.Success? ==> r.value == JavaTrim(username.value) && r.value != []
  {
    if username.None? then Failure(ResponseStatusException(BAD_REQUEST, USERNAME_REQUIRED))
    else
      var normalized := JavaTrim(username.value);
      if normalized == [] then Failure(ResponseStatusException(BAD_REQUEST, USERNAME_REQUIRED))
      else Success(normalized)
  }

  lemma NormalizeUsernameIdempotent(username: Option<string>)
    requires NormalizeUsername(username).Success?
    ensures NormalizeUsername(Some(NormalizeUsername(username).value)) == NormalizeUsername(username)
  {
    TrimIdempotent(username.value, JavaTrimmable);
  }

  /** `extractToken`: a null or blank header is missing; a header that, trimmed, does not start
      with "Bearer " in any letter case is invalid; otherwise the token is the trimmed rest,
      which has nothing left to trim. */
  function ExtractToken(header: Option<string>): (r: Result<string, Exception>)
    ensures r == Failure(UnauthorizedException(MISSING_HEADER)) <==> header.None? || JavaIsBlank(header.value)
    ensures r == Failure(UnauthorizedException(INVALID_HEADER)) <==>
              header.Some? && !JavaIsBlank(header.value)
              && !StartsWithIgnoreCase(JavaTrim(header.value), AUTHORIZATION_PREFIX)
    ensures r.Success? <==> header.Some? && !JavaIsBlank(header.value)
                            && StartsWithIgnoreCase(JavaTrim(header.value), AUTHORIZATION_PREFIX)
    ensures r.Success? ==> r.value == JavaTrim(JavaTrim(header.value)[|AUTHORIZATION_PREFIX|..])
    ensures r.Success? ==> JavaTrim(r.value) == r.value
  {
    if header.None? || JavaIsBlank(header.value) then Failure(UnauthorizedException(MISSING_HEADER))
    else
      var trimmed := JavaTrim(header.value);
      if StartsWithIgnoreCase(trimmed, AUTHORIZATION_PREFIX) then
        TrimIdempotent(trimmed[|AUTHORIZATION_PREFIX|..], JavaTrimmable);
        Success(JavaTrim(trimmed[|AUTHORIZATION_PREFIX|..]))
      else Failure(UnauthorizedException(INVALID_HEADER))
  }

  /** The header a client builds from a token: "Bearer " in any letter case, then the token,
      yields that token back. */
  lemma ExtractTokenReadsBearerHeader(scheme: string, token: string)
    requires EqualsIgnoreCase(scheme, AUTHORIZATION_PREFIX)
    requires token != [] && !JavaTrimmable(token[0]) && !JavaTrimmable(token[|token| - 1])
    ensures ExtractToken(Some(scheme + token)) == Success(token)
  {
    var h := scheme + token;
    assert LowerChar(h[0]) == 'b';
    assert !JavaWhitespace(h[0]);
    assert !JavaTrimmable(h[0]) && h[|h| - 1] == token[|token| - 1];
    TrimOfTrimmed(h, JavaTrimmable);
    assert h[..|AUTHORIZATION_PREFIX|] == scheme && h[|AUTHORIZATION_PREFIX|..] == token;
    TrimOfTrimmed(token, JavaTrimmable);
  }

  /** The scheme alone is not a credential: trimming strips its trailing space, and what is
      left is shorter than the prefix. */
  lemma SchemeAloneRefused(scheme: string)
    requires EqualsIgnoreCase(scheme, AUTHORIZATION_PREFIX)
    ensures ExtractToken(Some(scheme)) == Failure(UnauthorizedException(INVALID_HEADER))
  {
    assert LowerChar(scheme[0]) == 'b' && LowerChar(scheme[6]) == ' ';
    assert !JavaWhitespace(scheme[0]);
    assert JavaTrimmable(scheme[6]);
    assert |JavaTrim(scheme)| < 7;
  }

  /** The check `login` makes: an unknown user and a wrong password fail alike. */
  function CheckCredentials(found: Option<UserRow>, password: string,
                            matches: (string, Option<string>) -> bool): (r: Result<UserRow, Exception>)
    ensures r.Success? <==> found.Some? && matches(password, found.value.passwordHash)
    ensures r.Success? ==> r.value == found.value
    ensures r.Failure? ==> r.error == UnauthorizedException(INVALID_CREDENTIALS)
  {
    if found.None? || !matches(password, found.value.passwordHash) then
      Failure(UnauthorizedException(INVALID_CREDENTIALS))
    else Success(found.value)
  }

  function ToDto(row: UserRow): UserDto {
    UserDto(Some(row.id), row.username, row.createdAt)
  }

  /** A user just registered with a password logs in with the same password, provided the
      encoder accepts what it encoded. */
  lemma RegisteredUserCanLogIn(rows: seq<UserRow>, id: int, username: string, password: string,
                               createdAt: int, encode: string -> string,
                               matches: (string, Option<string>) -> bool)
    requires UniqueUsernames(rows) && ByUsername(rows, username).None?
    requires matches(password, Some(encode(password)))
    ensures var row := UserRow(id, Some(username), Some(encode(password)), Some(createdAt));
            CheckCredentials(ByUsername(rows + [row], username), password, matches) == Success(row)
  {
    AppendedUserFound(rows, UserRow(id, Some(username), Some(encode(password)), Some(createdAt)), username);
  }

  // ---------------------------------------------------------------------------------------
  // The service

  class AuthService {
    const users: UserStore
    const tokens: AuthTokenService
    /** `PasswordEncoder.encode` and `PasswordEncoder.matches`. */
    const encode: string -> string
    const matches: (string, Option<string>) -> bool

    ghost predicate Valid()
      reads this, users, tokens
    {
      users.Valid() && tokens.Valid() && UniqueUsernames(users.rows)
    }

    constructor (users: UserStore, tokens: AuthTokenService, encode: string -> string,
                 matches: (string, Option<string>) -> bool)
      ensures this.users == users && this.tokens == tokens
      ensures this.encode == encode && this.matches == matches
    {
      this.users, this.tokens, this.encode, this.matches := users, tokens, encode, matches;
    }

    /** `register(request)`: a bad name fails first; a taken name fails with CONFLICT and
        stores nothing; otherwise exactly one user is inserted and exactly one token issued. */
    method Register(username: Option<string>, password: string, createdAt: int, issuedAt: int,
                    issued: string) returns (r: Result<AuthResponse, Exception>)
      requires Valid() && UuidShaped(issued)
      modifies users, tokens
      ensures Valid()
      ensures NormalizeUsername(username).Failure? ==>
                r == Failure(NormalizeUsername(username).error)
                && users.rows == old(users.rows) && tokens.activeTokens == old(tokens.activeTokens)
      ensures NormalizeUsername(username).Success?
              && ByUsername(old(users.rows), NormalizeUsername(username).value).Some? ==>
                r == Failure(ResponseStatusException(CONFLICT, USERNAME_TAKEN))
                && users.rows == old(users.rows) && tokens.activeTokens == old(tokens.activeTokens)
      ensures NormalizeUsername(username).Success?
              && ByUsername(old(users.rows), NormalizeUsername(username).value).None? ==>
                var name, id := NormalizeUsername(username).value, old(users.nextId);
                users.rows == old(users.rows) + [UserRow(id, Some(name), Some(encode(password)), Some(createdAt))]
                && tokens.activeTokens == old(tokens.activeTokens)[issued := AuthenticatedUser(Some(id), Some(name), Some(createdAt), issuedAt)]
                && r == Success(AuthResponse(issued, UserDto(Some(id), Some(name), Some(createdAt))))
    {
      var normalized := NormalizeUsername(username);
      if normalized.Failure? {
        return Failure(normalized.error);
      }
      var name := normalized.value;
      var existing := users.FindByUsername(name);
      if existing.Some? {
        return Failure(ResponseStatusException(CONFLICT, USERNAME_TAKEN));
      }
      var user := new User();
      user.username := Some(name);
      user.passwordHash := Some(encode(password));
      user.createdAt := Some(createdAt);
      users.Insert(user);
      AppendedUserFound(old(users.rows), users.rows[|users.rows| - 1], name);
      assert users.rows == old(users.rows) + [users.rows[|users.rows| - 1]];
      var token := tokens.IssueToken(user.id, user.username, user.createdAt, issuedAt, issued);
      r := Success(AuthResponse(token, UserDto(user.id, user.username, user.createdAt)));
    }

    /** `login(request)`: an unknown name and a wrong password give the same error and issue
        no token; otherwise one token is issued for the stored user. */
    method Login(username: Option<string>, password: string, issuedAt: int, issued: string)
      returns (r: Result<AuthResponse, Exception>)
      requires Valid() && UuidShaped(issued)
      modifies tokens
      ensures Valid()
      ensures NormalizeUsername(username).Failure? ==>
                r == Failure(NormalizeUsername(username).error)
                && tokens.activeTokens == old(tokens.activeTokens)
      ensures NormalizeUsername(username).Success? ==>
                var check := CheckCredentials(ByUsername(users.rows, NormalizeUsername(username).value), password, matches);
                (check.Failure? ==> r == Failure(UnauthorizedException(INVALID_CREDENTIALS))
                                    && tokens.activeTokens == old(tokens.activeTokens))
                && (check.Success? ==>
                      var row := check.value;
                      tokens.activeTokens == old(tokens.activeTokens)[issued := AuthenticatedUser(Some(row.id), row.username, row.createdAt, issuedAt)]
                      && r == Success(AuthResponse(issued, ToDto(row))))
    {
      var normalized := NormalizeUsername(username);
      if normalized.Failure? {
        return Failure(normalized.error);
      }
      var found := users.FindByUsername(normalized.value);
      if found.None? || !matches(password, found.value.passwordHash) {
        return Failure(UnauthorizedException(INVALID_CREDENTIALS));
      }
      var row := found.value;
      var token := tokens.IssueToken(Some(row.id), row.username, row.createdAt, issuedAt, issued);
      r := Success(AuthResponse(token, ToDto(row)));
    }

    /** `requireUser(header)`: header errors come before the token lookup; an unknown token
        needs authentication; otherwise the token owner's id, name and creation time. */
    method RequireUser(header: Option<string>) returns (r: Result<UserDto, Exception>)
      ensures ExtractToken(header).Failure? ==> r == Failure(ExtractToken(header).error)
      ensures ExtractToken(header).Success? && Find(tokens.activeTokens, Some(ExtractToken(header).value)).None? ==>
                r == Failure(UnauthorizedException(AUTHENTICATION_REQUIRED))
      ensures ExtractToken(header).Success? && Find(tokens.activeTokens, Some(ExtractToken(header).value)).Some? ==>
                var owner := Find(tokens.activeTokens, Some(ExtractToken(header).value)).value;
                r == Success(UserDto(owner.id, owner.username, owner.createdAt))
    {
      var token := ExtractToken(header);
      if token.Failure? {
        return Failure(token.error);
      }
      var authenticated := tokens.FindByToken(Some(token.value));
      if authenticated.None? {
        return Failure(UnauthorizedException(AUTHENTICATION_REQUIRED));
      }
      var owner := authenticated.value;
      r := Success(UserDto(owner.id, owner.username, owner.createdAt));
    }
  }

  /** A request carrying "Bearer <token>" for a token the table holds is let through as the
      token's owner. */
  lemma IssuedTokenAuthenticates(tokens: map<string, AuthenticatedUser>, scheme: string, t: string)
    requires EqualsIgnoreCase(scheme, AUTHORIZATION_PREFIX) && UuidShaped(t) && t in tokens
    ensures ExtractToken(Some(scheme + t)) == Success(t)
    ensures Find(tokens, Some(t)) == Some(tokens[t])
  {
    assert IsHexDigit(t[0]) && IsHexDigit(t[35]);
    ExtractTokenReadsBearerHeader(scheme, t);
    UuidIsTrimmedToken(t);
  }
}
