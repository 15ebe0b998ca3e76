/**
 * `AuthTokenService`: the in-memory table of bearer tokens. `issueToken` files a snapshot of the
 * user under a fresh random token, `findByToken` looks a (trimmed) token up, and `revoke` drops
 * it. The random token and the clock reading are passed in.
 */
module AuthTokenService {
  import opened Wrappers
  import opened Text

  /** The `AuthenticatedUser` snapshot stored under a token. */
  datatype AuthenticatedUser = AuthenticatedUser(id: Option<int>, username: Option<string>,
                                                 createdAt: Option<int>, issuedAt: int)

  predicate IsHexDigit(c: char) {
    '0' <= c <= '9' || 'a' <= c <= 'f'
  }

  /** The text of `UUID.randomUUID().toString()`: 32 lower-case hex digits in groups 8-4-4-4-12. */
  predicate UuidShaped(t: string) {
    |t| == 36
    && forall i :: 0 <= i < 36 ==>
         if i == 8 || i == 13 || i == 18 || i == 23 then t[i] == '-' else IsHexDigit(t[i])
  }

  /** A token as issued is never blank and has nothing for `trim()` to remove. */
  lemma UuidIsTrimmedToken(t: string)
    requires UuidShaped(t)
    ensures !JavaIsBlank(t) && JavaTrim(t) == t
  {
    assert IsHexDigit(t[0]) && IsHexDigit(t[35]);
    assert !JavaWhitespace(t[0]);
    TrimOfTrimmed(t, JavaTrimmable);
  }

  /** `findByToken(token)` over a given table: nothing for a null or blank token, otherwise the
      entry filed under the trimmed token, if any. */
  function Find(tokens: map<string, AuthenticatedUser>, token: Option<string>): (r: Option<AuthenticatedUser>)
    ensures token.None? || JavaIsBlank(token.value) ==> r.None?
    ensures r.Some? <==> token.Some? && !JavaIsBlank(token.value) && JavaTrim(token.value) in tokens
    ensures r.Some? ==> r.value == tokens[JavaTrim(token.value)]
  {
    if token.None? || JavaIsBlank(token.value) then None
    else
      var normalized := JavaTrim(token.value);
      if normalized in tokens then Some(tokens[normalized]) else None
  }

  /** The table after `revoke(token)`. */
  function Revoked(tokens: map<string, AuthenticatedUser>, token: Option<string>): (r: map<string, AuthenticatedUser>)
    ensures token.None? || JavaIsBlank(token.value) ==> r == tokens
    ensures token.Some? && !JavaIsBlank(token.value) ==> JavaTrim(token.value) !in r
    ensures forall k :: k in r <==> k in tokens && (token.None? || JavaIsBlank(token.value) || k != JavaTrim(token.value))
    ensures forall k :: k in r ==> r[k] == tokens[k]
  {
    if token.None? || JavaIsBlank(token.value) then tokens else tokens - {JavaTrim(token.value)}
  }

  /** Every token in the table is one `issueToken` could have produced. */
  ghost predicate AllIssued(tokens: map<string, AuthenticatedUser>) {
    forall k :: k in tokens ==> UuidShaped(k)
  }

  /** Surrounding white space does not matter to a lookup: presenting a token or its trimmed
      form finds the same entry, since no issued token is blank. */
  lemma FindIgnoresSurroundingSpace(tokens: map<string, AuthenticatedUser>, t: string)
    requires AllIssued(tokens)
    ensures Find(tokens, Some(t)) == Find(tokens, Some(JavaTrim(t)))
  {
    var n := JavaTrim(t);
    TrimIdempotent(t, JavaTrimmable);
    if n in tokens {
      UuidIsTrimmedToken(n);
      var a :| 0 <= a < |t| && !JavaWhitespace(t[a]) by {
        assert n[0] == t[LeadingCount(t, JavaTrimmable)];
      }
    }
    if JavaIsBlank(t) {
      var a := LeadingCount(t, JavaTrimmable);
      assert n == t[a..a + |n|];
      forall i | 0 <= i < |n| ensures JavaWhitespace(n[i]) {
        assert n[i] == t[a + i];
      }
    }
  }

  /** A token found after `issueToken(user)` returned it: the snapshot just filed. */
  lemma IssuedTokenFound(tokens: map<string, AuthenticatedUser>, t: string, snapshot: AuthenticatedUser)
    requires UuidShaped(t)
    ensures Find(tokens[t := snapshot], Some(t)) == Some(snapshot)
  {
    UuidIsTrimmedToken(t);
  }

  /** After `revoke(t)` the token `t` is no longer found, in any spelling that trims to it, and
      every other token is found exactly as before. */
  lemma RevokedTokenGone(tokens: map<string, AuthenticatedUser>, t: string, u: Option<string>)
    requires !JavaIsBlank(t)
    ensures Find(Revoked(tokens, Some(t)), Some(t)) == None
    ensures u.Some? && JavaTrim(u.value) == JavaTrim(t) ==> Find(Revoked(tokens, Some(t)), u) == None
    ensures u.Some? && JavaTrim(u.value) != JavaTrim(t) ==>
              Find(Revoked(tokens, Some(t)), u) == Find(tokens, u)
  {
  }

  class AuthTokenService {
    var activeTokens: map<string, AuthenticatedUser>

    ghost predicate Valid()
      reads this
    {
      AllIssued(activeTokens)
    }

    constructor ()
      ensures Valid() && activeTokens == map[]
    {
      activeTokens := map[];
    }

    /** `issueToken(user)` with `issued` standing for `UUID.randomUUID().toString()` and `issuedAt`
        for `LocalDateTime.now()`: files a snapshot of the user's id, username and creation time
        and returns the token, under which that snapshot is then found. */
    method IssueToken(id: Option<int>, username: Option<string>, createdAt: Option<int>,
                      issuedAt: int, issued: string) returns (token: string)
      requires Valid() && UuidShaped(issued)
      modifies this
      ensures Valid()
      ensures token == issued
      ensures activeTokens == old(activeTokens)[issued := AuthenticatedUser(id, username, createdAt, issuedAt)]
      ensures Find(activeTokens, Some(token)) == Some(AuthenticatedUser(id, username, createdAt, issuedAt))
    {
      var snapshot := AuthenticatedUser(id, username, createdAt, issuedAt);
      activeTokens := activeTokens[issued := snapshot];
      token := issued;
      IssuedTokenFound(old(activeTokens), issued, snapshot);
    }

    /** `findByToken(token)`. */
    method FindByToken(token: Option<string>) returns (r: Option<AuthenticatedUser>)
      ensures r == Find(activeTokens, token)
    {
      if token.None? || JavaIsBlank(token.value) {
        return None;
      }
      var normalized := JavaTrim(token.value);
      r := if normalized in activeTokens then Some(activeTokens[normalized]) else None;
    }

    /** `revoke(token)`: a null or blank token changes nothing; otherwise only the trimmed token
        leaves the table, and it is no longer found. */
    method Revoke(token: Option<string>)
      requires Valid()
      modifies this
      ensures Valid()
      ensures activeTokens == Revoked(old(activeTokens), token)
      ensures Find(activeTokens, token) == None
    {
      if token.None? || JavaIsBlank(token.value) {
        return;
      }
      activeTokens := activeTokens - {JavaTrim(token.value)};
      RevokedTokenGone(old(activeTokens), token.value, None);
    }
  }
}
