/** The token manager of `internal/utils/jwt.go`.

    The manager is an immutable value: it is built once and every operation only
    reads it. The clock readings (`time.Now()`), the library's signer
    (`Token.SignedString`) and its parser (`jwt.ParseWithClaims`) are parameters.
    `VerifyAccessToken` keeps the branch of the code as it is written, with its
    inverted test of `token.Valid`; the lemmas at the end of the module state
    what that means for callers, and `VerifyAccessTokenCorrected` is the branch
    with the test the other way round. */
module Utils {
  import opened Wrappers
  import opened Uuid
  import opened Models
  import opened JwtLib

  /** `JWTManager`. The key is held as the bytes of the Go string `SecretKey`, so
      `[]byte(j.SecretKey)` is `secretKey` itself. */
  datatype JWTManager = JWTManager(
    secretKey: Bytes,
    accessTokenExpiration: Duration,
    refreshTokenExpiration: Duration)

  /** `NewJWTManager`: no check of the key or of the lifetimes. */
  function NewJWTManager(secretKey: Bytes, accessExpiry: Duration, refreshExpiry: Duration): (m: JWTManager)
    ensures m.secretKey == secretKey
    ensures m.accessTokenExpiration == accessExpiry
    ensures m.refreshTokenExpiration == refreshExpiry
  {
    JWTManager(secretKey, accessExpiry, refreshExpiry)
  }

  /** `ifRole`. */
  function IfRole(user: User): (role: string)
    ensures role == "courier" <==> user.isCourier
    ensures role == "user" <==> !user.isCourier
  {
    if user.isCourier then "courier" else "user"
  }

  /** Registered claims with only `exp` and `iat` set. */
  function Timestamps(expiresAt: Time, issuedAt: Time): RegisteredClaims
  {
    NoRegisteredClaims.(expiresAt := Some(NumericDate(expiresAt)), issuedAt := Some(NumericDate(issuedAt)))
  }

  /** The claims `GenerateAccessToken` builds. `expNow` is the first clock reading
      (taken for `ExpiresAt`), `iatNow` the second (taken for `IssuedAt`). */
  function AccessClaimsOf(m: JWTManager, user: User, expNow: Time, iatNow: Time): (c: AccessTokenClaims)
    ensures c.userId == UuidString(user.id) && ParseCanonical(c.userId) == Some(user.id)
    ensures c.email == user.email
    ensures c.isCourier == user.isCourier
    ensures c.role == "courier" <==> c.isCourier
    ensures c.role == "user" <==> !c.isCourier
    ensures c.registered.expiresAt == Some(NumericDate(expNow + m.accessTokenExpiration))
    ensures c.registered.issuedAt == Some(NumericDate(iatNow))
    ensures c.registered.(expiresAt := None, issuedAt := None) == NoRegisteredClaims
  {
    UuidStringRoundTrip(user.id);
    AccessTokenClaims(
      UuidString(user.id),
      user.email,
      IfRole(user),
      user.isCourier,
      Timestamps(expNow + m.accessTokenExpiration, iatNow))
  }

  /** `GenerateAccessToken`: signs the access claims with ES256 and the secret,
      and returns the signer's answer as it is. */
  function GenerateAccessToken(m: JWTManager, user: User, expNow: Time, iatNow: Time, sign: Signer): (r: Result<string, Error>)
    ensures r == sign(ES256, m.secretKey, AccessClaims(AccessClaimsOf(m, user, expNow, iatNow)))
  {
    var claims := AccessClaimsOf(m, user, expNow, iatNow);
    sign(ES256, m.secretKey, AccessClaims(claims))
  }

  /** The claims `GenerateRefreshToken` builds, with its two clock readings. */
  function RefreshClaimsOf(m: JWTManager, user: User, expNow: Time, iatNow: Time): (c: RefreshTokenClaims)
    ensures c.userId == UuidString(user.id) && ParseCanonical(c.userId) == Some(user.id)
    ensures c.email == user.email
    ensures c.registered.expiresAt == Some(NumericDate(expNow + m.refreshTokenExpiration))
    ensures c.registered.issuedAt == Some(NumericDate(iatNow))
    ensures c.registered.(expiresAt := None, issuedAt := None) == NoRegisteredClaims
  {
    UuidStringRoundTrip(user.id);
    RefreshTokenClaims(
      UuidString(user.id),
      user.email,
      Timestamps(expNow + m.refreshTokenExpiration, iatNow))
  }

  /** `GenerateRefreshToken`: the same method and key as the access path. */
  function GenerateRefreshToken(m: JWTManager, user: User, expNow: Time, iatNow: Time, sign: Signer): (r: Result<string, Error>)
    ensures r == sign(ES256, m.secretKey, RefreshClaims(RefreshClaimsOf(m, user, expNow, iatNow)))
  {
    var claims := RefreshClaimsOf(m, user, expNow, iatNow);
    sign(ES256, m.secretKey, RefreshClaims(claims))
  }

  /** The key callback handed to the parser. It looks at nothing in the token. */
  function KeyFunc(m: JWTManager): (kf: Keyfunc)
    ensures forall t :: kf(t) == Success(m.secretKey)
  {
    (t: Token) => Success(m.secretKey)
  }

  /** The call `jwt.ParseWithClaims(tokenStr, &models.AccessTokenClaims{}, keyfunc)`. */
  function ParseAccess(m: JWTManager, tokenStr: string, parse: Parser): ParseOutput
  {
    parse(tokenStr, AccessClaims(EmptyAccessTokenClaims), KeyFunc(m))
  }

  /** What `VerifyAccessToken` does: it returns a claims pointer and an error
      (either may be nil), or it dereferences a nil token and panics. */
  datatype VerifyOutcome =
    | Returned(claims: Option<AccessTokenClaims>, err: Option<Error>)
    | NilDereference

  /** True when the outcome hands claims to the caller. */
  predicate YieldsClaims(r: VerifyOutcome)
  {
    r.Returned? && r.claims.Some?
  }

  /** `VerifyAccessToken`, as written: `err != nil || token.Valid` leads to `(nil, err)`. */
  function VerifyAccessToken(m: JWTManager, tokenStr: string, parse: Parser): (r: VerifyOutcome)
    ensures var out := ParseAccess(m, tokenStr, parse);
      && (out.err.Some? ==> r == Returned(None, out.err))
      && (r.NilDereference? <==> out.err.None? && out.token.None?)
      && (YieldsClaims(r) <==>
            out.err.None? && out.token.Some? && !out.token.value.valid && out.token.value.claims.AccessClaims?)
      && (YieldsClaims(r) ==> r.err.None? && out.token.value.claims == AccessClaims(r.claims.value))
      && (r.Returned? && r.err.Some? ==> r.claims.None? && r.err == out.err)
  {
    var out := ParseAccess(m, tokenStr, parse);
    if out.err.Some? then Returned(None, out.err)
    else if out.token.None? then NilDereference
    else if out.token.value.valid then Returned(None, out.err)
    else match out.token.value.claims
      case AccessClaims(claims) => Returned(Some(claims), None)
      case _ => Returned(None, out.err)
  }

  /** `VerifyAccessToken` with the test of `token.Valid` the right way round:
      `err != nil || !token.Valid` leads to `(nil, err)`. */
  function VerifyAccessTokenCorrected(m: JWTManager, tokenStr: string, parse: Parser): (r: VerifyOutcome)
    ensures var out := ParseAccess(m, tokenStr, parse);
      && (out.err.Some? ==> r == Returned(None, out.err))
      && (r.NilDereference? <==> out.err.None? && out.token.None?)
      && (YieldsClaims(r) <==>
            out.err.None? && out.token.Some? && out.token.value.valid && out.token.value.claims.AccessClaims?)
      && (YieldsClaims(r) ==> r.err.None? && out.token.value.claims == AccessClaims(r.claims.value))
      && (r.Returned? && r.err.Some? ==> r.claims.None? && r.err == out.err)
  {
    var out := ParseAccess(m, tokenStr, parse);
    if out.err.Some? then Returned(None, out.err)
    else if out.token.None? then NilDereference
    else if !out.token.value.valid then Returned(None, out.err)
    else match out.token.value.claims
      case AccessClaims(claims) => Returned(Some(claims), None)
      case _ => Returned(None, out.err)
  }

  // ----- Timestamps -----

  /** With one clock reading for both claims, an access token lives exactly its lifetime. */
  lemma AccessLifetimeOneReading(m: JWTManager, user: User, now: Time)
    ensures var c := AccessClaimsOf(m, user, now, now);
      c.registered.expiresAt.value.time - c.registered.issuedAt.value.time == m.accessTokenExpiration
  {
  }

  /** With a clock that does not run backwards between the two readings, the span between
      `iat` and `exp` is the lifetime less the time between the readings. */
  lemma AccessLifetimeMonotoneClock(m: JWTManager, user: User, expNow: Time, iatNow: Time)
    requires expNow <= iatNow
    ensures var c := AccessClaimsOf(m, user, expNow, iatNow);
      && c.registered.expiresAt.value.time - c.registered.issuedAt.value.time
           == m.accessTokenExpiration - (iatNow - expNow)
      && c.registered.expiresAt.value.time - c.registered.issuedAt.value.time <= m.accessTokenExpiration
  {
  }

  /** The same facts for refresh tokens and their lifetime. */
  lemma RefreshLifetime(m: JWTManager, user: User, expNow: Time, iatNow: Time)
    requires expNow <= iatNow
    ensures var c := RefreshClaimsOf(m, user, expNow, iatNow);
      && c.registered.expiresAt.value.time - c.registered.issuedAt.value.time
           == m.refreshTokenExpiration - (iatNow - expNow)
      && c.registered.expiresAt.value.time - c.registered.issuedAt.value.time <= m.refreshTokenExpiration
      && (expNow == iatNow ==>
            c.registered.expiresAt.value.time - c.registered.issuedAt.value.time == m.refreshTokenExpiration)
  {
  }

  /** `exp > iat` holds only when the lifetime outlasts the gap between the readings;
      nothing in `NewJWTManager` rules out a lifetime of zero or less. */
  lemma AccessExpiresAfterIssueIff(m: JWTManager, user: User, expNow: Time, iatNow: Time)
    ensures var c := AccessClaimsOf(m, user, expNow, iatNow);
      var lived := c.registered.expiresAt.value.time - c.registered.issuedAt.value.time;
      lived > 0 <==> m.accessTokenExpiration > iatNow - expNow
  {
  }

  // ----- Identity -----

  /** Only the user's id, email and courier flag reach the claims: the password,
      names, phone, activity flag and dates never do. */
  lemma ClaimsDependOnlyOnIdentity(m: JWTManager, u1: User, u2: User, expNow: Time, iatNow: Time)
    requires u1.id == u2.id && u1.email == u2.email && u1.isCourier == u2.isCourier
    ensures AccessClaimsOf(m, u1, expNow, iatNow) == AccessClaimsOf(m, u2, expNow, iatNow)
    ensures RefreshClaimsOf(m, u1, expNow, iatNow) == RefreshClaimsOf(m, u2, expNow, iatNow)
  {
  }

  /** Users with different ids get different `user_id` claims. */
  lemma DistinctUsersDistinctSubjects(m: JWTManager, u1: User, u2: User, t1: Time, t2: Time, t3: Time, t4: Time)
    requires u1.id != u2.id
    ensures AccessClaimsOf(m, u1, t1, t2).userId != AccessClaimsOf(m, u2, t3, t4).userId
    ensures RefreshClaimsOf(m, u1, t1, t2).userId != RefreshClaimsOf(m, u2, t3, t4).userId
  {
  }

  // ----- Verification -----

  /** A token the parser accepts and marks valid is answered with no claims and no error. */
  lemma AcceptedTokenYieldsNoClaims(m: JWTManager, tokenStr: string, parse: Parser)
    requires ParseAccess(m, tokenStr, parse).err.None?
    requires ParseAccess(m, tokenStr, parse).token.Some?
    requires ParseAccess(m, tokenStr, parse).token.value.valid
    ensures VerifyAccessToken(m, tokenStr, parse) == Returned(None, None)
    ensures YieldsClaims(VerifyAccessTokenCorrected(m, tokenStr, parse))
        <==> ParseAccess(m, tokenStr, parse).token.value.claims.AccessClaims?
  {
  }

  /** The parser's convention: when it reports no error, it returns a token marked valid. */
  ghost predicate ValidWhenNoError(parse: Parser)
  {
    forall s, proto, kf :: parse(s, proto, kf).err.None? ==>
      parse(s, proto, kf).token.Some? && parse(s, proto, kf).token.value.valid
  }

  /** Under that convention `VerifyAccessToken` never hands out claims: every call returns
      nil claims with the parser's error, which is nil exactly when the token was accepted. */
  lemma ConventionalParserNeverYieldsClaims(m: JWTManager, tokenStr: string, parse: Parser)
    requires ValidWhenNoError(parse)
    ensures VerifyAccessToken(m, tokenStr, parse) == Returned(None, ParseAccess(m, tokenStr, parse).err)
  {
  }

  /** The signer and the parser agree: what the signer issues under ES256 and the
      manager's key, the parser reads back as a valid token with the same claims. */
  ghost predicate ParsesWhatIsSigned(m: JWTManager, sign: Signer, parse: Parser)
  {
    forall c: AccessTokenClaims :: sign(ES256, m.secretKey, AccessClaims(c)).Success? ==>
      var out := ParseAccess(m, sign(ES256, m.secretKey, AccessClaims(c)).value, parse);
      out.err.None? && out.token.Some? && out.token.value.valid && out.token.value.claims == AccessClaims(c)
  }

  /** With a signer and parser that agree, a freshly issued access token comes back from
      `VerifyAccessToken` as `(nil, nil)`: no claims and no error. */
  lemma IssuedAccessTokenYieldsNoClaims(
    m: JWTManager, user: User, expNow: Time, iatNow: Time, sign: Signer, parse: Parser, tokenStr: string)
    requires ParsesWhatIsSigned(m, sign, parse)
    requires GenerateAccessToken(m, user, expNow, iatNow, sign) == Success(tokenStr)
    ensures VerifyAccessToken(m, tokenStr, parse) == Returned(None, None)
  {
  }

  /** With the corrected branch, the same token yields the claims it was issued with:
      the user's id, email and courier flag, and the role that flag determines. */
  lemma IssuedAccessTokenVerifiesCorrected(
    m: JWTManager, user: User, expNow: Time, iatNow: Time, sign: Signer, parse: Parser, tokenStr: string)
    requires ParsesWhatIsSigned(m, sign, parse)
    requires GenerateAccessToken(m, user, expNow, iatNow, sign) == Success(tokenStr)
    ensures var r := VerifyAccessTokenCorrected(m, tokenStr, parse);
      && r == Returned(Some(AccessClaimsOf(m, user, expNow, iatNow)), None)
      && ParseCanonical(r.claims.value.userId) == Some(user.id)
      && r.claims.value.email == user.email
      && r.claims.value.isCourier == user.isCourier
      && (r.claims.value.role == "courier" <==> user.isCourier)
  {
  }
}
