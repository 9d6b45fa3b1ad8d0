# Token manager of the user service, in Dafny

This project models `JWTManager` from `user-service/internal/utils/jwt.go`, the component of the
user service that issues and checks JSON Web Tokens (RFC 7519). The manager:

- issues an **access token**. Its claim set carries the user's id (in UUID text form), email,
  role (`"courier"` or `"user"`) and courier flag, plus the registered claims `exp`
  (section 4.1.4 of RFC 7519) and `iat` (section 4.1.6).
- issues a **refresh token**. Its claim set carries only id, email, `exp` and `iat`.
- **verifies** an access token by handing it to the library's parser, with a key callback.

Both issue paths sign with ES256 (section 3.4 of RFC 7518) and with the bytes of the one
configured secret.

Modules, one per source file or component:

- `Wrappers`: `Option` and `Result`.
- `Uuid`: `uuid.UUID` (16 bytes) and the text form `UUID.String()` gives it, which is lower-case
  hexadecimal grouped 8-4-4-4-12 with dashes (section 4 of RFC 9562). `ParseCanonical` is a
  reference inverse of that form. It is not the library's own `uuid.Parse`. It exists so the
  model can prove that the `user_id` claim loses nothing.
- `Models`: the records of `internal/models/jwt.go` and `internal/models/user.go`, and
  `time.Duration` as a signed 64-bit count of nanoseconds.
- `JwtLib`: the parts of `golang-jwt` the manager touches: signing methods, the claims
  interface, tokens, and the signer and parser signatures.
- `Utils`: the manager itself, with the lemmas about it.

Inputs from outside the program are parameters:

- Each issue operation takes two clock readings. In the source, `ExpiresAt` is computed from
  the first `time.Now()` call and `IssuedAt` from the second.
- The signer stands for `jwt.NewWithClaims(method, claims).SignedString(key)`.
- The parser stands for `jwt.ParseWithClaims`.

The manager is an immutable datatype. No operation returns a changed manager, so no operation
can modify its fields.

`VerifyAccessToken` is modelled exactly as written. Its test
`if err != nil || token.Valid { return nil, err }` is inverted. The lemmas below state its
consequences, and `VerifyAccessTokenCorrected` is the same function with the test turned
round. A nil token returned together with a nil error makes the Go code dereference nil. The
model names that outcome `NilDereference`.

## Model

| member | source | states |
|---|---|---|
| `Uuid.UuidString` | user-service/internal/utils/jwt.go:26 | The id text is 36 characters long, with dashes at positions 8, 13, 18 and 23 and a lower-case hexadecimal digit (`0-9`, `a-f`) everywhere else. |
| `Uuid.UuidStringRoundTrip` | user-service/internal/utils/jwt.go:26 | The text form of an id reads back as exactly that id. |
| `Uuid.UuidStringInjective` | user-service/internal/utils/jwt.go:43 | Two ids with the same text form are the same id. |
| `Utils.NewJWTManager` | user-service/internal/utils/jwt.go:16-22 | The manager holds the key and the two lifetimes exactly as passed in, with no validation. |
| `Utils.IfRole` | user-service/internal/utils/jwt.go:73-78 | The role is `"courier"` exactly when the user is a courier and `"user"` exactly when not, so no other string is possible. |
| `Utils.AccessClaimsOf` | user-service/internal/utils/jwt.go:25-34 | `user_id` is the id's text form and reads back as the user's id. Email and courier flag are copied. The role is "courier" iff the flag is set. `exp` is the first clock reading plus the access lifetime and `iat` is the second reading. No other registered claim is set. |
| `Utils.GenerateAccessToken` | user-service/internal/utils/jwt.go:36-38 | The result is the signer's own answer, unchanged, for method ES256, the manager's secret bytes and those access claims. |
| `Utils.RefreshClaimsOf` | user-service/internal/utils/jwt.go:42-49 | `user_id` reads back as the user's id and the email is copied. `exp` is the first reading plus the refresh lifetime and `iat` is the second reading. Nothing else is set, and the type has no role or courier field. |
| `Utils.GenerateRefreshToken` | user-service/internal/utils/jwt.go:51-53 | The result is the signer's own answer for the same method ES256 and the same secret bytes as the access path, over the refresh claims. |
| `Utils.KeyFunc` | user-service/internal/utils/jwt.go:57-59 | For every token, whatever its header or algorithm, the callback succeeds with the manager's signing bytes. |
| `Utils.VerifyAccessToken` | user-service/internal/utils/jwt.go:56-71 | The parser is called once (`ParseAccess`), with the token string, the zero access-claims value as prototype and `KeyFunc`. A parser error comes back unchanged, with nil claims. It panics iff the parser returns neither token nor error. It returns claims iff there is no error, the token is NOT valid and its claims are access claims, and then the error is nil and the claims are the token's own. |
| `Utils.VerifyAccessTokenCorrected` | user-service/internal/utils/jwt.go:61-63 | The same cases, except that claims come back iff there is no error, the token IS valid and its claims are access claims. |
| `Utils.AccessLifetimeOneReading` | user-service/internal/utils/jwt.go:31-32 | With one clock reading, `exp - iat` equals the access lifetime. |
| `Utils.AccessLifetimeMonotoneClock` | user-service/internal/utils/jwt.go:31-32 | If the clock does not go back between readings, `exp - iat` is the lifetime minus the gap between the readings, so at most the lifetime. |
| `Utils.RefreshLifetime` | user-service/internal/utils/jwt.go:46-47 | The same for refresh tokens: if the clock does not go back, `exp - iat` is the lifetime minus the gap, so at most the lifetime, and exactly the lifetime when both readings are the same. |
| `Utils.AccessExpiresAfterIssueIff` | user-service/internal/utils/jwt.go:31-32 | `exp` is later than `iat` iff the access lifetime is longer than the gap between the readings. |
| `Utils.ClaimsDependOnlyOnIdentity` | user-service/internal/utils/jwt.go:24-49 | Two users who agree on id, email and courier flag get identical access and refresh claims, so password, names, phone, activity flag and dates never reach a token. |
| `Utils.DistinctUsersDistinctSubjects` | user-service/internal/utils/jwt.go:24-49 | Users with different ids get different `user_id` claims in both token kinds, whatever the clock readings. |
| `Utils.AcceptedTokenYieldsNoClaims` | user-service/internal/utils/jwt.go:61-63 | A token the parser accepts (no error, marked valid) is answered `(nil, nil)`. The corrected branch yields claims for it iff its claims are access claims. |
| `Utils.ConventionalParserNeverYieldsClaims` | user-service/internal/utils/jwt.go:56-71 | If the parser marks a token valid whenever it reports no error, every call returns nil claims together with the parser's own error. |
| `Utils.IssuedAccessTokenYieldsNoClaims` | user-service/internal/utils/jwt.go:24-71 | If signer and parser agree, a freshly issued access token verifies to `(nil, nil)`: no claims and no error. |
| `Utils.IssuedAccessTokenVerifiesCorrected` | user-service/internal/utils/jwt.go:24-71 | With the corrected branch, the same token yields exactly the claims it was issued with: the user's id, email and courier flag, and the role that flag implies. |

## Findings

| source | as written | input that shows it | evidently intended | confidence | as-written member | corrected member |
|---|---|---|---|---|---|---|
| user-service/internal/utils/jwt.go:61 | `if err != nil \|\| token.Valid { return nil, err }` | a token the parser accepts: the error is nil and `token.Valid` is true. The result is `(nil, nil)`, so the caller gets no claims and no error. | `if err != nil \|\| !token.Valid`: an accepted token returns its access claims | high; not executed | `Utils.AcceptedTokenYieldsNoClaims` | `Utils.IssuedAccessTokenVerifiesCorrected` |

## Behaviour worth knowing

- No algorithm check at verification. The key callback at jwt.go:57-59 returns the secret for
  every token and never looks at `token.Method`. No `WithValidMethods` option is passed to the
  parser. A token is therefore checked against whatever `alg` its header names
  (section 4.1.1 of RFC 7515). See `Utils.KeyFunc`.
- No lifetime validation. `NewJWTManager` (jwt.go:16-22) takes both lifetimes as given,
  including zero or negative ones.
- Two reads of the clock. Each generate function reads the clock once for `ExpiresAt` and once
  for `IssuedAt` (jwt.go:31-32, jwt.go:46-47). `Utils.AccessExpiresAfterIssueIff` gives the exact
  condition under which `exp` is later than `iat`.
- One secret for both directions. The same bytes `[]byte(j.SecretKey)` are the ES256 signing
  key (jwt.go:38, jwt.go:53) and the verification key (jwt.go:58). ES256 is an elliptic-curve
  algorithm, which normally has a separate private key and public key (section 3.4 of RFC 7518).
- Access and refresh tokens look alike. Both kinds are signed with the same method and key
  (jwt.go:36-38, jwt.go:51-53). Verification decodes into the access-claims type (jwt.go:57).
  Nothing in `jwt.go` tells a refresh token from an access token.
- Inverted acceptance (jwt.go:61). A token the parser accepts is answered with no claims and no
  error. See Findings.

## Left out

- Cryptography and encoding: ECDSA P-256/SHA-256 signing and checking, plus the base64url/JSON
  token encoding, happen inside `golang-jwt`. The signer and parser are parameters. Nothing is
  assumed about whether ES256 signing with a byte-string key succeeds. The end-to-end lemmas
  take agreement between signer and parser as a premise.
- The parser's own checks are not modelled: `exp`, `nbf` and `iat` validation, signature
  checking, and how it tells expired tokens from malformed ones. Its error reaches the caller
  unchanged, and that is all the model states about it.
- `jwt.NewNumericDate` truncates to the library's time precision. The model keeps the
  untruncated clock reading, so the `exp`/`iat` equalities hold before truncation.
- `time.Now()` is two clock-reading parameters per issue call.
- Utils.AccessClaimsOf: `time.Time.Add` (jwt.go:31) is plain addition of nanoseconds. Go's
  saturation at the ends of its time range, hundreds of billions of years away, is not modelled.
- Utils.RefreshClaimsOf: the same for the addition at jwt.go:46.
- The token header that `jwt.NewWithClaims` builds (`alg`, `typ`) is not modelled. The signer
  receives the method, the key and the claims directly.
- The signer is a function, so equal inputs give equal answers. ES256 signing in `golang-jwt`
  is randomised, because ECDSA draws a fresh nonce. One `sign` value stands for the answers in
  one scenario; it does not claim that the real signer is deterministic.
- A nil `*JWTManager` receiver is not modelled; in Go it panics on the first field access.
- A nil `*models.User` passed to the generate functions, and a typed-nil claims pointer out of
  the type assertion at jwt.go:65, are not modelled. `User` is a value, and the claims are a
  tagged union.
- `Uuid.ParseCanonical` is a reference inverse used only in contracts. It is not a model of the
  library's `uuid.Parse`, which also accepts other spellings.
- `models.UserLogin` and `models.UserRegister` are not used by the token manager.
- The logger (`pkg/logger/logger.go`), configuration loading (`internal/config/config.go`), the
  request-id and logging middleware (`internal/middleware/middleware.go`) and the HTTP server
  start-up (`internal/transport/http/router.go`) are I/O or calls into libraries not shown.
  They are not part of this model.
