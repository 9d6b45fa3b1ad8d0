/** The surface of the `golang-jwt` library that the token manager calls.
    Signing, parsing, signature checks and the JWT string encoding are not
    modelled: a signer and a parser are passed in as functions. */
module JwtLib {
  import opened Wrappers
  import opened Uuid
  import opened Models

  type Bytes = seq<byte>

  /** A signing method, known by its `alg` header value (section 3.1 of RFC 7518). */
  datatype SigningMethod = SigningMethod(alg: string)

  /** `jwt.SigningMethodES256`: ECDSA on P-256 with SHA-256 (section 3.4 of RFC 7518). */
  const ES256 := SigningMethod("ES256")

  /** The dynamic type behind the `jwt.Claims` interface value of a token. */
  datatype Claims =
    | AccessClaims(access: AccessTokenClaims)
    | RefreshClaims(refresh: RefreshTokenClaims)
    | OtherClaims(typeName: string)

  /** A library error value. */
  datatype Error = Error(message: string)

  /** `jwt.Token` as the parser hands it to the key callback and returns it. */
  datatype Token = Token(
    raw: string,
    signingMethod: SigningMethod,
    header: map<string, string>,
    claims: Claims,
    signature: Bytes,
    valid: bool)

  /** `jwt.Keyfunc`: picks the verification key for a parsed token. */
  type Keyfunc = Token -> Result<Bytes, Error>

  /** What `jwt.NewWithClaims(method, claims).SignedString(key)` gives:
      the signed token string, or an error. */
  type Signer = (SigningMethod, Bytes, Claims) -> Result<string, Error>

  /** The pair `(*jwt.Token, error)`; either part may be nil. */
  datatype ParseOutput = ParseOutput(token: Option<Token>, err: Option<Error>)

  /** `jwt.ParseWithClaims(tokenString, claimsPrototype, keyfunc)`. */
  type Parser = (string, Claims, Keyfunc) -> ParseOutput
}
