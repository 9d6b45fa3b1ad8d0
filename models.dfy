/** The records of `internal/models`: the user, and the two claim sets the
    token manager signs. They hold no logic of their own. */
module Models {
  import opened Wrappers
  import opened Uuid

  /** A clock reading, as nanoseconds since the Unix epoch. */
  type Time = int

  const MinInt64: int := -0x8000_0000_0000_0000
  const MaxInt64: int := 0x7fff_ffff_ffff_ffff

  /** `time.Duration`: a signed 64-bit count of nanoseconds. */
  type Duration = d: int | MinInt64 <= d <= MaxInt64

  /** `jwt.NumericDate`, the value of the registered claims `exp` and `iat`
      (sections 4.1.4 and 4.1.6 of RFC 7519). */
  datatype NumericDate = NumericDate(time: Time)

  /** `jwt.RegisteredClaims`; a nil `*NumericDate` is `None`. */
  datatype RegisteredClaims = RegisteredClaims(
    issuer: string,
    subject: string,
    audience: seq<string>,
    expiresAt: Option<NumericDate>,
    notBefore: Option<NumericDate>,
    issuedAt: Option<NumericDate>,
    id: string)

  /** The zero value of `jwt.RegisteredClaims`. */
  const NoRegisteredClaims := RegisteredClaims("", "", [], None, None, None, "")

  /** `models.AccessTokenClaims` (JSON keys user_id, email, role, is_courier). */
  datatype AccessTokenClaims = AccessTokenClaims(
    userId: string,
    email: string,
    role: string,
    isCourier: bool,
    registered: RegisteredClaims)

  /** The zero value `&models.AccessTokenClaims{}` handed to the parser. */
  const EmptyAccessTokenClaims := AccessTokenClaims("", "", "", false, NoRegisteredClaims)

  /** `models.RefreshTokenClaims` (JSON keys user_id, email): no role, no courier flag. */
  datatype RefreshTokenClaims = RefreshTokenClaims(
    userId: string,
    email: string,
    registered: RegisteredClaims)

  /** `models.User`; the password is never serialised (`json:"-"`). */
  datatype User = User(
    id: UUID,
    firstName: string,
    lastName: string,
    email: string,
    password: string,
    phone: string,
    isCourier: bool,
    isActive: bool,
    createdAt: Time,
    updatedAt: Time)
}
