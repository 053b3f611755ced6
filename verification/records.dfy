/** The rows of the four tables the services work on, the JWT claims they sign,
    and the cryptographic and presentation libraries they call, which are opaque
    here: each is a field of `Externals` that any function may fill. */
module Records {
  import opened Base

  /** A user row. `password` holds the password hash, never the plain password. */
  datatype User = User(
    id: string,
    email: string,
    name: string,
    password: string,
    isEmailVerified: bool)

  /** The preferences row of one user (1:1 with the user, keyed by `userId`). */
  datatype Preferences = Preferences(
    userId: string,
    enable2FA: bool,
    twoFactorSecret: string,
    emailNotification: bool)

  /** One logged-in device. `userAgent` is absent when the request had no header. */
  datatype Session = Session(
    id: string,
    userId: string,
    userAgent: Option<string>,
    createdAt: int,
    expiresAt: int)

  datatype VerificationType = EmailVerification | PasswordReset

  /** A single-use code row, for email verification or password reset. */
  datatype VerificationRequest = VerificationRequest(
    id: string,
    userId: string,
    code: string,
    kind: VerificationType,
    createdAt: int,
    expires: int)

  /** The claims a token carries. Access tokens are signed with the default key and
      carry `{userId, sessionId}`; refresh tokens are signed with the refresh
      configuration and carry `{sub, sessionId}`. */
  datatype Claims =
    | AccessClaims(userId: string, sessionId: Option<string>)
    | RefreshClaims(sub: string, sessionId: Option<string>)

  /** Which signing secret and expiry a token uses. */
  datatype KeyClass = DefaultKey | RefreshKey

  /** What the mail provider answers to a send: a message id, or an error. */
  datatype MailResult = Sent(id: string) | Failed(name: string, message: string)

  /** The libraries the services call, whose internals are not part of this model:
      `hash` and `verifyHash` (argon2: `verifyHash(hash, plain)`), `sign` and
      `verifyJwt` (jsonwebtoken, with the issue or check time), `totp` and
      `totpVerify` (speakeasy: the code for a base32 secret at a time, and the
      check of a code against a secret at a time), `otpauthUrl` (speakeasy's
      provisioning URI for a secret and a label) and `qrDataUrl` (qrcode). */
  datatype Externals = Externals(
    hash: string -> string,
    verifyHash: (string, string) -> bool,
    sign: (Claims, KeyClass, int) -> string,
    verifyJwt: (string, KeyClass, int) -> Option<Claims>,
    totp: (string, int) -> string,
    totpVerify: (string, string, int) -> bool,
    otpauthUrl: (string, string) -> string,
    qrDataUrl: string -> string)

  /** What a JWT library promises of the tokens it signs with one key: within `ttl`
      of their issue time they verify, under the same key, to the claims signed. */
  ghost predicate JwtRoundTrip(ext: Externals, key: KeyClass, ttl: int)
  {
    forall c, iat, now :: iat <= now < iat + ttl ==> ext.verifyJwt(ext.sign(c, key, iat), key, now) == Some(c)
  }

  /** Signed tokens are non-empty, dot-separated base64url segments, so they
      hold no '='. */
  ghost predicate CookieSafeTokens(ext: Externals)
  {
    forall c, key, iat :: ext.sign(c, key, iat) != "" && '=' !in ext.sign(c, key, iat)
  }

  // Column accessors, used as the key of a uniqueness or lookup condition.
  function UserId(u: User): string { u.id }
  function UserEmail(u: User): string { u.email }
  function PrefsUserId(p: Preferences): string { p.userId }
  function SessionId(s: Session): string { s.id }
  function RequestId(v: VerificationRequest): string { v.id }
  function RequestCode(v: VerificationRequest): string { v.code }
  function RequestUserId(v: VerificationRequest): string { v.userId }
}
