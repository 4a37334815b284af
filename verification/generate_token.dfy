/** lib/generateToken.js: the session token and its cookie, and the reset
    token with its stored expiry.

    bcrypt and jsonwebtoken are foreign libraries. They are modelled as
    function values that the server is configured with (`Crypto`); what the
    model needs of them is stated as laws (`BcryptLaws`, `VerifiesOwnTokens`,
    `SeparatesSecrets`) that lemmas take as hypotheses. The secrets themselves
    are named, not valued: which secret signs which token is what matters.
    Times are milliseconds since the epoch, as `Date.now()` returns them. */
module GenerateToken {
  import opened Wrappers
  import opened UserModel

  /** `process.env.JWT_SECRET` and `process.env.JWT_RESET_SECRET`. */
  datatype SecretName = JwtSecret | JwtResetSecret

  /** An `expiresIn` value of jsonwebtoken: "15d" is `Days(15)`, "30m" is
      `Minutes(30)`. */
  datatype Ttl = Days(days: nat) | Minutes(minutes: nat)
  {
    /** The duration in milliseconds. */
    function Millis(): (ms: nat)
    {
      match this
      case Days(n) => n * 24 * 60 * 60 * 1000
      case Minutes(n) => n * 60 * 1000
    }

    /** The duration in whole seconds, the unit of the `exp` claim. */
    function Seconds(): (secs: nat)
      ensures secs * 1000 == Millis()
    {
      match this
      case Days(n) => n * 24 * 60 * 60
      case Minutes(n) => n * 60
    }
  }

  /** `expiresIn: "15d"` of the session token. */
  const SessionTtl := Days(15)
  /** `expiresIn: "30m"` of the reset token. */
  const ResetTtl := Minutes(30)

  /** The foreign primitives, as the server sees them:
      - `hash(password, salt)` is `bcrypt.hash` with a salt from `bcrypt.genSalt(10)`;
      - `compare(password, hash)` is `bcrypt.compare`;
      - `sign(userId, secret, ttl, now)` is `jwt.sign({ userId }, secret, { expiresIn })`
        when the clock reads `now`;
      - `verify(token, secret, now)` is `jwt.verify(token, secret).userId` when
        the clock reads `now`, or `None` when `jwt.verify` throws (bad
        signature, wrong secret, expired, malformed). */
  datatype Crypto = Crypto(
    hash: (string, string) -> string,
    compare: (string, string) -> bool,
    sign: (UserId, SecretName, Ttl, int) -> string,
    verify: (string, SecretName, int) -> Option<UserId>)

  /** Every bcrypt hash is a 60-character string. */
  const BcryptHashLength := 60

  /** bcrypt's contract: a fixed-length hash that `compare` accepts with the
      password it was made from. */
  ghost predicate BcryptLaws(c: Crypto)
  {
    forall pw: string, salt: string ::
      |c.hash(pw, salt)| == BcryptHashLength && c.compare(pw, c.hash(pw, salt))
  }

  /** The `exp` claim of a token signed at `signedAt` with lifetime `ttl`:
      `iat` is the signing time in whole seconds, rounded down, and `exp` is
      `iat` plus the lifetime in seconds. */
  function Exp(signedAt: int, ttl: Ttl): (exp: int)
    ensures exp * 1000 <= signedAt + ttl.Millis() < exp * 1000 + 1000
  {
    signedAt / 1000 + ttl.Seconds()
  }

  /** jsonwebtoken's expiry rule: a token verified with the secret it was
      signed with yields its `userId` exactly while the clock, in whole
      seconds rounded down, is before its `exp`, and fails from then on. */
  ghost predicate VerifiesOwnTokens(c: Crypto)
  {
    forall id: UserId, s: SecretName, ttl: Ttl, signedAt: int, now: int ::
      c.verify(c.sign(id, s, ttl, signedAt), s, now)
        == (if now / 1000 < Exp(signedAt, ttl) then Some(id) else None)
  }

  /** A verifier that rejects a session token presented as a reset token, as
      jsonwebtoken does when JWT_SECRET and JWT_RESET_SECRET have different
      values. */
  ghost predicate SeparatesSecrets(c: Crypto)
  {
    forall id: UserId, ttl: Ttl, signedAt: int, now: int ::
      c.verify(c.sign(id, JwtSecret, ttl, signedAt), JwtResetSecret, now) == None
  }

  /** Process-wide configuration: the primitives, `NODE_ENV` and `PORT`. */
  datatype Config = Config(crypto: Crypto, nodeEnv: string, port: string)

  /** The options object passed to `res.cookie`; an absent option is `None`. */
  datatype CookieOptions = CookieOptions(
    maxAge: int,
    httpOnly: Option<bool>,
    sameSite: Option<string>,
    secure: Option<bool>)

  /** One `res.cookie(name, value, options)` call. */
  datatype Cookie = Cookie(name: string, value: string, options: CookieOptions)

  const SessionCookieName := "jwt"

  /** The cookie's `maxAge`, written in the source as a product of its own. */
  const SessionCookieMaxAge := 15 * 24 * 60 * 60 * 1000

  /** `generateTokenAndSetCookie(userId, res)` at time `now`: signs the
      session token and returns the cookie the function sets on the response.
      The cookie lives exactly as long as the token it carries. */
  function GenerateTokenAndSetCookie(userId: UserId, now: int, cfg: Config): (cookie: Cookie)
    ensures cookie.name == SessionCookieName
    ensures cookie.value == cfg.crypto.sign(userId, JwtSecret, SessionTtl, now)
    ensures cookie.options.maxAge == SessionTtl.Millis() == 1_296_000_000
    ensures cookie.options.httpOnly == Some(true) && cookie.options.sameSite == Some("strict")
    ensures cookie.options.secure == Some(true) <==> cfg.nodeEnv != "development"
    ensures cookie.options.secure.Some?
  {
    var token := cfg.crypto.sign(userId, JwtSecret, SessionTtl, now);
    Cookie(SessionCookieName, token,
      CookieOptions(SessionCookieMaxAge, Some(true), Some("strict"), Some(cfg.nodeEnv != "development")))
  }

  /** What `generateResetToken` returns: the token and the moment, in
      milliseconds, the stored copy stops being accepted. */
  datatype ResetGrant = ResetGrant(resetToken: string, resetTokenExpire: int)

  /** The stored expiry's offset from now, written in the source apart from
      the token's `expiresIn`. */
  const ResetWindow := 30 * 60 * 1000

  /** `generateResetToken(userId)` at time `now` (`Date.now()`, read once for
      both the signature and the expiry): a token signed with the reset
      secret, not the session secret, and an expiry that lies in the future by
      exactly the token's own lifetime. It touches neither the store nor the
      response. */
  function GenerateResetToken(userId: UserId, now: int, c: Crypto): (g: ResetGrant)
    ensures g.resetToken == c.sign(userId, JwtResetSecret, ResetTtl, now)
    ensures g.resetTokenExpire - now == ResetTtl.Millis() == 1_800_000
    ensures g.resetTokenExpire > now
  {
    var resetToken := c.sign(userId, JwtResetSecret, ResetTtl, now);
    ResetGrant(resetToken, now + ResetWindow)
  }

  /** The reset token stops verifying no later than the stored expiry passes,
      and at most 999 ms before it: `exp` counts whole seconds from the signing
      time rounded down, while the stored expiry keeps the milliseconds. */
  lemma ResetTokenExpiresFirst(userId: UserId, issuedAt: int, now: int, c: Crypto)
    requires VerifiesOwnTokens(c)
    ensures var g := GenerateResetToken(userId, issuedAt, c);
      && (c.verify(g.resetToken, JwtResetSecret, now) == Some(userId) <==> now / 1000 < Exp(issuedAt, ResetTtl))
      && (c.verify(g.resetToken, JwtResetSecret, now).Some? ==> now < g.resetTokenExpire)
      && (c.verify(g.resetToken, JwtResetSecret, now).None? ==> now > g.resetTokenExpire - 1000)
  {
    var g := GenerateResetToken(userId, issuedAt, c);
    var exp := Exp(issuedAt, ResetTtl);
    if now / 1000 < exp {
      assert now < (now / 1000 + 1) * 1000 <= exp * 1000;
    } else {
      assert now >= now / 1000 * 1000 >= exp * 1000;
    }
  }

  /** Under a verifier that keeps the secrets apart, no session cookie ever
      verifies as a reset token. */
  lemma SessionCookieIsNoResetToken(userId: UserId, signedAt: int, now: int, cfg: Config)
    requires SeparatesSecrets(cfg.crypto)
    ensures cfg.crypto.verify(GenerateTokenAndSetCookie(userId, signedAt, cfg).value, JwtResetSecret, now) == None
  {
  }
}
