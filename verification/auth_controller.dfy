/** controllers/auth.controller.js: the signup, login, logout, forgot-password
    and reset-password handlers.

    Each handler is given twice: as a function from the store and the request
    to the response and the new store (`SignupSpec`, ...), about which the
    lemmas are proved, and as a method of `Controller`, the object that holds
    the user collection, which performs the same guards with early returns and
    updates the collection in place. Clocks and random salts are parameters;
    the response is a value holding the status, the JSON body and the cookie
    the handler set, if any. */
module AuthController {
  import opened Wrappers
  import opened UserModel
  import opened EmailFormat
  import opened GenerateToken

  /** The JSON bodies the handlers send. A user summary carries the id, email
      and username, never the password. */
  datatype Body =
    | ErrorBody(error: string)
    | Summary(id: UserId, email: string, username: string)
    | MessageBody(message: string)
    | LinkBody(message: string, link: string)

  /** `res.status(status).json(body)`, after at most one `res.cookie(...)`. */
  datatype Response = Response(status: int, body: Body, cookie: Option<Cookie>)

  /** A response together with the store the handler leaves behind. */
  datatype Outcome = Outcome(response: Response, store: Store)

  datatype SignupRequest = SignupRequest(email: string, username: string, password: string, repeatPassword: string)
  datatype LoginRequest = LoginRequest(usernameOrEmail: string, password: string)
  /** `req.params.token` and the body of the reset request. */
  datatype ResetRequest = ResetRequest(token: string, newPassword: string, repeatNewPassword: string)

  const InvalidEmailFormat := "Invalid email format"
  const EmailAlreadyTaken := "Email is already taken"
  const UsernameAlreadyTaken := "Username is already taken"
  const PasswordsNotMatching := "Passwords are not matching"
  const PasswordTooShort := "Password must be at least 6 characters long"
  const FillOutAllFields := "Please fill out all the fields as soon as possible you mf!"
  const FillOutRequiredFields := "Please fill out all the fields required"
  const NoSuchUsernameOrEmail := "There is no such username or email!"
  const InvalidCredentials := "Invalid credentials"
  const LoggedOut := "Logged out successfully"
  const NoSuchEmail := "There is no such email"
  const ResetInstructionsSent := "Reset instructions have been sent to your email"
  const NewPasswordNotMatching := "Password not matching!"
  const NewPasswordTooShort := "Password must be at least 6 characters"
  const InvalidOrExpiredToken := "Invalid or expired token"
  const LinkExpired := "Link expired! Please request a new link"
  const NoSuchUser := "No such user found"
  const PasswordUpdated := "Password has been updated successfully"

  /** An error answer: the status, `{ error }` as the body, no cookie. */
  function Reject(status: int, error: string): (r: Response)
  {
    Response(status, ErrorBody(error), None)
  }

  // ---------------------------------------------------------------- signup

  /** The document `new User({ username, email, password: hash })` builds.
      The record keeps the submitted email and username, stores a hash that
      bcrypt's `compare` accepts with the submitted password, and has no
      pending reset. */
  function NewUser(req: SignupRequest, salt: string, c: Crypto): (u: User)
    ensures u.email == req.email && u.username == req.username
    ensures u.resetToken.None? && u.resetTokenExpire.None?
    ensures BcryptLaws(c) ==>
      |u.password| == BcryptHashLength && c.compare(req.password, u.password)
  {
    User(req.email, req.username, c.hash(req.password, salt), None, None)
  }

  /** What a signup request must satisfy to be accepted, stated without the
      handler's lookups: the email matches the pattern, neither the email nor
      the username is in use, the passwords agree and are at least six
      characters long, and the username is not empty. */
  ghost predicate SignupAcceptable(s: Store, req: SignupRequest)
  {
    && MatchesEmailPattern(req.email)
    && !AnyMatch(s.users, ByEmail(req.email))
    && !AnyMatch(s.users, ByUsername(req.username))
    && req.password == req.repeatPassword
    && |req.password| >= PasswordMinLength
    && req.username != ""
  }

  /** `signup`: 400 with the message of the first failing check, the store
      untouched and no cookie; or 201 with the new user's summary, the session
      cookie for the new id, and exactly that user added. */
  function SignupSpec(s: Store, req: SignupRequest, salt: string, now: int, cfg: Config): (o: Outcome)
    ensures o.response.status == 201 || o.response.status == 400
    ensures o.response.status == 400 ==> o.store == s && o.response.cookie.None? && o.response.body.ErrorBody?
    ensures o.response.status == 201 ==>
      && o.store == Store(s.users[s.nextId := NewUser(req, salt, cfg.crypto)], s.nextId + 1)
      && o.response.body == Summary(s.nextId, req.email, req.username)
      && o.response.cookie == Some(GenerateTokenAndSetCookie(s.nextId, now, cfg))
  {
    if !IsValidEmail(req.email) then Outcome(Reject(400, InvalidEmailFormat), s)
    else if FindOne(s, ByEmail(req.email)).Some? then Outcome(Reject(400, EmailAlreadyTaken), s)
    else if FindOne(s, ByUsername(req.username)).Some? then Outcome(Reject(400, UsernameAlreadyTaken), s)
    else if req.password != req.repeatPassword then Outcome(Reject(400, PasswordsNotMatching), s)
    else if |req.password| < PasswordMinLength then Outcome(Reject(400, PasswordTooShort), s)
    else if req.email == "" || req.username == "" || req.password == "" then Outcome(Reject(400, FillOutAllFields), s)
    else
      var id := s.nextId;
      var cookie := GenerateTokenAndSetCookie(id, now, cfg);
      Outcome(Response(201, Summary(id, req.email, req.username), Some(cookie)),
              Store(s.users[id := NewUser(req, salt, cfg.crypto)], id + 1))
  }

  /** Signup succeeds exactly when the request is acceptable. */
  lemma SignupAcceptedIff(s: Store, req: SignupRequest, salt: string, now: int, cfg: Config)
    requires IdsBelowNext(s)
    ensures SignupSpec(s, req, salt, now, cfg).response.status == 201 <==> SignupAcceptable(s, req)
  {
    IsValidEmailMatchesPattern(req.email);
    FindOneComplete(s, ByEmail(req.email));
    FindOneComplete(s, ByUsername(req.username));
  }

  /** The checks run in source order and the first failing one decides the
      message. The emptiness check can only ever fail on the username: an
      email that matches the pattern and a password of six or more characters
      are never empty. */
  lemma SignupChecksInOrder(s: Store, req: SignupRequest, salt: string, now: int, cfg: Config)
    requires IdsBelowNext(s)
    ensures var body := SignupSpec(s, req, salt, now, cfg).response.body;
      && (!MatchesEmailPattern(req.email) ==> body == ErrorBody(InvalidEmailFormat))
      && (MatchesEmailPattern(req.email) && AnyMatch(s.users, ByEmail(req.email)) ==>
            body == ErrorBody(EmailAlreadyTaken))
      && ((MatchesEmailPattern(req.email) && !AnyMatch(s.users, ByEmail(req.email))
           && AnyMatch(s.users, ByUsername(req.username))) ==>
            body == ErrorBody(UsernameAlreadyTaken))
      && ((MatchesEmailPattern(req.email) && !AnyMatch(s.users, ByEmail(req.email))
           && !AnyMatch(s.users, ByUsername(req.username)) && req.password != req.repeatPassword) ==>
            body == ErrorBody(PasswordsNotMatching))
      && ((MatchesEmailPattern(req.email) && !AnyMatch(s.users, ByEmail(req.email))
           && !AnyMatch(s.users, ByUsername(req.username)) && req.password == req.repeatPassword
           && |req.password| < PasswordMinLength) ==>
            body == ErrorBody(PasswordTooShort))
      && (body == ErrorBody(FillOutAllFields) <==>
            MatchesEmailPattern(req.email) && !AnyMatch(s.users, ByEmail(req.email))
            && !AnyMatch(s.users, ByUsername(req.username)) && req.password == req.repeatPassword
            && |req.password| >= PasswordMinLength && req.username == "")
  {
    IsValidEmailMatchesPattern(req.email);
    FindOneComplete(s, ByEmail(req.email));
    FindOneComplete(s, ByUsername(req.username));
  }

  /** A successful signup adds exactly one user, under a fresh id, whose
      stored password is the hash of the submitted one and who has no pending
      reset; every other user is left as it was. */
  lemma SignupAddsOneUser(s: Store, req: SignupRequest, salt: string, now: int, cfg: Config)
    requires IdsBelowNext(s)
    requires SignupSpec(s, req, salt, now, cfg).response.status == 201
    ensures var t := SignupSpec(s, req, salt, now, cfg).store;
      && s.nextId !in s.users
      && t.users.Keys == s.users.Keys + {s.nextId}
      && |t.users| == |s.users| + 1
      && t.users[s.nextId].password == cfg.crypto.hash(req.password, salt)
      && t.users[s.nextId].resetToken.None? && t.users[s.nextId].resetTokenExpire.None?
      && forall id :: id in s.users ==> t.users[id] == s.users[id]
  {
    var t := SignupSpec(s, req, salt, now, cfg).store;
    assert s.nextId !in s.users;
    assert t.users.Keys == s.users.Keys + {s.nextId};
    assert |t.users.Keys| == |s.users.Keys| + 1;
  }

  /** Signup keeps the store invariant: the new user passes every check the
      schema and the unique indexes impose. */
  lemma SignupPreservesValid(s: Store, req: SignupRequest, salt: string, now: int, cfg: Config)
    requires ValidStore(s) && BcryptLaws(cfg.crypto)
    ensures ValidStore(SignupSpec(s, req, salt, now, cfg).store)
  {
    var o := SignupSpec(s, req, salt, now, cfg);
    if o.response.status == 201 {
      SignupAcceptedIff(s, req, salt, now, cfg);
      var u := NewUser(req, salt, cfg.crypto);
      assert |u.password| == BcryptHashLength;
      assert u.email != "" by { IsValidEmailMatchesPattern(req.email); }
      assert forall id :: id in s.users ==> s.users[id].email != u.email;
      assert forall id :: id in s.users ==> s.users[id].username != u.username;
    }
  }

  // ----------------------------------------------------------------- login

  /** `login`: 400 when a field is empty or nobody is found, 401 when the
      password does not match the hash of the user found; otherwise 200 with
      that user's summary and the session cookie for that user. Only the 200
      response sets a cookie. */
  function LoginSpec(s: Store, req: LoginRequest, now: int, cfg: Config): (r: Response)
    ensures r.status == 200 || r.status == 400 || r.status == 401
    ensures r.status != 200 ==> r.cookie.None? && r.body.ErrorBody?
    ensures (req.usernameOrEmail == "" || req.password == "") ==> r == Reject(400, FillOutRequiredFields)
    ensures r.status == 200 ==>
      && r.body.Summary? && r.body.id in s.users
      && Matches(s.users[r.body.id], ByUsernameOrEmail(req.usernameOrEmail))
      && cfg.crypto.compare(req.password, s.users[r.body.id].password)
      && r.body.email == s.users[r.body.id].email && r.body.username == s.users[r.body.id].username
      && r.cookie == Some(GenerateTokenAndSetCookie(r.body.id, now, cfg))
  {
    if req.usernameOrEmail == "" || req.password == "" then Reject(400, FillOutRequiredFields)
    else
      match FindOne(s, ByUsernameOrEmail(req.usernameOrEmail))
      case None => Reject(400, NoSuchUsernameOrEmail)
      case Some(id) =>
        var user := s.users[id];
        if !cfg.crypto.compare(req.password, user.password) then Reject(401, InvalidCredentials)
        else Response(200, Summary(id, user.email, user.username), Some(GenerateTokenAndSetCookie(id, now, cfg)))
  }

  /** With both fields filled in, login answers 400 exactly when nobody has
      the identifier as username or email, and otherwise judges the password
      against the first such user (in insertion order): 200 if it matches,
      401 if not. */
  lemma LoginDecidedByFirstMatch(s: Store, req: LoginRequest, now: int, cfg: Config)
    requires IdsBelowNext(s)
    requires req.usernameOrEmail != "" && req.password != ""
    ensures var r := LoginSpec(s, req, now, cfg);
      && (r.status == 400 <==> !AnyMatch(s.users, ByUsernameOrEmail(req.usernameOrEmail)))
      && (r.status == 400 ==> r.body == ErrorBody(NoSuchUsernameOrEmail))
      && (r.status != 400 ==>
            exists id :: id in s.users && Matches(s.users[id], ByUsernameOrEmail(req.usernameOrEmail))
              && (forall j :: j in s.users && j < id ==> !Matches(s.users[j], ByUsernameOrEmail(req.usernameOrEmail)))
              && (r.status == 200 <==> cfg.crypto.compare(req.password, s.users[id].password)))
  {
    FindOneComplete(s, ByUsernameOrEmail(req.usernameOrEmail));
  }

  /** When an earlier user's username equals a later user's email, logging in
      with that string can only ever reach the earlier user: the later user
      cannot log in by email. */
  lemma LoginShadowedByEarlierUsername(s: Store, a: UserId, b: UserId, pw: string, now: int, cfg: Config)
    requires a in s.users && b in s.users && a < b
    requires s.users[a].username == s.users[b].email
    ensures var r := LoginSpec(s, LoginRequest(s.users[b].email, pw), now, cfg);
      r.status == 200 ==> r.body.id != b
  {
    var x := s.users[b].email;
    var found := FindOne(s, ByUsernameOrEmail(x));
    assert Matches(s.users[a], ByUsernameOrEmail(x));
    assert found.Some? ==> found.value <= a;
  }

  // ---------------------------------------------------------------- logout

  /** The `res.cookie("jwt", "", { maxAge: 0 })` of logout: it overwrites the
      session cookie with an empty one that expires at once. */
  function ClearedSessionCookie(): (c: Cookie)
    ensures forall id: UserId, now: int, cfg: Config :: c.name == GenerateTokenAndSetCookie(id, now, cfg).name
    ensures c.value == "" && c.options.maxAge == 0
  {
    Cookie(SessionCookieName, "", CookieOptions(0, None, None, None))
  }

  /** `logout`: always 200 with the cookie cleared; it reads and writes
      nothing else, so a second logout answers exactly like the first. */
  function LogoutSpec(s: Store): (o: Outcome)
    ensures o.store == s
    ensures o.response.status == 200 && o.response.cookie == Some(ClearedSessionCookie())
  {
    Outcome(Response(200, MessageBody(LoggedOut), Some(ClearedSessionCookie())), s)
  }

  /** Logging out twice is the same as logging out once. */
  lemma LogoutIdempotent(s: Store)
    ensures LogoutSpec(LogoutSpec(s).store) == LogoutSpec(s)
  {
  }

  // ------------------------------------------------------- forgot password

  /** The link returned in the body: `http://localhost:${PORT}/reset-password/${resetToken}`. */
  function ResetLink(port: string, resetToken: string): (link: string)
    ensures |link| >= |resetToken| && link[|link| - |resetToken|..] == resetToken
  {
    var link := "http://localhost:" + port + "/reset-password/" + resetToken;
    assert link[|link| - |resetToken|..] == resetToken;
    link
  }

  /** The user record after `findByIdAndUpdate(userId, { resetToken, resetTokenExpire })`.
      Both reset fields are set together from the grant; the email,
      username and password are kept. */
  function WithReset(u: User, g: ResetGrant): (r: User)
    ensures ResetFieldsPaired(r)
    ensures r.resetToken == Some(g.resetToken) && r.resetTokenExpire == Some(g.resetTokenExpire)
    ensures r.email == u.email && r.username == u.username && r.password == u.password
  {
    u.(resetToken := Some(g.resetToken), resetTokenExpire := Some(g.resetTokenExpire))
  }

  /** `forgotPassword` at time `now`: 404 with the store untouched when no
      user has the email; otherwise 200 with a link ending in a fresh reset
      token, and only the found user's reset fields overwritten. */
  function ForgotPasswordSpec(s: Store, email: string, now: int, cfg: Config): (o: Outcome)
    ensures o.response.status == 200 || o.response.status == 404
    ensures o.response.cookie.None?
    ensures o.response.status == 404 <==> FindOne(s, ByEmail(email)).None?
    ensures o.response.status == 404 ==> o.store == s && o.response.body == ErrorBody(NoSuchEmail)
    ensures o.response.status == 200 ==>
      var id := FindOne(s, ByEmail(email)).value;
      var g := GenerateResetToken(id, now, cfg.crypto);
      && o.store == s.(users := s.users[id := WithReset(s.users[id], g)])
      && o.response.body == LinkBody(ResetInstructionsSent, ResetLink(cfg.port, g.resetToken))
  {
    match FindOne(s, ByEmail(email))
    case None => Outcome(Reject(404, NoSuchEmail), s)
    case Some(id) =>
      var g := GenerateResetToken(id, now, cfg.crypto);
      Outcome(Response(200, LinkBody(ResetInstructionsSent, ResetLink(cfg.port, g.resetToken)), None),
              s.(users := s.users[id := WithReset(s.users[id], g)]))
  }

  /** For the user holding the email, forgot-password stores a token signed
      with the reset secret and an expiry thirty minutes ahead, changes no
      other field of that user and nothing of any other user, and returns a
      link ending in that token. An email nobody has gets 404. */
  lemma ForgotPasswordEffect(s: Store, email: string, now: int, cfg: Config)
    requires IdsBelowNext(s) && UniqueEmails(s.users)
    ensures var o := ForgotPasswordSpec(s, email, now, cfg);
      && (!AnyMatch(s.users, ByEmail(email)) ==> o.response.status == 404 && o.store == s)
      && forall id :: id in s.users && s.users[id].email == email ==>
           var token := cfg.crypto.sign(id, JwtResetSecret, ResetTtl, now);
           && o.response.status == 200
           && o.store.nextId == s.nextId && o.store.users.Keys == s.users.Keys
           && o.store.users[id].resetToken == Some(token)
           && o.store.users[id].resetTokenExpire == Some(now + 1_800_000)
           && o.store.users[id].(resetToken := s.users[id].resetToken,
                                 resetTokenExpire := s.users[id].resetTokenExpire) == s.users[id]
           && (forall other :: other in s.users && other != id ==> o.store.users[other] == s.users[other])
           && o.response.body.LinkBody?
           && o.response.body.link[|o.response.body.link| - |token|..] == token
  {
    FindOneComplete(s, ByEmail(email));
    forall id | id in s.users && s.users[id].email == email
      ensures FindOne(s, ByEmail(email)) == Some(id)
    {
      FindByEmailUnique(s, email, id);
    }
  }

  /** Forgot-password keeps the store invariant. */
  lemma ForgotPasswordPreservesValid(s: Store, email: string, now: int, cfg: Config)
    requires ValidStore(s)
    ensures ValidStore(ForgotPasswordSpec(s, email, now, cfg).store)
  {
    var o := ForgotPasswordSpec(s, email, now, cfg);
    if o.response.status == 200 {
      var id := FindOne(s, ByEmail(email)).value;
      assert forall j :: j in o.store.users ==> o.store.users[j].email == s.users[j].email;
      assert forall j :: j in o.store.users ==> o.store.users[j].username == s.users[j].username;
    }
  }

  // -------------------------------------------------------- reset password

  /** The expiry check of reset-password: `resetTokenExpire < Date.now()`.
      A user without a stored expiry compares `undefined < now`, which is
      false, so such a user never counts as expired. */
  predicate ResetExpired(u: User, now: int)
  {
    match u.resetTokenExpire
    case Some(e) => e < now
    case None => false
  }

  /** The user record after `findByIdAndUpdate(userId, { password, resetToken:
      undefined, resetTokenExpire: undefined })`.
      Both reset fields are cleared together, so no reset is pending; the
      email and username are kept and the password is the new hash. */
  function Redeemed(u: User, hashed: string): (r: User)
    ensures ResetFieldsPaired(r) && r.resetToken.None?
    ensures r.email == u.email && r.username == u.username && r.password == hashed
  {
    u.(password := hashed, resetToken := None, resetTokenExpire := None)
  }

  /** The reset-password handler once the token at line 187 has been decoded
      to `decoded` (`None` when that line throws). The presented token is not
      compared with the stored one: that check is commented out in the source. */
  function ResetOutcome(s: Store, req: ResetRequest, now: int, salt: string, c: Crypto,
                        decoded: Option<UserId>): (o: Outcome)
    ensures o.response.cookie.None?
    ensures o.response.status in {200, 400, 404, 500}
    ensures o.response.status != 200 ==> o.store == s && o.response.body.ErrorBody?
    ensures decoded.None? && o.response.status != 400 ==> o.response == Reject(500, InvalidOrExpiredToken)
    ensures o.response.status == 200 ==>
      && decoded.Some? && decoded.value in s.users && !ResetExpired(s.users[decoded.value], now)
      && req.newPassword == req.repeatNewPassword && |req.newPassword| >= PasswordMinLength
      && o.store == s.(users := s.users[decoded.value := Redeemed(s.users[decoded.value], c.hash(req.newPassword, salt))])
  {
    if req.newPassword != req.repeatNewPassword then Outcome(Reject(400, NewPasswordNotMatching), s)
    else if |req.newPassword| < PasswordMinLength then Outcome(Reject(400, NewPasswordTooShort), s)
    else
      match decoded
      case None => Outcome(Reject(500, InvalidOrExpiredToken), s)
      case Some(id) =>
        if id !in s.users then Outcome(Reject(404, NoSuchUser), s)
        else if ResetExpired(s.users[id], now) then Outcome(Reject(400, LinkExpired), s)
        else Outcome(Response(200, MessageBody(PasswordUpdated), None),
                     s.(users := s.users[id := Redeemed(s.users[id], c.hash(req.newPassword, salt))]))
  }

  /** `resetPassword` at time `now`, with the token verified against the
      reset secret at that time. The handler reads the clock twice (in
      `jwt.verify` and for the expiry check); both reads are `now`. */
  function ResetPasswordSpec(s: Store, req: ResetRequest, now: int, salt: string, cfg: Config): (o: Outcome)
    ensures o.response.status == 200 ==>
      && cfg.crypto.verify(req.token, JwtResetSecret, now).Some?
      && cfg.crypto.verify(req.token, JwtResetSecret, now).value in o.store.users
      && o.store.users[cfg.crypto.verify(req.token, JwtResetSecret, now).value].password
         == cfg.crypto.hash(req.newPassword, salt)
  {
    ResetOutcome(s, req, now, salt, cfg.crypto, cfg.crypto.verify(req.token, JwtResetSecret, now))
  }

  /** The reset-password handler as shipped: `jwt` is never imported by the
      controller, so `jwt.verify` at line 187 throws a ReferenceError, and the
      catch block answers 500. Past the password checks, that is the only
      path. */
  function ResetPasswordAsShipped(s: Store, req: ResetRequest, now: int, salt: string, cfg: Config): (o: Outcome)
    ensures o.store == s
  {
    ResetOutcome(s, req, now, salt, cfg.crypto, None)
  }

  /** The password checks come before any decoding: a mismatched or short
      new password gets 400 whatever the token decodes to. Past them, a token
      that does not decode gets 500, an unknown user 404, and a stored expiry
      before `now` 400 with the store unchanged. */
  lemma ResetGuardsInOrder(s: Store, req: ResetRequest, now: int, salt: string, c: Crypto,
                           d1: Option<UserId>, d2: Option<UserId>)
    ensures req.newPassword != req.repeatNewPassword ==>
      ResetOutcome(s, req, now, salt, c, d1).response == Reject(400, NewPasswordNotMatching)
    ensures req.newPassword == req.repeatNewPassword && |req.newPassword| < PasswordMinLength ==>
      ResetOutcome(s, req, now, salt, c, d1).response == Reject(400, NewPasswordTooShort)
    ensures (req.newPassword != req.repeatNewPassword || |req.newPassword| < PasswordMinLength) ==>
      ResetOutcome(s, req, now, salt, c, d1) == ResetOutcome(s, req, now, salt, c, d2)
    ensures req.newPassword == req.repeatNewPassword && |req.newPassword| >= PasswordMinLength ==>
      && (d1.None? ==> ResetOutcome(s, req, now, salt, c, d1).response == Reject(500, InvalidOrExpiredToken))
      && (d1.Some? && d1.value !in s.users ==>
            ResetOutcome(s, req, now, salt, c, d1).response == Reject(404, NoSuchUser))
      && (d1.Some? && d1.value in s.users && ResetExpired(s.users[d1.value], now) ==>
            ResetOutcome(s, req, now, salt, c, d1) == Outcome(Reject(400, LinkExpired), s))
      && (d1.Some? && d1.value in s.users && !ResetExpired(s.users[d1.value], now) ==>
            ResetOutcome(s, req, now, salt, c, d1).response.status == 200)
  {
  }

  /** Reset-password keeps the store invariant: the new hash is long enough
      and the reset fields are cleared together. */
  lemma ResetPreservesValid(s: Store, req: ResetRequest, now: int, salt: string, c: Crypto, decoded: Option<UserId>)
    requires ValidStore(s) && BcryptLaws(c)
    ensures ValidStore(ResetOutcome(s, req, now, salt, c, decoded).store)
  {
    var o := ResetOutcome(s, req, now, salt, c, decoded);
    if o.response.status == 200 {
      var id := decoded.value;
      assert |c.hash(req.newPassword, salt)| == BcryptHashLength;
      assert forall j :: j in o.store.users ==> o.store.users[j].email == s.users[j].email;
      assert forall j :: j in o.store.users ==> o.store.users[j].username == s.users[j].username;
    }
  }

  // ------------------------------------------------------------ controller

  /** The handlers over one user collection, updated in place. */
  class Controller {
    var users: map<UserId, User>
    var nextId: UserId
    const config: Config

    /** The users and the id counter as one store value. */
    function State(): (s: Store)
      reads this
    {
      Store(users, nextId)
    }

    ghost predicate Valid()
      reads this
    {
      ValidStore(State()) && BcryptLaws(config.crypto)
    }

    /** An empty collection. */
    constructor (config: Config)
      requires BcryptLaws(config.crypto)
      ensures Valid() && this.config == config
      ensures users == map[] && nextId == 0
    {
      this.config := config;
      users := map[];
      nextId := 0;
    }

    method Signup(req: SignupRequest, salt: string, now: int) returns (r: Response)
      requires Valid()
      modifies this
      ensures Valid()
      ensures Outcome(r, State()) == SignupSpec(old(State()), req, salt, now, config)
    {
      SignupPreservesValid(State(), req, salt, now, config);
      if !IsValidEmail(req.email) {
        return Reject(400, InvalidEmailFormat);
      }
      var isEmailExisting := FindOne(State(), ByEmail(req.email));
      if isEmailExisting.Some? {
        return Reject(400, EmailAlreadyTaken);
      }
      var isUsernameExisting := FindOne(State(), ByUsername(req.username));
      if isUsernameExisting.Some? {
        return Reject(400, UsernameAlreadyTaken);
      }
      if req.password != req.repeatPassword {
        return Reject(400, PasswordsNotMatching);
      }
      if |req.password| < PasswordMinLength {
        return Reject(400, PasswordTooShort);
      }
      if req.email == "" || req.username == "" || req.password == "" {
        return Reject(400, FillOutAllFields);
      }
      var id := nextId;
      var newUser := NewUser(req, salt, config.crypto);
      var cookie := GenerateTokenAndSetCookie(id, now, config);
      users := users[id := newUser];
      nextId := nextId + 1;
      r := Response(201, Summary(id, newUser.email, newUser.username), Some(cookie));
    }

    method Login(req: LoginRequest, now: int) returns (r: Response)
      ensures r == LoginSpec(State(), req, now, config)
    {
      if req.usernameOrEmail == "" || req.password == "" {
        return Reject(400, FillOutRequiredFields);
      }
      var found := FindOne(State(), ByUsernameOrEmail(req.usernameOrEmail));
      if found.None? {
        return Reject(400, NoSuchUsernameOrEmail);
      }
      var user := users[found.value];
      var isPasswordCorrect := config.crypto.compare(req.password, user.password);
      if !isPasswordCorrect {
        return Reject(401, InvalidCredentials);
      }
      var cookie := GenerateTokenAndSetCookie(found.value, now, config);
      r := Response(200, Summary(found.value, user.email, user.username), Some(cookie));
    }

    method Logout() returns (r: Response)
      ensures Outcome(r, State()) == LogoutSpec(State())
    {
      r := Response(200, MessageBody(LoggedOut), Some(ClearedSessionCookie()));
    }

    method ForgotPassword(email: string, now: int) returns (r: Response)
      requires Valid()
      modifies this
      ensures Valid()
      ensures Outcome(r, State()) == ForgotPasswordSpec(old(State()), email, now, config)
    {
      ForgotPasswordPreservesValid(State(), email, now, config);
      var emailExists := FindOne(State(), ByEmail(email));
      if emailExists.None? {
        return Reject(404, NoSuchEmail);
      }
      var userId := emailExists.value;
      var grant := GenerateResetToken(userId, now, config.crypto);
      users := users[userId := WithReset(users[userId], grant)];
      var resetLink := ResetLink(config.port, grant.resetToken);
      r := Response(200, LinkBody(ResetInstructionsSent, resetLink), None);
    }

    method ResetPassword(req: ResetRequest, now: int, salt: string) returns (r: Response)
      requires Valid()
      modifies this
      ensures Valid()
      ensures Outcome(r, State()) == ResetPasswordSpec(old(State()), req, now, salt, config)
    {
      ResetPreservesValid(State(), req, now, salt, config.crypto, config.crypto.verify(req.token, JwtResetSecret, now));
      if req.newPassword != req.repeatNewPassword {
        return Reject(400, NewPasswordNotMatching);
      }
      if |req.newPassword| < PasswordMinLength {
        return Reject(400, NewPasswordTooShort);
      }
      // As shipped this call is a ReferenceError (see ResetPasswordAsShipped).
      var decoded := config.crypto.verify(req.token, JwtResetSecret, now);
      if decoded.None? {
        return Reject(500, InvalidOrExpiredToken);
      }
      var userId := decoded.value;
      if userId !in users {
        return Reject(404, NoSuchUser);
      }
      var user := users[userId];
      if ResetExpired(user, now) {
        return Reject(400, LinkExpired);
      }
      var hashed := config.crypto.hash(req.newPassword, salt);
      users := users[userId := Redeemed(user, hashed)];
      r := Response(200, MessageBody(PasswordUpdated), None);
    }
  }
}
