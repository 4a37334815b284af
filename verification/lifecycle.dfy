/** Properties that relate several handler calls: what a signup makes
    possible afterwards, and the reset-token lifecycle (no pending reset,
    forgot-password stores a token and its expiry, reset-password checks the
    expiry and clears both). */
module Lifecycle {
  import opened Wrappers
  import opened UserModel
  import opened EmailFormat
  import opened GenerateToken
  import opened AuthController

  /** After a successful signup at `now`, logging in at `later` with the
      new email (or username) and the same password succeeds for the new
      user, provided no earlier user has that string as username (or email):
      the login lookup matches either field. */
  lemma LoginAfterSignup(s: Store, req: SignupRequest, salt: string, now: int, later: int, cfg: Config)
    requires ValidStore(s) && BcryptLaws(cfg.crypto)
    requires SignupSpec(s, req, salt, now, cfg).response.status == 201
    ensures var t := SignupSpec(s, req, salt, now, cfg).store;
      var expected := Response(200, Summary(s.nextId, req.email, req.username),
                               Some(GenerateTokenAndSetCookie(s.nextId, later, cfg)));
      && (!AnyMatch(s.users, ByUsername(req.email)) ==>
            LoginSpec(t, LoginRequest(req.email, req.password), later, cfg) == expected)
      && (!AnyMatch(s.users, ByEmail(req.username)) ==>
            LoginSpec(t, LoginRequest(req.username, req.password), later, cfg) == expected)
  {
    var t := SignupSpec(s, req, salt, now, cfg).store;
    SignupAcceptedIff(s, req, salt, now, cfg);
    SignupPreservesValid(s, req, salt, now, cfg);
    assert req.email != "" by { IsValidEmailMatchesPattern(req.email); }
    assert t.users[s.nextId] == NewUser(req, salt, cfg.crypto);
    assert cfg.crypto.compare(req.password, t.users[s.nextId].password);
    if !AnyMatch(s.users, ByUsername(req.email)) {
      FirstMatchIsNewUser(s, t, ByUsernameOrEmail(req.email));
    }
    if !AnyMatch(s.users, ByEmail(req.username)) {
      FirstMatchIsNewUser(s, t, ByUsernameOrEmail(req.username));
    }
  }

  /** When the only document matching `f` is the one just added under
      `s.nextId`, `findOne(f)` returns it. */
  lemma FirstMatchIsNewUser(s: Store, t: Store, f: Filter)
    requires IdsBelowNext(s) && IdsBelowNext(t)
    requires t.users.Keys == s.users.Keys + {s.nextId}
    requires forall id :: id in s.users ==> t.users[id] == s.users[id] && !Matches(s.users[id], f)
    requires Matches(t.users[s.nextId], f)
    ensures FindOne(t, f) == Some(s.nextId)
  {
    assert s.nextId !in s.users;
    FindOneComplete(t, f);
  }

  /** Once an email is registered, every later signup with it is refused with
      "Email is already taken". */
  lemma SignupTwiceSameEmail(s: Store, req: SignupRequest, salt: string, now: int, cfg: Config,
                             again: SignupRequest, salt2: string, later: int)
    requires IdsBelowNext(s)
    requires SignupSpec(s, req, salt, now, cfg).response.status == 201
    requires again.email == req.email
    ensures SignupSpec(SignupSpec(s, req, salt, now, cfg).store, again, salt2, later, cfg).response
            == Reject(400, EmailAlreadyTaken)
  {
    var t := SignupSpec(s, req, salt, now, cfg).store;
    assert IsValidEmail(req.email);
    assert Matches(t.users[s.nextId], ByEmail(again.email));
    FindOneComplete(t, ByEmail(again.email));
  }

  /** The whole reset flow: a forgot-password request at `issuedAt` for the
      user holding `email`, then a reset with the token it issued and a valid
      new password while the token's `exp` lies ahead, answers 200; afterwards
      that user's password is the hash of the new one and no reset is pending,
      and every other user is as before. */
  lemma ForgotThenResetSucceeds(s: Store, id: UserId, issuedAt: int, req: ResetRequest,
                                now: int, salt: string, cfg: Config)
    requires ValidStore(s) && VerifiesOwnTokens(cfg.crypto)
    requires id in s.users
    requires req.token == GenerateResetToken(id, issuedAt, cfg.crypto).resetToken
    requires req.newPassword == req.repeatNewPassword && |req.newPassword| >= PasswordMinLength
    requires now / 1000 < Exp(issuedAt, ResetTtl)
    ensures var t := ForgotPasswordSpec(s, s.users[id].email, issuedAt, cfg).store;
      var o := ResetPasswordSpec(t, req, now, salt, cfg);
      && o.response == Response(200, MessageBody(PasswordUpdated), None)
      && o.store.users[id].password == cfg.crypto.hash(req.newPassword, salt)
      && o.store.users[id].resetToken.None? && o.store.users[id].resetTokenExpire.None?
      && o.store.users[id].email == s.users[id].email && o.store.users[id].username == s.users[id].username
      && forall other :: other in s.users && other != id ==> o.store.users[other] == s.users[other]
  {
    FindByEmailUnique(s, s.users[id].email, id);
    ResetTokenExpiresFirst(id, issuedAt, now, cfg.crypto);
  }

  /** The stored-expiry guard: a reset more than thirty minutes after the
      request, whose token the verifier still accepts, is refused with 400
      "Link expired" and changes nothing. Under jsonwebtoken's expiry rule no
      forgot-password token gets here (see LinkExpiredUnreachable). */
  lemma ResetAfterWindowExpires(s: Store, id: UserId, issuedAt: int, req: ResetRequest,
                                now: int, salt: string, cfg: Config)
    requires ValidStore(s)
    requires id in s.users
    requires cfg.crypto.verify(req.token, JwtResetSecret, now) == Some(id)
    requires req.newPassword == req.repeatNewPassword && |req.newPassword| >= PasswordMinLength
    requires now > issuedAt + ResetWindow
    ensures var t := ForgotPasswordSpec(s, s.users[id].email, issuedAt, cfg).store;
      ResetPasswordSpec(t, req, now, salt, cfg) == Outcome(Reject(400, LinkExpired), t)
  {
    FindByEmailUnique(s, s.users[id].email, id);
  }

  /** A reset with a forgot-password token and valid new passwords, once the
      token's `exp` has passed, fails at the decoding step: 500 "Invalid or
      expired token", with the store as forgot-password left it. That moment
      comes up to 999 ms before the stored expiry. */
  lemma LateResetFailsAtVerify(s: Store, id: UserId, issuedAt: int, req: ResetRequest,
                               now: int, salt: string, cfg: Config)
    requires VerifiesOwnTokens(cfg.crypto)
    requires id in s.users
    requires req.token == GenerateResetToken(id, issuedAt, cfg.crypto).resetToken
    requires req.newPassword == req.repeatNewPassword && |req.newPassword| >= PasswordMinLength
    requires now / 1000 >= Exp(issuedAt, ResetTtl)
    ensures var t := ForgotPasswordSpec(s, s.users[id].email, issuedAt, cfg).store;
      ResetPasswordSpec(t, req, now, salt, cfg) == Outcome(Reject(500, InvalidOrExpiredToken), t)
  {
    var t := ForgotPasswordSpec(s, s.users[id].email, issuedAt, cfg).store;
    ResetTokenExpiresFirst(id, issuedAt, now, cfg.crypto);
    ResetGuardsInOrder(t, req, now, salt, cfg.crypto, None, None);
  }

  /** A token that forgot-password issued never draws the 400 "Link expired"
      answer: the token's `exp` is never later than the stored expiry, so by
      the time the stored expiry has passed the token no longer verifies. */
  lemma LinkExpiredUnreachable(s: Store, id: UserId, issuedAt: int, req: ResetRequest,
                               now: int, salt: string, cfg: Config)
    requires ValidStore(s) && VerifiesOwnTokens(cfg.crypto)
    requires id in s.users
    requires req.token == GenerateResetToken(id, issuedAt, cfg.crypto).resetToken
    ensures var t := ForgotPasswordSpec(s, s.users[id].email, issuedAt, cfg).store;
      ResetPasswordSpec(t, req, now, salt, cfg).response != Reject(400, LinkExpired)
  {
    var t := ForgotPasswordSpec(s, s.users[id].email, issuedAt, cfg).store;
    FindByEmailUnique(s, s.users[id].email, id);
    ResetTokenExpiresFirst(id, issuedAt, now, cfg.crypto);
    var decoded := cfg.crypto.verify(req.token, JwtResetSecret, now);
    if decoded.Some? {
      assert !ResetExpired(t.users[id], now);
    }
  }

  /** A reset token is not single-use: after a successful reset has cleared
      the stored token and expiry, the same request succeeds again at any
      later time before the token's own `exp`, since the cleared expiry never
      counts as expired and the presented token is never compared with the
      stored one. */
  lemma ResetTokenReplayable(s: Store, id: UserId, issuedAt: int, req: ResetRequest, now: int,
                             salt: string, later: int, salt2: string, cfg: Config)
    requires VerifiesOwnTokens(cfg.crypto)
    requires req.token == GenerateResetToken(id, issuedAt, cfg.crypto).resetToken
    requires ResetPasswordSpec(s, req, now, salt, cfg).response.status == 200
    requires later / 1000 < Exp(issuedAt, ResetTtl)
    ensures ResetPasswordSpec(ResetPasswordSpec(s, req, now, salt, cfg).store, req, later, salt2, cfg)
              .response.status == 200
  {
    var t := ResetPasswordSpec(s, req, now, salt, cfg).store;
    ResetTokenExpiresFirst(id, issuedAt, now, cfg.crypto);
    ResetTokenExpiresFirst(id, issuedAt, later, cfg.crypto);
    assert t.users[id].resetTokenExpire.None?;
  }

  /** What reset-password answers does not depend on the reset token stored
      for the user: any stored token, including one superseded by a later
      request or none at all, leads to the same response. */
  lemma ResetIgnoresStoredToken(s: Store, id: UserId, stored: Option<string>, req: ResetRequest,
                                now: int, salt: string, c: Crypto, decoded: Option<UserId>)
    requires id in s.users
    ensures var s' := s.(users := s.users[id := s.users[id].(resetToken := stored)]);
      ResetOutcome(s', req, now, salt, c, decoded).response == ResetOutcome(s, req, now, salt, c, decoded).response
  {
    var s' := s.(users := s.users[id := s.users[id].(resetToken := stored)]);
    assert forall j :: j in s.users ==> ResetExpired(s'.users[j], now) == ResetExpired(s.users[j], now);
  }

  /** The two secrets keep the tokens apart: a session cookie's token
      presented to reset-password, with matching new passwords of at least
      six characters, gets 500 and changes nothing. */
  lemma SessionTokenCannotResetPassword(s: Store, userId: UserId, signedAt: int, req: ResetRequest,
                                        now: int, salt: string, cfg: Config)
    requires SeparatesSecrets(cfg.crypto)
    requires req.token == GenerateTokenAndSetCookie(userId, signedAt, cfg).value
    requires req.newPassword == req.repeatNewPassword && |req.newPassword| >= PasswordMinLength
    ensures ResetPasswordSpec(s, req, now, salt, cfg) == Outcome(Reject(500, InvalidOrExpiredToken), s)
  {
    SessionCookieIsNoResetToken(userId, signedAt, now, cfg);
  }

  /** As shipped, no password is ever reset: every request is answered 400
      or 500 and leaves the store as it was, and one that passes the password
      checks gets 500 "Invalid or expired token", even straight after a
      forgot-password request for a real user. */
  lemma ShippedResetNeverSucceeds(s: Store, req: ResetRequest, now: int, salt: string, cfg: Config)
    ensures var o := ResetPasswordAsShipped(s, req, now, salt, cfg);
      && (o.response.status == 400 || o.response.status == 500)
      && o.store == s
      && (req.newPassword == req.repeatNewPassword && |req.newPassword| >= PasswordMinLength ==>
            o.response == Reject(500, InvalidOrExpiredToken))
  {
    ResetGuardsInOrder(s, req, now, salt, cfg.crypto, None, None);
  }
}
