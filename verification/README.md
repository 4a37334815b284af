# Authentication decision logic of jwt-auth-test, in Dafny

This project models the authentication core of a small Express/Mongoose
backend. It covers the five request handlers of
`controllers/auth.controller.js`: `signup`, `login`, `logout`,
`forgotPassword` and `resetPassword`. It also covers the token and cookie
parameters of `lib/generateToken.js` and the `User` schema of
`models/user.model.js`, stated as a store invariant.

Layout:

- `wrappers.dfy`: the `Option` type.
- `user_model.dfy`: the `User` record and the `Store` (a map from id to
  record, plus the id counter). It holds the schema constraints and the two
  unique indexes (`ValidStore`) and the `findOne` query (`FindOne`).
- `email_format.dfy`: the signup email regular expression
  `^[^\s@]+@[^\s@]+\.[^\s@]+$`. It is stated both as the set of strings the
  pattern matches and as a check the handler runs. A lemma proves the two
  agree on every string.
- `generate_token.dfy`: the session token and its `jwt` cookie, and the reset
  token with its stored expiry. bcrypt and jsonwebtoken are function values
  held in the configuration (`Crypto`). What the model needs of them is
  stated as laws, and the lemmas take those laws as hypotheses.
- `auth_controller.dfy`: each handler appears twice. One form is a pure
  function from the store and the request to the response and the new store
  (`SignupSpec`, ...). The other is a method of the class `Controller`, which
  holds the user map and updates it in place. Each method is proved to agree
  with its function and to keep the store invariant.
- `lifecycle.dfy`: properties that span several calls. These include login
  after signup and the reset-token lifecycle: no pending reset, then
  `forgotPassword` stores a token and expiry, then `resetPassword` checks the
  expiry and clears both.

Modelling choices:

- When several documents match, MongoDB does not promise which one `findOne`
  returns. The model assumes the first in insertion order. Ids come from a
  counter, so this is the matching document with the smallest id. Among the
  login lemmas, only `AuthController.LoginDecidedByFirstMatch` depends on this
  assumption. `AuthController.LoginShadowedByEarlierUsername` also holds if
  the username match is preferred. `Lifecycle.LoginAfterSignup` concerns a
  single match and holds under any order.
- The clock (`Date.now()`) and the bcrypt salt (`bcrypt.genSalt(10)`) are
  parameters of the handlers. `process.env` is a `Config` value: the
  primitives, `NODE_ENV` and `PORT`. Secrets are named (`JwtSecret`,
  `JwtResetSecret`), not valued.
- `jwt.sign` and `jwt.verify` take the clock reading. jsonwebtoken's expiry
  rule is the law `GenerateToken.VerifiesOwnTokens`: a token signed at `t0`
  carries `exp` = `t0` in whole seconds, rounded down, plus its lifetime in
  seconds, and verifies under its own secret exactly while the clock, in
  whole seconds rounded down, is before `exp`.
- Within one handler call, every clock read gives the same value: the two
  reads of `generateResetToken` (inside `jwt.sign` and at line 23) and the
  two of `resetPassword` (inside `jwt.verify` and at the expiry check).
- A response is a value: the status, the JSON body, and the cookie the
  handler set, if it set one. `generateTokenAndSetCookie` returns the cookie
  it sets.
- `resetPassword` reads `resetTokenExpire < Date.now()` as written. When no
  expiry is stored, `undefined < now` is false, so that user never counts as
  expired.

Where the code and the documented design disagree, the model follows the
code:

- `resetPassword` does not compare the presented token with the stored one.
  The comparison is commented out (controllers/auth.controller.js:195-198).
  As a result, a superseded token is still accepted
  (`Lifecycle.ResetIgnoresStoredToken`). Under the reading of the clearing
  update described under "## Left out", a reset token can also be used again
  after a successful reset, until its own `exp` (`Lifecycle.ResetTokenReplayable`).
- The thirty-minute reset window is enforced by the token's own `exp`, not by
  the stored `resetTokenExpire`. `exp` counts whole seconds from the signing
  time rounded down, so the token stops verifying up to 999 ms before the
  stored expiry (signed at 1,000,999 ms, a reset at 2,800,000 ms with valid new passwords gets 500),
  and the 400 "Link expired" branch is never reached by a token that
  forgot-password issued (`GenerateToken.ResetTokenExpiresFirst`,
  `Lifecycle.LinkExpiredUnreachable`, `Lifecycle.LateResetFailsAtVerify`).
- `forgotPassword` answers 404 for an unknown email, which reveals whether
  an account exists.
- Login matches the identifier against both the username and the email of
  every user. A user whose email equals an earlier user's username therefore
  cannot log in by email, under the lookup order assumed above
  (`AuthController.LoginShadowedByEarlierUsername`).

## Model

| member | source | states |
|---|---|---|
| UserModel.SchemaValid | models/user.model.js:5-7 | a stored user has a non-empty email, username and password, and the password has at least 6 characters; it constrains the `User` record, whose reset token and expiry are optional |
| UserModel.ResetFieldsPaired | models/user.model.js:8-9 | a reset token is stored exactly when its expiry is; the controller keeps this, the schema does not demand it |
| UserModel.UniqueEmails | models/user.model.js:5 | no two users share an email |
| UserModel.UniqueUsernames | models/user.model.js:6 | no two users share a username |
| UserModel.ValidStore | models/user.model.js:3-12 | the store invariant: every user satisfies SchemaValid and ResetFieldsPaired, both unique indexes hold, and every id is below the counter |
| UserModel.FindFrom | controllers/auth.controller.js:88-90 | the result is the first id in the range whose document matches the filter; if there is none, no id in the range matches |
| UserModel.FindOne | controllers/auth.controller.js:20-26 | `findOne` returns a matching document, and no document inserted earlier matches |
| UserModel.FindOneComplete | controllers/auth.controller.js:138-141 | when every id is below the counter, `findOne` finds nothing exactly when no document matches |
| UserModel.FindByEmailUnique | models/user.model.js:5 | under the unique email index, `findOne({ email })` returns the one user holding that email |
| EmailFormat.MatchesEmailPattern | controllers/auth.controller.js:14 | the strings `^[^\s@]+@[^\s@]+\.[^\s@]+$` matches: a segment, `@`, a segment, a dot and a segment, where a segment is one or more characters that are neither whitespace nor `@` |
| EmailFormat.IsValidEmail | controllers/auth.controller.js:14-15 | the check the handler runs: split at the first `@`, then require a non-empty local part and a domain with an inner dot and no whitespace or `@` |
| EmailFormat.ValidEmailMatches | controllers/auth.controller.js:14-15 | every email the handler's check accepts matches the regular expression |
| EmailFormat.MatchesAreValidEmails | controllers/auth.controller.js:14-15 | every string the regular expression matches passes the handler's check |
| EmailFormat.IsValidEmailMatchesPattern | controllers/auth.controller.js:14-17 | the email check accepts exactly the strings `^[^\s@]+@[^\s@]+\.[^\s@]+$` matches |
| GenerateToken.GenerateTokenAndSetCookie | lib/generateToken.js:3-16 | the cookie is named `jwt` and carries `{userId}` signed with JWT_SECRET for "15d"; its maxAge of 1,296,000,000 ms equals the token lifetime; it is httpOnly with sameSite "strict"; `secure` is true exactly when NODE_ENV is not "development" |
| GenerateToken.GenerateResetToken | lib/generateToken.js:18-26 | the token is `{userId}` signed with JWT_RESET_SECRET for "30m" at the current time; the expiry is now + 1,800,000 ms, equal to the token lifetime and strictly after now; the store and response are not involved |
| GenerateToken.Exp | lib/generateToken.js:19-21 | the `exp` claim of a token, in whole seconds, lies within the second before the signing time plus the lifetime in milliseconds |
| GenerateToken.ResetTokenExpiresFirst | lib/generateToken.js:18-26 | under jsonwebtoken's expiry rule, the reset token verifies exactly while the clock's whole seconds are before its `exp`; while it verifies, the stored expiry has not passed; once it fails, the stored expiry is less than 1000 ms away or past |
| GenerateToken.SessionCookieIsNoResetToken | lib/generateToken.js:5 | when the values of JWT_SECRET and JWT_RESET_SECRET differ (a verifier that keeps them apart), a session cookie's token never verifies as a reset token, at any time |
| AuthController.NewUser | controllers/auth.controller.js:49-55 | the new record keeps the submitted email and username and has no pending reset; under bcrypt's laws its password is a 60-character hash that `compare` accepts with the submitted password |
| AuthController.SignupSpec | controllers/auth.controller.js:9-74 | signup answers 201 or 400; on 400 the store is unchanged and no cookie is set; on 201 exactly the new user is stored under the next id, and the summary and session cookie are for that id |
| AuthController.SignupAcceptedIff | controllers/auth.controller.js:14-47 | signup succeeds exactly when the email matches the pattern, the email and username are both unused, the passwords agree and have at least 6 characters, and the username is not empty |
| AuthController.SignupChecksInOrder | controllers/auth.controller.js:14-47 | the first failing check, in source order, picks the 400 message; the empty-field check fires only for an empty username |
| AuthController.SignupAddsOneUser | controllers/auth.controller.js:49-66 | a successful signup adds exactly one user under a fresh id; its password is `Hash(password, salt)` and it has no pending reset; all other users are unchanged |
| AuthController.SignupPreservesValid | models/user.model.js:5-9 | signup keeps the schema constraints (required fields, password of at least 6 characters) and both unique indexes |
| AuthController.LoginSpec | controllers/auth.controller.js:77-121 | login answers 200, 400 or 401; an empty field gives 400; only a 200 sets a cookie, and that cookie and the summary belong to a user matching the identifier whose hash accepts the password |
| AuthController.LoginDecidedByFirstMatch | controllers/auth.controller.js:88-107 | with both fields filled in: 400 exactly when no user has the identifier as username or email; otherwise the first such user decides, 200 if `Compare` accepts the password and 401 if not |
| AuthController.LoginShadowedByEarlierUsername | controllers/auth.controller.js:88-90 | if an earlier user's username equals a later user's email, logging in with that string never returns the later user |
| AuthController.ClearedSessionCookie | controllers/auth.controller.js:125 | logout's cookie has the session cookie's name, an empty value and maxAge 0 |
| AuthController.LogoutSpec | controllers/auth.controller.js:123-131 | logout always answers 200, clears the session cookie and leaves the store untouched |
| AuthController.LogoutIdempotent | controllers/auth.controller.js:123-131 | logging out twice gives the same response and store as logging out once |
| AuthController.ResetLink | controllers/auth.controller.js:156 | the reset link ends with the reset token |
| AuthController.WithReset | controllers/auth.controller.js:150-153 | both reset fields are set together from the grant; the email, username and password are kept |
| AuthController.ForgotPasswordSpec | controllers/auth.controller.js:134-168 | 404 exactly when `findOne({ email })` finds nobody, with the store unchanged; otherwise 200, where only the found user's reset fields take the new token and expiry and the link carries the token |
| AuthController.ForgotPasswordEffect | controllers/auth.controller.js:138-163 | for an unknown email: 404 and the store unchanged. For the holder of the email: 200; the token is signed with the reset secret; the expiry is now + 1,800,000; no other field of that user and no other user changes; the link ends in the token |
| AuthController.ForgotPasswordPreservesValid | models/user.model.js:5-9 | forgot-password keeps the store invariant |
| AuthController.ResetExpired | controllers/auth.controller.js:201 | definition: a user counts as expired exactly when an expiry is stored and it is strictly before now; a user with no stored expiry never counts as expired |
| AuthController.Redeemed | controllers/auth.controller.js:210-214 | the password becomes the new hash and both reset fields are cleared together; the email and username are kept |
| AuthController.ResetOutcome | controllers/auth.controller.js:170-226 | reset answers 200, 400, 404 or 500 and never sets a cookie; any non-200 leaves the store unchanged; a failed decode past the password checks gives 500; a 200 needs a decoded, existing, unexpired user and a valid new password, and then rewrites only that user's password and reset fields |
| AuthController.ResetPasswordSpec | controllers/auth.controller.js:187-214 | a successful reset stores `Hash(newPassword, salt)` for the user the reset token decodes to |
| AuthController.ResetPasswordAsShipped | controllers/auth.controller.js:187 | with `jwt` unbound in the controller, reset never changes the store |
| AuthController.ResetGuardsInOrder | controllers/auth.controller.js:176-205 | a mismatched or short new password gets 400 whatever the token decodes to; past those checks: a decode failure gives 500, an unknown user 404, an expiry strictly before now 400 with the store unchanged, and anything else 200 |
| AuthController.ResetPreservesValid | models/user.model.js:7-9 | reset keeps the store invariant: the new hash is long enough and both reset fields are cleared together |
| AuthController.Controller.Valid | models/user.model.js:3-12 | the controller's collection satisfies ValidStore, and its hasher obeys bcrypt's laws |
| AuthController.Controller.constructor | models/user.model.js:3-14 | a controller starts with an empty collection that satisfies the invariant |
| AuthController.Controller.Signup | controllers/auth.controller.js:9-74 | runs the signup checks with early returns, then inserts the user; the response and new store equal `SignupSpec`, and the invariant is kept |
| AuthController.Controller.Login | controllers/auth.controller.js:77-121 | the response equals `LoginSpec`; the method modifies nothing |
| AuthController.Controller.Logout | controllers/auth.controller.js:123-131 | the response and store equal `LogoutSpec`; the method modifies nothing |
| AuthController.Controller.ForgotPassword | controllers/auth.controller.js:134-168 | the response and new store equal `ForgotPasswordSpec`, and the invariant is kept |
| AuthController.Controller.ResetPassword | controllers/auth.controller.js:170-226 | the response and new store equal `ResetPasswordSpec`, and the invariant is kept |
| Lifecycle.LoginAfterSignup | controllers/auth.controller.js:49-116 | after a successful signup, logging in at any later time with the new email (or username) and the same password gives 200 with the new user's summary and a cookie signed at the login time, unless an earlier user has that string in the other field |
| Lifecycle.SignupTwiceSameEmail | controllers/auth.controller.js:19-23 | once an email is registered, every later signup with it gets 400 "Email is already taken" |
| Lifecycle.ForgotThenResetSucceeds | controllers/auth.controller.js:138-218 | under jsonwebtoken's expiry rule, a reset with the token that forgot-password issued and matching new passwords of at least 6 characters, while the token's `exp` lies ahead, answers 200; it stores the new hash and clears both reset fields; no other user changes |
| Lifecycle.ResetAfterWindowExpires | controllers/auth.controller.js:200-205 | the stored-expiry guard: a reset with matching new passwords of at least 6 characters, more than 30 minutes after forgot-password, whose token the verifier still accepts, gets 400 "Link expired" and changes nothing |
| Lifecycle.LateResetFailsAtVerify | controllers/auth.controller.js:187-224 | under jsonwebtoken's expiry rule, a reset with a forgot-password token and matching new passwords of at least 6 characters, once the token's `exp` has passed, gets 500 "Invalid or expired token" and leaves the store as forgot-password left it |
| Lifecycle.LinkExpiredUnreachable | controllers/auth.controller.js:200-205 | under jsonwebtoken's expiry rule, a reset with a token that forgot-password issued never gets 400 "Link expired", at any time and with any new passwords: the token stops verifying no later than the stored expiry passes |
| Lifecycle.ResetTokenReplayable | controllers/auth.controller.js:195-214 | under jsonwebtoken's expiry rule, after a successful reset with a forgot-password token, the same request succeeds again at any time before the token's `exp`; the token is not single-use |
| Lifecycle.ResetIgnoresStoredToken | controllers/auth.controller.js:193-198 | the reset response does not depend on the token stored for the user |
| Lifecycle.SessionTokenCannotResetPassword | lib/generateToken.js:5-21 | when the values of JWT_SECRET and JWT_RESET_SECRET differ (a verifier that keeps them apart), a session token presented to reset-password with matching new passwords of at least 6 characters gets 500 and changes nothing |
| Lifecycle.ShippedResetNeverSucceeds | controllers/auth.controller.js:187 | as shipped, every reset answers 400 or 500 and leaves the store as it was; one that passes the password checks gets 500 "Invalid or expired token" |

## Findings

| source | as written | input that shows it | evidently intended | confidence | as-written member | corrected member |
|---|---|---|---|---|---|---|
| controllers/auth.controller.js:187 | `jwt.verify(...)` runs in a module that never imports `jwt` (lines 1-6), so the call throws a ReferenceError and the catch block answers 500 | any reset request with matching new passwords of 6 or more characters, for example one straight after a successful forgot-password | verify the token against JWT_RESET_SECRET and go on to the user lookup, the expiry check and the password update | high; not executed | Lifecycle.ShippedResetNeverSucceeds | Lifecycle.ForgotThenResetSucceeds |

## Left out

- `getMe` (controllers/auth.controller.js:229-237): it depends on `req.user`, which middleware outside this code fills in, and on a Mongoose projection.
- The routing table and the server bootstrap (routes/auth.route.js, server.js): routes/auth.route.js is not part of this model, and neither is server.js. The routes send GET `/getMe` to `logout` and route neither `resetPassword` nor `getMe`; the handlers are modelled directly.
- The internals of bcrypt (salt generation, cost 10) and of JWT signing and verification: they are function values. The model does not capture that a hash differs from its plaintext.
- Token formats, signatures and jsonwebtoken's other checks (`nbf`, clock tolerance, algorithms) are inside the function values; of jsonwebtoken only the expiry rule (`GenerateToken.VerifiesOwnTokens`) and the separation of the two secrets (`GenerateToken.SeparatesSecrets`) are stated. The source does not ensure that JWT_SECRET and JWT_RESET_SECRET have different values; the lemmas that use `SeparatesSecrets` hold only when they do.
- Lifecycle.LinkExpiredUnreachable: each handler call reads the clock once. In the source, `resetPassword` reads it inside `jwt.verify` and again at the expiry check. If those two reads fall on either side of the stored expiry, in the last second of the token's life, the 400 "Link expired" answer is reachable, and this lemma does not capture that.
- AuthController.Redeemed: `findByIdAndUpdate` with `resetToken: undefined, resetTokenExpire: undefined` is modelled as clearing the two reset fields. Mongoose does not remove a field that way. Depending on its version and options, it either drops the `undefined` keys from the update, so the old token and expiry stay stored, or it writes `null`. `Lifecycle.ResetTokenReplayable` rests on the clearing reading. If the keys are dropped, a replay before the token's `exp` still finds the old expiry unpassed and still succeeds. If `null` is written, `null < Date.now()` is true and a replay gets 400 "Link expired".
- Mongoose's `createdAt`/`updatedAt` timestamps and unique-index enforcement at `save` are not modelled.
- Database and library failures are not modelled. In the source, these reach the generic 500 of each handler's catch block. One case: a `save` that fails after the session cookie has been set (controllers/auth.controller.js:58-59).
- The check-then-act race between the uniqueness lookups and `save` (controllers/auth.controller.js:20-59) is a concurrency concern and is not modelled.
- Request bodies are modelled as strings that are always present. A missing or non-string field is not modelled. For example, an undefined `password` makes `password.length` throw, which gives a 500.
- String lengths count Unicode characters, not the UTF-16 code units of JavaScript's `length`.
- The `else` branch at controllers/auth.controller.js:67-69 is not modelled, because `new User(...)` always yields an object.
- `console` logging.
