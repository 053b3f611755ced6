# nestjs-auth: a verified model of the authentication core

This project models the decision logic of the `nestjs-auth` service. The service
covers:

- registration with email verification;
- password login with 30-day sessions and a JWT access/refresh token pair;
- a rate-limited password reset;
- session listing and deletion;
- time-based two-factor authentication (setup, verification, revocation and MFA login);
- the cookie-reading JWT guard;
- the request schemas of the MFA endpoints.

The database is the class `Store.Store`. It has one sequence of rows per table
(users, user preferences, sessions, verification requests) and a `Valid()`
predicate for the constraints the database keeps:

- unique ids, emails and codes;
- users and preferences are 1:1;
- every verification request and every session belongs to a user.

Each service operation that writes is a `method` with a `modifies store` clause.
Its `ensures` gives the whole new state of every table. Queries are functions that
`read` the store.

The libraries are fields of the datatype `Records.Externals`, and their internals
are not modelled:

- argon2 (hash and verify);
- jsonwebtoken (sign and verify);
- speakeasy (TOTP code, TOTP check, provisioning URI);
- qrcode.

The JWT library's promise is the predicate `Records.JwtRoundTrip`: a token verifies to its claims under its own key within its lifetime. The token format is the predicate `Records.CookieSafeTokens`: tokens are non-empty and hold no `=`. The lemmas that need these take them as hypotheses.

The following are parameters of the operations:

- the current time `now` (milliseconds);
- the ids and codes that the database or the services generate, each with a freshness precondition;
- the TOTP secret speakeasy generates, with only a non-emptiness precondition;
- the mail provider's answer.

Modules, one file each:

| module | file | models |
|---|---|---|
| `Base` | base.dfy | options, errors, results, time constants |
| `Records` | records.dfy | the table rows, JWT claims, opaque libraries |
| `Seqs` | seqs.dfy | lookup, filter, count, update and delete over a table, with their lemmas |
| `Store` | store.dfy | lookups, preference updates, constraints, the `Store` class |
| `UserService` | user_service.dfy | src/user/user.service.ts |
| `AuthService` | auth_service.dfy | src/auth/auth.service.ts |
| `MfaService` | mfa_service.dfy | src/mfa/mfa.service.ts |
| `SessionService` | session_service.dfy | src/session/session.service.ts |
| `SessionController` | session_controller.dfy | src/session/session.controller.ts |
| `JwtAuthGuard` | jwt_auth_guard.dfy | src/auth/guards/jwt-auth/jwt-auth.guard.ts |
| `MfaValidator` | mfa_validator.dfy | src/commons/validators/mfa.validator.ts |
| `Scenarios` | scenarios.dfy | properties that span several calls |

## Model

| member | source | states |
|---|---|---|
| Store.UserByEmail | src/user/user.service.ts:75-81 | the user found has that email; none is found exactly when no user has it |
| Store.UserById | src/user/user.service.ts:101-107 | the user found has that id; none is found exactly when no user has it |
| Store.PrefsOf | src/mfa/mfa.service.ts:20-27 | the preferences row found belongs to that user; none is found exactly when the user has no row |
| Store.SetPrefs | src/mfa/mfa.service.ts:42-49 | an update by `userId` replaces that user's row and leaves every other row where it was |
| Store.SetPrefsThenLookup | src/mfa/mfa.service.ts:122-126 | reading the row back after the update gives exactly the row written |
| Store.SetPrefsConsistent | src/mfa/mfa.service.ts:113-120 | a preferences update keeps users and preferences 1:1; it keeps "2FA on implies a secret is stored" when the new row satisfies it |
| UserService.InitialPrefs | src/user/user.service.ts:46-53 | a new row has 2FA off, an empty secret and email notifications on |
| UserService.InitialPrefsMfaConsistent | src/user/user.service.ts:46-53 | the initial row keeps "2FA on implies a secret is stored" |
| UserService.InsertUserConsistent | src/user/user.service.ts:21-53 | inserting a user with a fresh id and email, its row and a fresh request keeps every table constraint |
| UserService.Create | src/user/user.service.ts:17-73 | appends the user with the hash of the password, one EMAIL_VERIFICATION request expiring in 45 minutes, and the initial preferences; the mail answer is ignored; the profile returned has no password |
| UserService.FindByEmail | src/user/user.service.ts:75-81 | a read-only lookup by email; none exactly when no user has that email |
| UserService.FindOne | src/user/user.service.ts:101-107 | a read-only lookup by id; none exactly when no user has that id |
| UserService.CreateSessionAfterLogin | src/user/user.service.ts:83-99 | for an existing user, appends exactly one session for the user and user agent, created now and expiring in 30 days, and returns its id; other tables unchanged |
| AuthService.GenerateTokens | src/auth/auth.service.ts:190-199 | the access token is the default key's signature of `{userId, sessionId}`, the refresh token the refresh key's signature of `{sub, sessionId}`, both issued now |
| AuthService.GeneratedTokensVerify | src/auth/auth.service.ts:190-215 | under a JWT library that keeps its promise, the access token verifies under the default key to `{userId, sessionId}` and the refresh token under the refresh key to `{sub, sessionId}`, each within its lifetime |
| AuthService.RefreshToken | src/auth/auth.service.ts:243-255 | the answer echoes the user's id and name; the access token signs `{userId}` and the refresh token `{sub}` with no session id, under their keys, issued now |
| AuthService.RefreshedTokenHasNoSession | src/auth/auth.service.ts:243-247 | the access token of a refresh verifies to the user with no session id |
| AuthService.ValidateJwtUser | src/auth/auth.service.ts:217-229 | `{id, sessionId}` exactly when the user exists, else Unauthorized "User not found" |
| AuthService.ValidateRefreshToken | src/auth/auth.service.ts:231-241 | the id exactly when the user exists, else Unauthorized "User not found" |
| AuthService.RegisterUser | src/auth/auth.service.ts:35-43 | Conflict "User already exists", with the store unchanged, exactly when the email is taken; otherwise the writes of `create` |
| AuthService.FindValidCode | src/auth/auth.service.ts:46-54 | the request found has the code, type EMAIL_VERIFICATION and `expires >= now`; none exactly when no request has all three |
| AuthService.MarkEmailVerified | src/auth/auth.service.ts:60-67 | only the named user's `isEmailVerified` becomes true; every other field and every other user is unchanged |
| AuthService.VerifiedCodeIsSpent | src/auth/auth.service.ts:73-77 | the delete removes exactly the consumed row, and afterwards no valid request has that code at any later time |
| AuthService.NewCodeIsRedeemable | src/user/user.service.ts:30-36 | a freshly created EMAIL_VERIFICATION request is found by its code until it expires |
| AuthService.VerifyEmail | src/auth/auth.service.ts:45-82 | succeeds exactly when a valid code exists; on failure Unauthorized "Invalid or expired code" with nothing written; on success that user is marked verified, exactly that request is deleted, and the verified user is returned |
| AuthService.WriteUsersAndRequests | src/auth/auth.service.ts:60-77 | stores the updated users and requests, other tables unchanged, keeping the constraints |
| AuthService.KeepsConsistent | src/auth/auth.service.ts:60-77 | marking a user verified and deleting one request keeps the table constraints |
| AuthService.ValidateLocalUser | src/auth/auth.service.ts:84-101 | `{id, name}` of the user with that email exactly when the hash check passes; Unauthorized "User not found!" for an unknown email, "Invalid credentials" for a failed check |
| AuthService.Login | src/auth/auth.service.ts:103-133 | for the user the password check found, appends exactly one 30-day session and returns the token pair signed for that session id, with the user's id, name and user agent |
| AuthService.ResetRequest | src/auth/auth.service.ts:160-168 | the request created is a PASSWORD_RESET of the user, created now and expiring in one hour |
| AuthService.RecentResets | src/auth/auth.service.ts:142-154 | the count never exceeds the table size, and is zero exactly when the user has no PASSWORD_RESET request created in the trailing three minutes |
| AuthService.ResetCountsOnce | src/auth/auth.service.ts:142-158 | an admitted reset raises its user's count in the three-minute window by exactly one, to at most two, and leaves every other user's count alone |
| AuthService.AfterResetAttempt | src/auth/auth.service.ts:142-168 | the requests table after one attempt: unchanged when the user already has two or more recent resets, otherwise the old table followed by exactly one reset request created now |
| AuthService.AfterResetAttempts | src/auth/auth.service.ts:142-168 | a run of attempts never shrinks the table and adds at most one row per attempt (that the old rows are kept as a prefix is AuthService.AttemptsAddOnlyResets) |
| AuthService.AttemptsAddOnlyResets | src/auth/auth.service.ts:142-168 | a run of attempts keeps the old table as a prefix, and every row it adds is a PASSWORD_RESET request of that user created at that instant |
| AuthService.RateLimitOverAttempts | src/auth/auth.service.ts:142-168 | over any run of attempts at one instant, the count grows by one per attempt until it reaches two and never goes beyond (a count already at two or more stays where it is) |
| AuthService.WindowElapsed | src/auth/auth.service.ts:143-154 | once all of the user's reset requests are older than three minutes, the count is zero |
| AuthService.ResetAnswer | src/auth/auth.service.ts:170-187 | success exactly when the mail was sent, with the link and the mail id; otherwise InternalServerError |
| AuthService.AddRequestConsistent | src/auth/auth.service.ts:162-168 | a request with a fresh id and code for an existing user keeps the request constraints |
| AuthService.InsertRequest | src/auth/auth.service.ts:162-168 | appends exactly the given request; other tables unchanged |
| AuthService.ForgotPassword | src/auth/auth.service.ts:135-188 | NotFound "User not found" for an unknown email, nothing written; Unauthorized "Too many requests, try again later" with two or more recent resets, nothing written; otherwise exactly one one-hour reset request is appended and the answer embeds its code and expiry, and a failed mail send gives InternalServerError with the request kept |
| MfaService.AccountById | src/mfa/mfa.service.ts:20-27 | the user with that id and its preferences row; none exactly when the user does not exist |
| MfaService.AccountByEmail | src/mfa/mfa.service.ts:178-185 | the user with that email and its preferences row; none exactly when no user has the email |
| MfaService.Setup | src/mfa/mfa.service.ts:36-50 | only the secret can change; a stored secret is kept; a row without one gets the generated secret |
| MfaService.Enable | src/mfa/mfa.service.ts:113-120 | 2FA is switched on and every other field, the secret included, is kept |
| MfaService.Revoke | src/mfa/mfa.service.ts:148-166 | afterwards 2FA is off; an enabled row loses its secret; a disabled row is left as it is; the user and notification setting are kept |
| MfaService.MfaLoginAllowed | src/mfa/mfa.service.ts:191-196 | MFA login goes on exactly when 2FA is on or a secret is stored |
| MfaService.SelfCheck | src/mfa/mfa.service.ts:90-111 | under a TOTP library that accepts its own codes, the check passes for every submitted secret |
| MfaService.SetupTransition | src/mfa/mfa.service.ts:36-50 | setup on a row with 2FA off leaves a pending row holding the old secret, or the generated one when there was none; nothing else changes |
| MfaService.SetupIdempotent | src/mfa/mfa.service.ts:36-50 | a second setup leaves the row as the first left it, whatever it generates |
| MfaService.RevokeIdempotent | src/mfa/mfa.service.ts:148-167 | after revocation 2FA is off; revoking twice is revoking once; an enabled row ends without a secret; a disabled row is untouched |
| MfaService.GuardAdmitsPending | src/mfa/mfa.service.ts:191-196 | the MFA-login guard admits exactly the rows that have 2FA on or a stored secret, so a pending row passes |
| MfaService.RevokeThenLogin | src/mfa/mfa.service.ts:148-196 | after revoking an enabled row MFA login is refused; revoking a pending row leaves MFA login admitted |
| MfaService.EnableWithoutSecret | src/mfa/mfa.service.ts:113-120 | enabling a row with an empty secret breaks "2FA on implies a secret is stored" |
| MfaService.UpdatePrefs | src/mfa/mfa.service.ts:42-49 | replaces the user's row with the given one, other tables unchanged, and keeps "2FA on implies a secret is stored" when the new row does |
| MfaService.GenerateMfaSetup | src/mfa/mfa.service.ts:19-66 | NotFound "User not found" or "Mfa already enabled" with nothing written; otherwise the stored secret, or the generated one stored first with 2FA left off, and the QR image of its provisioning URI for the user's name |
| MfaService.VerifyMfaSetup | src/mfa/mfa.service.ts:68-132 | NotFound for an unknown user; "MFA already enabled" with nothing written; otherwise the outcome depends only on the self-check of the submitted secret, never on the submitted code; on success 2FA is on, the stored secret is kept, and the row read back is returned |
| MfaService.RevokeMfaSetup | src/mfa/mfa.service.ts:134-175 | Unauthorized "User not unauthorized" for an unknown user; "MFA already disabled" with nothing written; otherwise 2FA off and the secret cleared, "MFA revoke successfully" |
| MfaService.LoginWithMfa | src/mfa/mfa.service.ts:177-228 | NotFound for an unknown email, for a row with 2FA off and no secret, and for a code the TOTP check rejects, each with no session created; otherwise exactly one 30-day session and the token pair for it |
| SessionService.Row | src/session/session.service.ts:14-19 | a listed row carries the session's id, user, user agent and creation time |
| SessionService.Rows | src/session/session.service.ts:14-19 | the projection keeps length and order |
| SessionService.InsertPermutes | src/session/session.service.ts:20-22 | an insertion adds exactly the inserted row |
| SessionService.InsertSorted | src/session/session.service.ts:20-22 | inserting into a newest-first list keeps it newest first |
| SessionService.SortNewestFirst | src/session/session.service.ts:20-22 | the result is newest first and holds the same rows as the input, each as often |
| SessionService.InsertKeepsIdsUnique | src/session/session.service.ts:20-22 | inserting a row with a new id keeps ids distinct |
| SessionService.SortKeepsIdsUnique | src/session/session.service.ts:20-22 | sorting keeps ids distinct |
| SessionService.GetAllSessions | src/session/session.service.ts:8-27 | newest first; the same rows, each as often, as the projections of the user's sessions with `expiresAt > now`; a row is listed exactly when such a session has it |
| SessionService.ListedIdsUnique | src/session/session.service.ts:8-27 | the listed rows have distinct ids |
| SessionService.GetOneSession | src/session/session.service.ts:29-55 | for a known session id, the id, name and email of the user owning the session and that user's preferences row; for an unknown id, the internal server error that the unchecked dereference ends in |
| SessionService.DeleteSession | src/session/session.service.ts:57-67 | succeeds exactly when a session has both that id and that user, removing exactly that row, "Session deleted successfully"; otherwise the record-not-found error and nothing removed |
| SessionController.MarkCurrent | src/session/session.controller.ts:25-28 | same length and order as the service's list; a row is marked current exactly when its id is the request's session id |
| SessionController.GetAllSessions | src/session/session.controller.ts:20-34 | status 200, "Retrieved all sessions successfully", and entry i is the service's row i (newest first), marked current exactly when its id is the request's session id |
| SessionController.CurrentIsUnique | src/session/session.controller.ts:20-34 | at most one entry is current, and one is exactly when the request's session id names a live session of the caller |
| SessionController.GetSession | src/session/session.controller.ts:36-49 | 404 "Session not found" exactly when the request has no session id or an empty one; 500 exactly when the id names no session; otherwise 200 "Retrieved session successfully"; the `session` field is always undefined |
| SessionController.Remove | src/session/session.controller.ts:51-55 | the outcome and writes of `deleteSession` for the route id and the caller's user id: "Session deleted successfully" and exactly that row removed when the caller owns it, RecordNotFound with nothing removed otherwise |
| JwtAuthGuard.Split | src/auth/guards/jwt-auth/jwt-auth.guard.ts:40-41 | at least one piece, and no piece holds the separator |
| JwtAuthGuard.JoinSplit | src/auth/guards/jwt-auth/jwt-auth.guard.ts:40-41 | joining the pieces with the separator gives the string back |
| JwtAuthGuard.SplitJoin | src/auth/guards/jwt-auth/jwt-auth.guard.ts:40-41 | splitting a join of separator-free pieces gives the pieces back |
| JwtAuthGuard.SplitPlain | src/auth/guards/jwt-auth/jwt-auth.guard.ts:40-41 | a string without the separator is one piece |
| JwtAuthGuard.SplitAfterPiece | src/auth/guards/jwt-auth/jwt-auth.guard.ts:40-41 | a separator-free piece followed by the separator splits off as the first piece |
| JwtAuthGuard.ExtractTokenFromHeader | src/auth/guards/jwt-auth/jwt-auth.guard.ts:35-44 | null exactly when the header is absent or empty; undefined exactly when it is non-empty without '='; a token never holds '=' |
| JwtAuthGuard.ExtractedIsSecondPiece | src/auth/guards/jwt-auth/jwt-auth.guard.ts:40-41 | the token is exactly the text between the first '=' and the next '=' or the end |
| JwtAuthGuard.SingleCookie | src/auth/guards/jwt-auth/jwt-auth.guard.ts:40-41 | a header `name=token` yields the token |
| JwtAuthGuard.ExtraCookieJoinsToken | src/auth/guards/jwt-auth/jwt-auth.guard.ts:40-41 | with a second cookie, the text extracted runs into the second cookie's name |
| JwtAuthGuard.Authenticate | src/auth/guards/jwt-auth/jwt-auth.guard.ts:17-31 | accepts exactly a non-empty token that verifies under the default key, with its payload; otherwise Unauthorized "Unauthorized access token" |
| JwtAuthGuard.PayloadUserId | src/auth/guards/jwt-auth/jwt-auth.guard.ts:26 | defined exactly for access payloads, as their `userId` |
| JwtAuthGuard.Request.constructor | src/auth/guards/jwt-auth/jwt-auth.guard.ts:16 | a request carries its cookie header and no user, user id or session id yet |
| JwtAuthGuard.CanActivate | src/auth/guards/jwt-auth/jwt-auth.guard.ts:15-33 | on rejection Unauthorized with the request untouched; on acceptance true, with `user`, `userId` and `sessionId` set from the payload |
| MfaValidator.TrimStart | src/commons/validators/mfa.validator.ts:4 | a suffix of the input; everything removed is whitespace, and what is left does not start with whitespace |
| MfaValidator.TrimEnd | src/commons/validators/mfa.validator.ts:4 | a prefix of the input; everything removed is whitespace, and what is left does not end with whitespace |
| MfaValidator.Trim | src/commons/validators/mfa.validator.ts:4 | a contiguous part of the input with only whitespace around it, neither starting nor ending with whitespace |
| MfaValidator.TrimmedIsFixed | src/commons/validators/mfa.validator.ts:4 | a string without whitespace at either end is left as it is |
| MfaValidator.TrimIdempotent | src/commons/validators/mfa.validator.ts:4 | trimming twice is trimming once |
| MfaValidator.TrimmedInRange | src/commons/validators/mfa.validator.ts:4-5 | a field is accepted exactly when present with its trimmed length in the bounds, and then yields the trimmed value |
| MfaValidator.ParseMfa | src/commons/validators/mfa.validator.ts:3-6 | accepted exactly when the trimmed `code` has 1 to 6 and the trimmed `secretKey` 1 to 100 characters, yielding the trimmed values |
| MfaValidator.ParseMfaLogin | src/commons/validators/mfa.validator.ts:8-12 | accepted exactly when the trimmed `code` has 1 to 6 characters and the trimmed `email` 5 to 255 and passes the email check, yielding the trimmed values and the optional user agent |
| MfaValidator.ParseMfaIdempotent | src/commons/validators/mfa.validator.ts:3-6 | a parsed object parses again to itself |
| MfaValidator.ParseMfaLoginIdempotent | src/commons/validators/mfa.validator.ts:8-12 | a parsed login object parses again to itself |
| MfaValidator.PaddingIgnored | src/commons/validators/mfa.validator.ts:3-6 | whitespace padding on either side of either field, each pad chosen independently and possibly empty, changes neither acceptance nor the values |
| MfaValidator.PaddedFieldChecksSame | src/commons/validators/mfa.validator.ts:4-5 | a field with any leading and any trailing whitespace passes the range check exactly when the bare one does, with the same value |
| MfaValidator.TrimStartSkips | src/commons/validators/mfa.validator.ts:4 | leading whitespace does not change the start-trimmed result |
| MfaValidator.TrimEndSkips | src/commons/validators/mfa.validator.ts:4 | trailing whitespace does not change the end-trimmed result |
| MfaValidator.TrimPadded | src/commons/validators/mfa.validator.ts:4 | trimming a bare string with independent leading and trailing whitespace gives the bare string |
| Scenarios.LoginTokenPassesGuard | src/auth/auth.service.ts:113-121 | the access token of a login, sent as the `accessToken` cookie within its lifetime, passes the guard with the login's user and session |
| Scenarios.RefreshedTokenHasNoCurrentSession | src/auth/auth.service.ts:243-247 | a refreshed access token passes the guard without a session id, so the current-session endpoint answers 404 |
| Scenarios.SetupTwice | src/mfa/mfa.service.ts:36-63 | two setups of a user with 2FA off both succeed and return the same secret, the first one's |
| Scenarios.VerifyEmailTwice | src/auth/auth.service.ts:45-82 | after a successful verification, the same code is refused |
| Scenarios.RemoveThenGetSession | src/session/session.controller.ts:36-55 | after the caller deletes a session, asking for it by its id answers 500 |

## Left out

- Password hashing (argon2), JWT signing and verification, TOTP generation and checking (speakeasy), the provisioning URI and the QR image (qrcode) are opaque functions. Their cryptography and encodings are not modelled. Secrets, ids and codes are generated outside the model and passed in as fresh values.
- Mail sending (src/mailers/mailer.ts, src/mailers/resendClient.ts) is a `MailResult` parameter, and the mail contents are not modelled. The reset link keeps only the code and expiry it embeds; the application origin is not part of this model.
- The date helpers are the constants in `Base`: 45 minutes, one hour, 30 days and three minutes, in milliseconds from `now`. Their source files are not part of this model.
- The user columns `role`, `createdAt` and `updatedAt` are not modelled, so the profile `create` returns leaves them out.
- The `if (!updatedUser)` branch of `verifyEmail` (src/auth/auth.service.ts:69-71) cannot be reached. The update either returns the row or raises, and the row exists because every request names a user. So that branch is not modelled.
- `login` opens a session whatever the user's 2FA setting; the code has no MFA branch there, and the model follows the code.
- The controllers other than the session controller, the modules, the configuration files, the refresh-token strategy and the cookie helper (src/commons/ultils/cookie.ts) are not part of this model. The HTTP status values 200, 404 and 500 are the standard ones, and the 500 answer carries the framework's default message; src/auth/config/http.config.ts is not part of this model.
- Concurrency and atomicity: each database call is one sequential step, and two requests never interleave.
- The order among sessions created at the same instant is not specified by the database. The model keeps table order there.
- zod's handling of non-string inputs and its exact email regular expression are not modelled. A field is present or absent, and the email check is a parameter.
- `console.log` calls are not modelled.
- AuthService.RefreshToken: what its tokens verify to rests on the JWT library keeping its promise (`Records.JwtRoundTrip`); see AuthService.RefreshedTokenHasNoSession.
- MfaService.GenerateMfaSetup: requires a non-empty generated secret, which is what speakeasy's generator guarantees.
- JwtAuthGuard.ExtractTokenFromHeader: when the header holds several cookies, the extracted text is not a token (JwtAuthGuard.ExtraCookieJoinsToken). The model reproduces this rather than fixing it.
- MfaService.VerifyMfaSetup: the submitted `code` has no effect, and 2FA can be switched on for a row with no stored secret (MfaService.EnableWithoutSecret). The model follows the code as written. "2FA on implies a secret is stored" is therefore proved to be kept only by setup, revocation and registration, and by verification of a row that already holds a secret.
- MfaService.UpdatePrefs: requires the user's preferences row to exist, as every caller has just read it; the error Prisma raises for an update that matches no row is not modelled.
- AuthService.Login and UserService.CreateSessionAfterLogin: require the user to exist. The model takes the id that `validateLocalUser` returns; the controller's call (src/auth/auth.controller.ts, which is not part of this model) passes the request body instead. For an unknown id, the session's foreign key would make the database refuse the insert, and that error is not modelled.
