# AfriConnect identity engine, modelled in Dafny

This project models the server-side identity engine of the AfriConnect Exchange
marketplace and proves properties of that model. The engine covers:

- the database-backed session store (`lib/auth/session.ts`);
- single-use secrets: tokens, one-time codes (`lib/auth/tokens.ts`, `lib/sms/send-otp.ts`,
  `lib/sms/verify-otp.ts`) and the password hash (`lib/auth/password.ts`);
- the sliding-window rate limiter (`lib/security/rate-limit.ts`);
- email dispatch with retries and one log row per attempt (`lib/email/send.ts`);
- the validators and scorers: the zod schemas and `validateSchema`
  (`lib/utils/validation.ts`), `isPasswordStrong`, device fingerprinting
  (`lib/security/device-fingerprint.ts`) and `validateAuthConfig` (`lib/auth/better-auth.ts`);
- the error taxonomy and response mapping (`lib/utils/errors.ts`, `lib/utils/response.ts`);
- the route handlers under `app/api/auth/` (sign-in, sign-up, verify-email,
  resend-verification, sign-out) and the redirect table of `middleware.ts`.

The model is functional. Each Prisma table is a sequence of immutable rows, grouped in a
`Store.Store` (accounts, sessions, one-time codes, security log, verification tokens).
Each route handler is a pure transition from one store to the next plus the answer it
gives (`Store.Outcome`). The Prisma calls are not transactional, so a handler that fails
half-way keeps the writes it already made, and the model keeps them too. A security-log
row's `metadata` JSON is a map from keys to flags, words or instants (`RateLimit.MetaValue`),
which covers every value the callers store. The clock is a
parameter `now` in milliseconds. Everything the engine cannot compute itself is an input:

- bcrypt is a `Bcrypt.Hasher`. It is a digest function plus a salt, and a predicate
  `Sound` states what the engine relies on: under one salt, two plaintexts get the same
  digest exactly when their first 72 UTF-8 bytes agree, because bcrypt ignores the rest.
  So a plaintext shorter than 72 bytes verifies against its own digest and nothing else,
  while a longer one also verifies with anything appended. Digests start with `$`, as
  bcrypt's do.
- `crypto.randomBytes` is a sequence of bytes and `Math.random()` is a real in [0, 1).
- The SMS gateway's verdict is a boolean. The SMTP sender is a sequence of delivery
  outcomes (`Email.Try`), one per attempt. The routes' `sendEmailWithLogging` call is
  only "returns" or "throws" (`Store.MailStep`), because its result is ignored.
  lib/email/send.ts exports no function of that name, so as written every call throws
  (`Store.MailAsWritten`); `MailReturns` stands for the corrected import of a logging
  sender, and the members that take a mail step describe both.
- The user-agent parser and zod's email check are supplied functions.

Strings are sequences of Unicode code points. JavaScript's `length`, and with it every
zod `min`/`length` check, counts UTF-16 code units; the model measures those with
`Unicode.Utf16Length`. bcrypt reads the UTF-8 bytes (`Unicode.Utf8`).

Modules follow the source files: `Base` (options, strings, decimal numerals), `Unicode`,
`Accounts`, `Bcrypt`, `Tokens`, `Password`, `Sessions`, `Otp`, `RateLimit`,
`Fingerprint`, `Email`, `Validation`, `Errors`, `Responses`, `AuthConfig`, `Middleware`,
`Store`, `SignIn`, `SignUp`, `VerifyEmail`, `ResendVerification` and `SignOut`.

## Model

| member | source | states |
|---|---|---|
| Accounts.FindUserById | lib/auth/session.ts:50-56 | The index found holds an account with that id and no earlier row matches; when none is found, no account has it. |
| Accounts.FindUserByEmail | app/api/auth/signin/route.ts:37-41 | The index found holds an account with that email and no earlier row matches; when none is found, no account has it. |
| Accounts.FindUserByPhone | app/api/auth/signin/route.ts:37-41 | The index found holds an account with that phone and no earlier row matches; when none is found, no account has it. |
| Accounts.NextUserId | app/api/auth/signup/route.ts:57-67 | The id given to a new account belongs to no existing account. |
| Bcrypt.Hash | lib/auth/tokens.ts:21-23 | A digest from a sound hasher has bcrypt's `$` shape and verifies its own plaintext. |
| Bcrypt.VerifyExactly | lib/auth/tokens.ts:21-33 | `verifyToken(guess, hashToken(t))` holds exactly when `guess` and `t` agree on their first 72 UTF-8 bytes, the part bcrypt reads. |
| Bcrypt.VerifyWithinLimit | lib/auth/tokens.ts:21-33 | A digest of a plaintext shorter than 72 bytes verifies that plaintext and no other guess. The same holds when the plaintext and the guess are both at most 72 bytes. |
| Bcrypt.TruncatedTail | lib/auth/tokens.ts:21-33 | A plaintext of 72 bytes or more with anything appended still verifies against the plaintext's digest. |
| Password.HashPassword | lib/auth/password.ts:8-10 | The stored digest has bcrypt's shape and verifies the password it was made from. |
| Password.PasswordRoundTrip | lib/auth/password.ts:8-20 | A guess verifies against `hashPassword(p)` exactly when it agrees with `p` on the first 72 UTF-8 bytes. For a password shorter than 72 bytes, that means exactly when the guess is `p`. |
| Password.LongPasswordsCollide | lib/auth/password.ts:8-20 | The hash of a password of 72 bytes or more also accepts that password with anything appended. |
| Password.Test | lib/auth/password.ts:39-42 | A character-class regex test holds exactly when some character of the password is in the class. |
| Password.IsPasswordStrong | lib/auth/password.ts:26-56 | The score is at most 6. The password is strong exactly when the score is at least 4. The length hint appears exactly when the JavaScript length (UTF-16 code units) is below 8. Each class hint appears exactly when that class is missing. The feedback follows the fixed hint order. Score plus feedback count is 6 at a length of 12 or more, else 5. |
| Password.HintsDistinct | lib/auth/password.ts:45-49 | The five feedback messages are pairwise different, so the feedback names each missing requirement once. |
| Password.ScoreBreakdown | lib/auth/password.ts:35-42 | The score is 2 points at a JavaScript length (UTF-16 code units) of 12 or more, 1 at 8 to 11, 0 below 8, plus one point for each character class present. |
| Tokens.GenerateToken | lib/auth/tokens.ts:7-9 | For n random bytes the token has exactly 2n characters, all lower-case hex. |
| Tokens.TokenKeyLength | lib/auth/tokens.ts:7-9 | A token of n random bytes is 2n UTF-8 bytes: 64 for the default 32, inside bcrypt's 72-byte key. |
| Tokens.TokenRoundTrip | lib/auth/tokens.ts:7-9 | Decoding the hex token gives back the random bytes, so the encoding loses nothing. |
| Tokens.GenerateOtp | lib/auth/tokens.ts:14-16 | The code is a 6-digit numeral with no leading zero, whose value lies in 100000..999999. |
| Tokens.OtpKeyLength | lib/auth/tokens.ts:14-16 | A code is 6 UTF-8 bytes, inside bcrypt's 72-byte key. |
| Tokens.GenerateVerificationToken | lib/auth/tokens.ts:38-45 | The plaintext is 64 hex characters that decode back to the random bytes, and the returned bcrypt-shaped digest verifies it. |
| Tokens.GenerateOtpWithHash | lib/auth/tokens.ts:50-57 | The code is 6 digits valued in 100000..999999, and the returned bcrypt-shaped digest verifies it. |
| Tokens.GetExpiryDate | lib/auth/tokens.ts:69-71 | The expiry lies exactly m minutes, in milliseconds, after now. |
| Tokens.ExpiryBoundary | lib/auth/tokens.ts:62-64 | A token expiring exactly now is not expired; one millisecond later it is. |
| Tokens.FreshExpiry | lib/auth/tokens.ts:62-71 | An expiry computed now for m minutes is already expired now exactly when m is negative. |
| Sessions.FindSession | lib/auth/session.ts:90-92 | The row found carries the token and no earlier row does; when none is found, no row carries it. |
| Sessions.RecordLogin | lib/auth/session.ts:50-56 | The account's login count grows by exactly one and its last login is now; no other field or account changes. |
| Sessions.CreateSession | lib/auth/session.ts:16-65 | Refused exactly when the account is missing or the token is already in use, with nothing written then. Otherwise one active, unrevoked row is appended for the account, with the hex token, a 30-day expiry under remember-me and a 1-day expiry otherwise, the device and the device id of its user agent and IP; the account's login is recorded. |
| Sessions.CreateSessionKeepsWellFormed | lib/auth/session.ts:16-65 | Creating a session keeps tokens unique, ids unique and every session's owner present. |
| Sessions.DeleteSession | lib/auth/session.ts:116-126 | No row is removed. Every row with the token becomes inactive with `revokedAt` = now; every other row is unchanged. |
| Sessions.DeleteAllUserSessions | lib/auth/session.ts:131-141 | No row is removed. Every row of the account becomes inactive with `revokedAt` = now; every other row is unchanged. |
| Sessions.GetSession | lib/auth/session.ts:70-111 | An unknown or inactive token gives null and changes nothing. An expired one gives null and is revoked. A live one returns the account projection (without the password hash), the session id and its expiry, and only its `lastActivityAt` changes. |
| Sessions.RefreshSession | lib/auth/session.ts:146-169 | A missing or inactive session gives null and changes nothing. Otherwise only that row changes: its expiry becomes now plus the given hours, even when it had already expired, and its last activity is now. |
| Sessions.RefreshSessionByDefault | lib/auth/session.ts:146-149 | Without `extendBy`, a refreshed session expires one new-session lifetime (24 hours) from now; a missing or inactive one gives null unchanged. |
| Sessions.GetCurrentUser | lib/auth/session.ts:205-214 | No cookie gives null without touching the store; otherwise the answer and the store are those of `getSession`. |
| Sessions.CleanupExpiredSessions | lib/auth/session.ts:219-232 | Exactly the active rows strictly past their expiry become inactive; the count is their number; no row is removed. |
| Sessions.CleanupIdempotent | lib/auth/session.ts:219-232 | A second sweep at the same instant reports 0 and changes nothing. |
| Sessions.ExpiredSessionIsRejected | lib/auth/session.ts:95-98 | A session past its expiry never yields a user, and after the lookup it is inactive with `revokedAt` set. |
| Sessions.SignedOutTokenIsRejected | lib/auth/session.ts:90-92 | After `deleteSession(t)`, every later `getSession(t)` gives null. |
| Sessions.RevokeAllRejectsEveryToken | lib/auth/session.ts:131-141 | After `deleteAllUserSessions(u)`, no token of `u` validates, and other accounts' tokens behave as before. |
| Sessions.RefreshKeepsWellFormed | lib/auth/session.ts:146-169 | Refreshing keeps tokens unique, ids unique and owners present. |
| Sessions.RefreshedFound | lib/auth/session.ts:146-169 | A refreshed session is still found under its token, active and not expired at the refresh instant. |
| Sessions.RefreshRevivesExpired | lib/auth/session.ts:146-169 | Refreshing an active but expired session makes `getSession` accept it again. |
| Otp.SendOtp | lib/sms/send-otp.ts:17-84 | It throws exactly when the phone is rate-limited, and then nothing is written. Otherwise exactly one unused row for the phone is stored, expiring in 5 minutes, whose digest verifies the generated code. Exactly one `otp` attempt is logged whether or not the SMS went out; its metadata holds `success` (the SMS verdict) and the code's `expiresAt`. `success` equals the SMS verdict, and the expiry is reported only on success. |
| Otp.ResendOtp | lib/sms/send-otp.ts:89-100 | The phone's unused codes are deleted first; other phones' rows and used rows stay. A rate-limited phone gets the limiter's error, and the deletion is kept. Otherwise the table is the kept rows plus one new unused row for the phone, expiring in 5 minutes, whose digest verifies the drawn code; it is the phone's only unused row. One `otp` attempt is logged whose metadata records the SMS verdict as `success`, and the answer's success equals that verdict. |
| Otp.CleanupExpiredOtps | lib/sms/send-otp.ts:105-116 | Exactly the rows with `expiresAt >= now` are kept, used or not; the count is the number of rows with `expiresAt < now`. |
| Otp.LatestPending | lib/sms/verify-otp.ts:18-26 | The row found is an unused row of the phone with no later one; when none is found, the phone has no unused row. |
| Otp.VerifyOtp | lib/sms/verify-otp.ts:15-87 | No pending code gives "Invalid or expired OTP". An expired latest code is deleted and refused whatever was typed. A wrong code is refused and nothing changes. A right code marks exactly that row used. `success` always equals `valid`. |
| Otp.HasValidOtp | lib/sms/verify-otp.ts:92-104 | True exactly when some row of the phone is unused and has `expiresAt > now`. |
| Otp.IssueThenVerify | lib/sms/verify-otp.ts:15-77 | A freshly sent code verifies before it expires, and the row it matched is then used and never selected again. |
| Otp.ExpiredCodeIsPurged | lib/sms/verify-otp.ts:38-51 | A latest code past its expiry is refused whatever is typed, and its row is deleted. |
| Otp.SecondUseRefused | lib/sms/verify-otp.ts:18-22 | Once the only pending code of a phone is accepted, every later attempt for the phone is refused. |
| Otp.ResendLeavesOnePending | lib/sms/send-otp.ts:89-100 | After a resend that the limiter let through, the new code is the latest pending one of the phone, and no other code verifies. |
| Otp.ExpiryBoundaryDisagreement | lib/sms/verify-otp.ts:38-104 | At the exact expiry instant `hasValidOTP` is false while `verifyOTP` still accepts the code. |
| RateLimit.CountAttempts | lib/security/rate-limit.ts:29-35 | The count is the number of rows of the action's event type whose description contains the identifier and that fall in the window, start inclusive. |
| RateLimit.CheckRateLimit | lib/security/rate-limit.ts:21-42 | An error is returned exactly when the count reaches the action's maximum; it is a `RateLimitError` with status 429. The store is never written. |
| RateLimit.LogRateLimitAttempt | lib/security/rate-limit.ts:47-63 | Exactly one row is appended, with the action as event type, the description "<action> attempt for <identifier>", the caller's user id, and the caller's metadata, or the empty object when none is given; earlier rows are unchanged. |
| RateLimit.LogSuspiciousActivity | lib/security/rate-limit.ts:68-88 | Exactly one warning row is appended with the caller's event type, description and metadata, the empty object when none is given; earlier rows are unchanged. |
| RateLimit.AttemptCountsForContainedIdentifier | lib/security/rate-limit.ts:31 | An attempt logged for any identifier containing `id` also counts against `id`: the limiter over-counts, never under-counts. |
| RateLimit.SuspiciousRowsCountOnlyForTheirType | lib/security/rate-limit.ts:68-88 | A suspicious-activity row counts only toward an action of exactly its event type. |
| RateLimit.LogAttemptsCount | lib/security/rate-limit.ts:47-63 | k attempts logged now for an identifier raise its count by k. |
| RateLimit.LimitReached | lib/security/rate-limit.ts:25-41 | After the maximum number of attempts inside the window, the check refuses. |
| RateLimit.WindowElapsed | lib/security/rate-limit.ts:25-41 | Once every logged attempt is older than the window, the check passes again. |
| Fingerprint.ClientIp | lib/security/device-fingerprint.ts:12-15 | The IP is the first comma segment of `x-forwarded-for` when that segment is non-empty, else a non-empty `x-real-ip`, else `unknown`. |
| Fingerprint.GetDeviceInfo | lib/security/device-fingerprint.ts:9-28 | The user agent defaults to the empty string. Each of the parser's type, model, browser and OS values is carried through when truthy and otherwise replaced by `desktop`, `Unknown Device`, `Unknown` or `Unknown`. The IP follows `ClientIp`. |
| Fingerprint.SameClientSameDevice | lib/security/device-fingerprint.ts:9-37 | Two requests with the same effective user agent and client IP get the same device info and so the same device id. |
| Fingerprint.SameKeySameId | lib/security/device-fingerprint.ts:33-36 | Two devices whose joined keys are equal get the same id. |
| Fingerprint.DistinctPairsCanCollide | lib/security/device-fingerprint.ts:34 | The distinct pairs ("a-b", "c") and ("a", "b-c") get the same id. |
| Fingerprint.GetLocationFromIp | lib/security/device-fingerprint.ts:41-50 | Always null. |
| Email.Attempts | lib/email/send.ts:49-111 | One log row per attempt, between 1 and MAX_RETRIES + 1 - retryCount of them. Delivery happens exactly when the last try delivered. One recorded delay fewer than rows. The last row is final. |
| Email.SendEmailWithRetry | lib/email/send.ts:49-111 | Every row is fresh and carries the mail, with consecutive attempt counts from `retryCount`. All rows before the last stay pending. The last row ends sent and stamped with its try's time if that try delivered, failed with "Max retry attempts exceeded" after a plain failure, and pending after a throw. The result is true exactly when the last try delivered. |
| Email.AttemptsStop | lib/email/send.ts:72-105 | Every attempt before the last failed without throwing, and a last attempt that failed without throwing is the final retry. |
| Email.RetryWaits | lib/email/send.ts:41-44 | The delays waited are `RETRY_DELAYS[retryCount..]` in order, so the index is always in bounds. |
| Email.DeliveredIffSomeAttemptSucceeds | lib/email/send.ts:72-94 | The call returns true exactly when some try within the retry budget delivers and no earlier try threw. |
| Email.FailFailDeliver | lib/email/send.ts:72-94 | Two failures then a delivery give three rows (pending, pending, sent), delays 1000 and 5000, and true. |
| Email.NeverDelivered | lib/email/send.ts:96-105 | A sender that never delivers gets four rows and delays 1000, 5000, 15000; the last row fails with "Max retry attempts exceeded". |
| Email.ThrowIsNotRetried | lib/email/send.ts:106-110 | A sender that throws on the first call is not retried: one row, left pending, and false. |
| Email.Subject | lib/email/send.ts:125-173 | Each mail kind gets its own template's subject, and only that kind gets it: verification, welcome, password reset and OTP. |
| Email.SubjectIdentifiesKind | lib/email/send.ts:125-176 | Different mail kinds get different subjects. |
| Email.SendTemplatedEmail | lib/email/send.ts:119-185 | The rows are fresh and go to the recipient with the data's subject, the user, and the data as metadata; the first attempt count is 0. The result is true exactly when the last row is sent. |
| Email.TemplateTypeIgnored | lib/email/send.ts:119-176 | The `type` argument never affects the result: the template follows `data.type`. |
| Email.ResendFailedEmail | lib/email/send.ts:190-211 | False with no rows unless the log exists, is failed and carries metadata. Otherwise fresh rows are appended to the original recipient, with the original metadata, user and its kind's subject, starting from attempt 0. The result is true exactly when the last appended row is sent. |
| Email.ResendDeliveredIffSomeAttemptSucceeds | lib/email/send.ts:190-211 | A resend answers true exactly when the row is resendable and one of the four fresh tries delivers after only plain failures. |
| Email.SendTemplatedEmailAsWritten | lib/email/send.ts:129-176 | As written, the call throws exactly for verification data. Otherwise it logs at least one row under the data's subject. |
| Email.ResendFailedEmailAsWritten | lib/email/send.ts:190-211 | As written, the call throws exactly for a resendable row holding verification data. Otherwise it answers as `ResendFailedEmail`. |
| Email.VerificationTemplateThrowsAsWritten | lib/email/send.ts:129-137 | As written, every verification mail throws and logs nothing. The corrected step logs at least one attempt under "Verify your email address". |
| Email.FailedVerificationMailStuckAsWritten | lib/email/send.ts:190-211 | As written, a failed verification mail can never be resent: the call throws. The corrected resend appends rows. |
| Validation.MatchesPhoneIffShaped | lib/utils/validation.ts:7-9 | The phone pattern matches exactly an optional `+`, then a digit 1-9, then 1 to 14 digits. |
| Validation.ParseIssues | lib/utils/validation.ts:82-84 | A non-object body gets a single "Expected object, received …" issue at the root path. |
| Validation.ErrorMap | lib/utils/validation.ts:86-92 | The keys are exactly the dot-joined paths of the issues, and each message is that of the last issue at its path. |
| Validation.ValidateSchema | lib/utils/validation.ts:82-95 | Success exactly when parsing raised no issues, and then the data holds only the schema's keys; otherwise a non-empty error map. |
| Validation.LaterIssueWins | lib/utils/validation.ts:87-90 | Of two issues at the same path, the later one's message is kept. |
| Validation.PasswordRule | lib/utils/validation.ts:12-16 | A password field passes exactly when it has at least 6 UTF-16 code units, an ASCII letter and an ASCII digit. |
| Validation.ValidIff | lib/utils/validation.ts:82-95 | A body validates exactly when every field check and refinement holds. |
| Validation.PhoneField | lib/utils/validation.ts:7-9 | A phone field passes exactly when it is a string of phone shape. |
| Validation.SignUpFieldsIff | lib/utils/validation.ts:19-46 | The shared sign-up fields pass exactly when `fullName` has at least 2 UTF-16 code units, `role` is buyer, seller, sme or trainer, and `agree` is true. |
| Validation.SignUpEmailAccepts | lib/utils/validation.ts:19-31 | The email sign-up schema accepts exactly a valid email, a valid password, equal confirmation and the shared fields. |
| Validation.SignUpPhoneAccepts | lib/utils/validation.ts:34-46 | The phone sign-up schema accepts exactly a phone-shaped phone, a valid password, equal confirmation and the shared fields. |
| Validation.MismatchReportedAtConfirm | lib/utils/validation.ts:28-31 | A mismatched confirmation is reported at the `confirmPassword` path. |
| Validation.SignInEmailAccepts | lib/utils/validation.ts:49-52 | Email sign-in accepts exactly a valid email and a non-empty password. |
| Validation.SignInPhoneAccepts | lib/utils/validation.ts:55-58 | Phone sign-in accepts exactly a phone-shaped phone and a non-empty password. |
| Validation.VerifyOtpAccepts | lib/utils/validation.ts:61-64 | OTP verification accepts exactly a phone-shaped phone and a code of exactly 6 UTF-16 code units, digits or not. |
| Validation.EmojiCodePasses | lib/utils/validation.ts:61-64 | Three emoji are six UTF-16 code units, so they pass the code's length check. |
| Validation.ForgotPasswordAccepts | lib/utils/validation.ts:67-69 | Forgot-password accepts exactly a valid email. |
| Validation.ResetPasswordAccepts | lib/utils/validation.ts:72-79 | Reset accepts exactly a non-empty token, a valid password and an equal confirmation. |
| Errors.NewAuthError | lib/utils/errors.ts:1-10 | The error carries the given message and code, with status 400 unless another is given. |
| Errors.NewUnauthorized | lib/utils/errors.ts:19-24 | Code `UNAUTHORIZED`, status 401, default message "Unauthorized". |
| Errors.NewNotFound | lib/utils/errors.ts:26-31 | Code `NOT_FOUND`, status 404. |
| Errors.NewRateLimit | lib/utils/errors.ts:33-38 | Code `RATE_LIMIT_EXCEEDED`, status 429, default message "Too many requests". |
| Errors.SubclassStatusFollowsCode | lib/utils/errors.ts:12-38 | Every subclass error's status is the standard status of its code, a 4xx. |
| Errors.CodeDeterminesStatus | lib/utils/errors.ts:12-38 | Two subclass errors with the same code have the same status. |
| Responses.SuccessResponse | lib/utils/response.ts:4-13 | `success` is true; the data and message are carried; the status is the one given, 200 by default. |
| Responses.ErrorResponse | lib/utils/response.ts:15-41 | An `AuthError` gives its own code, message and status; any other error gives 500 `INTERNAL_ERROR` with a fixed message. |
| Responses.ValidationErrorResponse | lib/utils/response.ts:43-55 | Status 400, code `VALIDATION_ERROR`, the field map as details. |
| Responses.ValidationPathsAgree | lib/utils/response.ts:43-55 | A schema failure and a thrown `ValidationError` reach the client with the same code and status. |
| Responses.ErrorResponseStatus | lib/utils/response.ts:15-41 | The response to a subclass error has a 4xx status, the standard status of its code. |
| AuthConfig.LoadConfig | lib/auth/better-auth.ts:11-13 | The base URL is never empty; the secret is empty exactly when its variable is unset or empty. |
| AuthConfig.ValidateAuthConfig | lib/auth/better-auth.ts:31-43 | True exactly when the secret has at least 32 UTF-16 code units and the base URL is not empty. |
| AuthConfig.LoadedConfigFailsOnlyOnSecret | lib/auth/better-auth.ts:11-43 | A loaded configuration is valid exactly when the secret variable holds at least 32 UTF-16 code units. |
| AuthConfig.UnsetEnvironmentRejected | lib/auth/better-auth.ts:11-43 | With no variables set, validation fails. |
| AuthConfig.RedirectUriAsWritten | lib/auth/better-auth.ts:20 | With the URL variable unset, the callback starts with "undefined/api/auth/". |
| AuthConfig.RedirectUri | lib/auth/better-auth.ts:13-25 | The callback always starts with the loaded base URL followed by "/api/auth/". |
| AuthConfig.UnsetUrlBreaksRedirect | lib/auth/better-auth.ts:20-25 | With the URL variable unset and a long enough secret, validation passes, yet the written callback starts with "undefined/" while the corrected one starts with `http://localhost:3000/api/auth/`. |
| Middleware.Decide | middleware.ts:10-22 | Without a session, a path that is neither an auth page nor `/` goes to `/auth/signin`. With a session, an auth page goes to `/account`. Everything else passes. |
| Middleware.Route | middleware.ts:25-27 | Paths under `api`, `_next/static`, `_next/image` and `favicon.ico` pass untouched; others follow `Decide`. |
| Middleware.NoRedirectLoop | middleware.ts:10-22 | A redirect target never redirects again under the same session state. |
| Middleware.RootAlwaysReachable | middleware.ts:13-22 | `/` is never redirected. |
| Middleware.GuestAccess | middleware.ts:13-15 | Without a session, a path the matcher selects passes exactly when it is `/` or an auth page. |
| Middleware.AuthPrefixOvermatches | middleware.ts:10 | `/authors` counts as an auth page, so a signed-in visitor is sent to `/account`. |
| Middleware.ApiNeverRedirected | middleware.ts:25-27 | No `/api` path is redirected, whatever the session. |
| Store.FindAccount | app/api/auth/signin/route.ts:37-41 | The account found has the identifier in the method's column; when none is found, no account has it. |
| SignIn.RefuseCredentials | app/api/auth/signin/route.ts:43-79 | 401 "Invalid credentials". Exactly two rows are appended: a `failed_login` warning with the given description and empty metadata, then a `login` attempt for the given user id whose metadata is `{ success: false, reason }`. It counts once against the identifier. |
| SignIn.Admit | app/api/auth/signin/route.ts:81-147 | Suspended, deleted and deactivated accounts are refused with no session. An unverified method gets `needsVerification` and no session. Otherwise exactly one session and one `login` attempt are written; the attempt names the account and its metadata is `{ success: true }`. The answer omits the password hash. |
| SignIn.Authenticate | app/api/auth/signin/route.ts:31-147 | A limited identifier is refused before the lookup with nothing written. An unknown account, one without a password, and a wrong password are refused as `RefuseCredentials`. The logged reason is `user_not_found` for the first two and `invalid_password` for the third. Otherwise the answer is that of `Admit`. |
| SignIn.SignIn | app/api/auth/signin/route.ts:13-152 | A null body gives 500. An invalid body gives the validation response and writes nothing. A valid one proceeds as `Authenticate`. |
| SignIn.ValidBodyReachesAuthenticate | app/api/auth/signin/route.ts:19-31 | The method follows `body.phone` truthiness; the identifier and password come from the parsed body; `rememberMe` defaults to false. |
| SignIn.LoginRowRecordsSession | app/api/auth/signin/route.ts:43-119 | The last row a sign-in writes is a `login` attempt. Its metadata records success exactly when a session was created, and no session is created without such a row. |
| SignIn.FailuresIndistinguishable | app/api/auth/signin/route.ts:43-79 | An unknown account and a wrong password get the same response. |
| SignIn.FifthFailureLocksOut | app/api/auth/signin/route.ts:34-56 | After five refused sign-ins within fifteen minutes, the next request is refused by the limiter whatever password it carries. |
| SignIn.SessionLifetime | app/api/auth/signin/route.ts:107-111 | A successful sign-in's session lives a day without `rememberMe` and thirty days with it. |
| SignUp.RoleNamesRoundTrip | app/api/auth/signup/route.ts:66 | Every role's name is admitted by the schema and reads back as that role. |
| SignUp.NewAccount | app/api/auth/signup/route.ts:57-67 | The new account is pending and unverified, with roles `[role]`, no logins, an id no account has, the given digest, and exactly one of email or phone set (the method's). |
| SignUp.ConfirmByPhone | app/api/auth/signup/route.ts:76-92 | The OTP limiter's error is rethrown; a failed SMS gives 500 `OTP_SEND_FAILED`; the account stays either way. |
| SignUp.ConfirmByEmailAsWritten | app/api/auth/signup/route.ts:93-96 | As written, the email branch answers 500 and writes nothing more. The account and the `signup` attempt stay, and no token is stored. |
| SignUp.ConfirmByEmail | app/api/auth/signup/route.ts:93-127 | With the exported token helper: exactly one token row for the email is appended, expiring in 24 hours, whose bcrypt-shaped digest verifies the mailed plaintext; nothing else changes. A mail step that throws gives 500; otherwise the answer is 201. |
| SignUp.Enroll | app/api/auth/signup/route.ts:56-73 | Only the account table and the log change. The account is appended. Exactly one `signup` row is appended; it names the account, records the method and the role's name, and counts once more against the identifier. |
| SignUp.Confirm | app/api/auth/signup/route.ts:75-128 | The verification step adds no account and no session. It keeps the rows already logged and counts no `signup` attempt. A phone sign-up leaves the link table alone, and an email sign-up leaves the code table alone. |
| SignUp.CreateAccount | app/api/auth/signup/route.ts:53-128 | Exactly one pending account is added, with an id no account had, and its digest verifies the password. The first new log row is the account's `signup` attempt, recording the method and the role, and it counts once against the identifier. Only the method's own table gains a row, and no session is created. |
| SignUp.Register | app/api/auth/signup/route.ts:34-128 | A limited identifier gets 429 with nothing written. A taken identifier gets a validation error with nothing written. Otherwise exactly one pending account is added, whose digest verifies the password, and exactly one more `signup` attempt counts against the identifier. That attempt is the first row written; it names the new account, and its metadata holds the method (`phone` or `email`) and the role's name. Only the method's own table gains a row, and no session is created. |
| SignUp.EmailSignUpFailsAsWritten | app/api/auth/signup/route.ts:34-132 | As written, an email sign-up that passes the limiter and the existence check adds the pending account but no token, and answers 500. |
| SignUp.EmailSignUpIssuesLink | app/api/auth/signup/route.ts:34-127 | With the exported helper and the corrected mail import, the same sign-up stores one link row for the email, which verifies the mailed token, and answers 201. |
| SignUp.EmailSignUpMailThrowsAsWritten | app/api/auth/signup/route.ts:93-132 | With the helper exported but the mail call as written, the sign-up stores the account and the link row and still answers 500. |
| SignUp.SignUp | app/api/auth/signup/route.ts:15-133 | A null body gives 500. An invalid body gives the validation response and writes nothing. A valid one proceeds as `Register`. |
| SignUp.TakenIdentifierRefused | app/api/auth/signup/route.ts:39-51 | A sign-up for an identifier already in use fails and writes nothing. |
| SignUp.SecondSignUpRefused | app/api/auth/signup/route.ts:39-51 | Once a sign-up created its account, a second one with the same identifier is refused and changes nothing. |
| VerifyEmail.FindTokenAsWritten | app/api/auth/verify-email/route.ts:24-26 | The row found has a `token` column equal to the link's plaintext; when none is found, no row has it. |
| VerifyEmail.FindTokenByDigest | app/api/auth/verify-email/route.ts:24-26 | The row found has a digest the link's plaintext verifies; when none is found, no row's digest does. |
| VerifyEmail.Spend | app/api/auth/verify-email/route.ts:67-69 | Every record with the spent record's key goes and every other record stays. |
| VerifyEmail.Redeem | app/api/auth/verify-email/route.ts:34-96 | An expired record is deleted with `expired_token` and no account touched. No account gives `user_not_found` and keeps the token. Otherwise the account is activated and the record spent whatever follows. The redirect is `/postauth?verified=true` exactly when the mail step returned (the corrected import) and a 1-day session for the account was created; otherwise it is `verification_failed` with no session. |
| VerifyEmail.WelcomeMailThrowsAsWritten | app/api/auth/verify-email/route.ts:71-96 | As written the welcome-mail call throws, so no request ever gets the verified redirect and no session is created. |
| VerifyEmail.IssuedLinkFailsAfterActivatingAsWritten | app/api/auth/verify-email/route.ts:57-96 | As written, a mailed link followed within the day (under the digest lookup) activates the account and spends its record, yet answers `verification_failed` with no session. |
| VerifyEmail.VerifyEmailAsWritten | app/api/auth/verify-email/route.ts:11-102 | A missing token or an unmatched one gives `invalid_token` and changes nothing; a matched one proceeds as `Redeem`. |
| VerifyEmail.VerifyEmail | app/api/auth/verify-email/route.ts:11-102 | As `VerifyEmailAsWritten`, but with the record found by its digest. |
| VerifyEmail.AsWrittenNeverVerifies | app/api/auth/verify-email/route.ts:24-32 | If every stored token is a bcrypt digest, a hex link always gives `invalid_token` and changes nothing. |
| VerifyEmail.IssuedLinkRefusedAsWritten | app/api/auth/resend-verification/route.ts:49-57 | The link that resend issues is refused by the handler as written. Sign-up's link, once its token helper resolves, is refused the same way. |
| VerifyEmail.IssuedLinkActivates | app/api/auth/verify-email/route.ts:24-69 | Under the digest lookup, the mailed link followed within a day activates its account and spends the record. |
| VerifyEmail.UnmatchedLinkRefused | app/api/auth/verify-email/route.ts:28-32 | A link that no stored row verifies is refused and changes nothing. |
| ResendVerification.Reissue | app/api/auth/resend-verification/route.ts:44-57 | The new row is last and is the only row of the email; rows of other emails stay exactly as they were. |
| ResendVerification.SendLink | app/api/auth/resend-verification/route.ts:44-82 | The email's tokens are replaced by one day-long row whose digest verifies the mailed link; exactly one `email` attempt is logged when the mail step returns (the corrected import), none when it throws. That attempt names the account, and its metadata is `{ action: 'resend_verification' }`. |
| ResendVerification.ResendTo | app/api/auth/resend-verification/route.ts:22-82 | A limited address is refused before the lookup; an unknown one gives 404; a verified one gets a success message with nothing written; otherwise it proceeds as `SendLink`. |
| ResendVerification.Resend | app/api/auth/resend-verification/route.ts:13-86 | The body is validated as `{email}` before anything else: an invalid one gets the validation response and writes nothing, a valid one proceeds as `ResendTo`. Accounts, sessions and codes never change. |
| ResendVerification.Reissued | app/api/auth/resend-verification/route.ts:44-57 | After a resend that reaches the token step, the table holds the other emails' rows plus the one new row, and accounts are unchanged. |
| ResendVerification.ResendToAsWritten | app/api/auth/resend-verification/route.ts:22-82 | As written, the security log never changes and the only success is the already-verified message; an unverified account's tokens are replaced by a row verifying the new link, and the answer is 500. |
| ResendVerification.ResendsNeverLimitedAsWritten | app/api/auth/resend-verification/route.ts:22-82 | As written, any number of resends for an address the limiter admits leave the log as it was, so the address stays admitted. |
| ResendVerification.ResentLinkActivates | app/api/auth/resend-verification/route.ts:44-82 | A resent link followed within a day activates the account under the digest lookup. |
| ResendVerification.OtherLinkRejected | app/api/auth/resend-verification/route.ts:49-57 | A link from other random bytes never verifies against the row issued for these. |
| ResendVerification.ResendRevokesEarlierLink | app/api/auth/resend-verification/route.ts:44-46 | After a second resend, the first link verifies against no stored row and is refused. |
| SignOut.SignOut | app/api/auth/signout/route.ts:7-28 | Without a cookie, "No active session" and nothing changes. With one, its sessions are revoked (never removed), other sessions are unchanged, the cookie is cleared, and the answer is "Signed out successfully". |
| SignOut.SignedOutCookieRejected | app/api/auth/signout/route.ts:16 | After sign-out, the cookie's token is rejected by every later `getSession`. |
| SignOut.SignOutTwice | app/api/auth/signout/route.ts:16 | Signing out twice leaves the same sessions as once, apart from the second revocation stamp. |

## Left out

- The React UI, client hooks and pages: presentation only.
- Email templates under `lib/email/templates/`: static markup. Only the subject choice and whether the component loads are modelled.
- The SMTP client (`lib/email/client.ts`) and the Twilio client (`lib/sms/client.ts`): network I/O. They are a per-attempt outcome sequence and a boolean verdict.
- `lib/security/logger.ts` and the activity log: a write-only side channel the core never reads, modelled as a no-op.
- `lib/auth/auth.ts`: configuration of the external auth library. The middleware takes "a session is present" as a boolean input.
- The cookie helpers of `lib/auth/session.ts:174-200`: framework plumbing. Sign-out's clearing of the cookie is a flag in the answer.
- `app/api/auth/session/route.ts`: a pass-through to `getCurrentUser`, which is modelled.
- Parsing of the request body: handlers take the parsed JSON value. A `null` body is modelled (it makes `body.phone` throw, giving 500); malformed JSON text is not.
- Database faults other than the ones modelled (a duplicate token or a missing account on session creation): the model assumes Prisma calls succeed.
- `sendEmailWithLogging`, which `lib/email/send.ts` does not export: as written every call throws (`Store.MailAsWritten`, a Findings row below). With the import corrected, only whether the call returns or throws is modelled, not what it writes to the email log.
- `generateTokenWithHash`, which the sign-up route imports but `lib/auth/tokens.ts` does not export: as written its call throws (`SignUp.ConfirmByEmailAsWritten`); the corrected branch uses `generateVerificationToken`. A build that type-checks would refuse the import instead; the model follows a build that does not.
- Record ids: Prisma's string ids are natural numbers here, fresh ones chosen above every existing id.
- Time, random bytes and `Math.random()` are parameters. A handler's several `new Date()` calls read one `now`.
- bcrypt, sha256 and the user-agent parser are supplied functions, and zod's email regex is a supplied predicate. `hashToken` and `verifyToken` are the bcrypt oracle.
- The retry delays are recorded values; no waiting happens.
- Concurrency and transactions: each handler is one sequential transition.
- Email.SendEmailWithRetry: the `updatedAt` column is not modelled.
- Sessions.RefreshSession: `extendBy` is a JavaScript number, but the model's hours are whole numbers; a fractional extension is not modelled. The default of 24 hours is `Sessions.RefreshSessionByDefault`.
- Otp.SendOtp: the catch-all branch for a failing database write (lines 76-82) is not modelled; only the limiter's error is thrown.
- Otp.VerifyOtp: the catch-all branch for a failing database call (lines 78-86) is not modelled.
- Validation.ParseIssues: zod's issues are modelled as one per failing check, field by field in schema order; the wording of zod's built-in type and enum messages follows zod's format but is not part of any property.

## Findings

| source | as written | input that shows it | evidently intended | confidence | as-written member | corrected member |
|---|---|---|---|---|---|---|
| app/api/auth/verify-email/route.ts:24-26 | The record is looked up where the `token` column equals the link's plaintext, but sign-up (app/api/auth/signup/route.ts:98-104) and resend (app/api/auth/resend-verification/route.ts:49-57) store the bcrypt digest in that column. | Any link that resend issues (mailed once the mail import resolves; sign-up's once its token helper resolves too): the 64-hex plaintext never equals a digest that starts with `$`, so the answer is always `invalid_token`. | Find the record whose stored digest the plaintext verifies, and delete that record by its own key. | not executed | VerifyEmail.VerifyEmailAsWritten | VerifyEmail.VerifyEmail |
| lib/auth/better-auth.ts:20-25 | The OAuth redirect URIs are built from the raw `BETTER_AUTH_URL`, not the defaulted base URL of line 13. | With `BETTER_AUTH_URL` unset, the Google callback is "undefined/api/auth/google/callback". | Build the callbacks from the defaulted base URL, `http://localhost:3000` when unset. | not executed | AuthConfig.RedirectUriAsWritten | AuthConfig.RedirectUri |
| lib/email/send.ts:133 | The verification template is loaded with the named import `{ VerificationEmail }`, but lib/email/templates/verification-email.tsx:21 exports the component only as `default`. The binding is `undefined`, and calling it throws before `sendEmailWithRetry` runs. | Any `sendTemplatedEmail` call with verification data: it throws and logs nothing. `resendFailedEmail` of a failed verification row throws too. | Import the `default` export, as the other three templates do. | not executed | Email.SendTemplatedEmailAsWritten | Email.SendTemplatedEmail |
| app/api/auth/signup/route.ts:4 | The route imports `generateTokenWithHash`, which lib/auth/tokens.ts does not export, and calls it at line 95. | Any email sign-up that passes the limiter and the existence check: the call throws, the catch answers 500, and the account stays without a token or a mail. | Call `generateVerificationToken`, which returns the same `{ token, hash }` pair. | not executed | SignUp.ConfirmByEmailAsWritten | SignUp.ConfirmByEmail |
| app/api/auth/resend-verification/route.ts:8 | The resend, sign-up and verify-email routes import `sendEmailWithLogging` (also app/api/auth/signup/route.ts:10 and app/api/auth/verify-email/route.ts:7), but lib/email/send.ts exports only `sendEmailWithRetry`, `sendTemplatedEmail` and `resendFailedEmail`. The binding is `undefined`, so every call throws. | A resend for an unverified account: the tokens are replaced, the answer is 500, and the `email` attempt at line 74 is never logged, so resends are never limited. A verified link: the account is activated but the redirect is `verification_failed` with no session. | Import a sender that logs and delivers the mail, such as `sendEmailWithRetry`, so that the handlers continue past the call. | not executed | ResendVerification.ResendToAsWritten | ResendVerification.ResendTo |

Behaviours that follow from the code as written and that the model keeps:

- `hasValidOTP` treats a code as live only strictly before its expiry, while `verifyOTP` still accepts it at the exact expiry instant (`Otp.ExpiryBoundaryDisagreement`).
- The middleware's `/auth` prefix test also matches `/authors` (`Middleware.AuthPrefixOvermatches`).
- Device ids collide for distinct user-agent and IP pairs with the same joined string (`Fingerprint.DistinctPairsCanCollide`).
- The rate limiter matches identifiers by substring, so it over-counts (`RateLimit.AttemptCountsForContainedIdentifier`).
- `sendTemplatedEmail` ignores its `type` argument (`Email.TemplateTypeIgnored`).
- The comment in the resend route describes one resend per five minutes, but the `email` limit it uses is five per hour. The model follows the code.
