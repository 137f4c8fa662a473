# contabilidade: request admission and credentials, in Dafny

This project models the request-admission and credential layer of the
`contabilidade` Cloudflare Worker API: the fixed-window rate limiter, the
token and password helpers, the authentication and role guards, the four
authentication endpoints (login, register, refresh, me), and the pure
helpers that format Brazilian phone numbers, prepare contact submissions,
validate and clean testimonials and name uploaded images.

Everything is pure and functional. The clock (`Date.now()`), the random
numbers (`Math.random()`), the JWT library (`sign`, `verify`, payload
decoding) and SHA-256 are parameters. The library and the digest are
function-valued fields of `TokenService.Env`, so no property relies on
their behaviour except where a lemma states an assumption about them in its
`requires`. The D1 database becomes a sequence of rows (`UserSchema.UserTable`)
whose `.first()` is the first matching row; a database failure is a single
`storeDown` flag in the handler's context.

Modules, one per source file or group of files:

- `Base`: `Option`, decimal digits, `String(n)` and decimal parsing.
- `UserSchema`: roles, user rows, table lookups, the registration and
  login field rules, the response shape without `senha`.
- `TokenService`: bearer-header parsing, access and refresh claims,
  verification control flow, hex digest encoding, password check.
- `RateLimiting`: the per-client fixed window and the periodic cleanup.
- `AuthMiddleware`: `authMiddleware`, `requireRole`,
  `optionalAuthMiddleware`, `getCurrentUser`, `hasRole`, `hasAnyRole`.
- `AuthHandlers`: the login, register, refresh and me handlers.
- `Contatos`: `formatarTelefone`, the contact status names,
  `beforeCreate`.
- `Testimonials`: `validateRating`, `sanitizeMessage`.
- `ImageUpload`: `validateImageFile`, `generateUniqueFileName`,
  `uploadImage`.

Three behaviours of the code are easy to misread:

- `verifyJWT` never looks at the `type` claim, so a validly signed refresh
  token is accepted as an access token by the middleware and by `/me`.
  `TokenService.RefreshTokenPassesAccessVerifier` states this.
- `hashPassword` digests `(password + SALT_ROUNDS) || 'default_salt'`,
  because `+` binds tighter than `||`. An unset variable therefore appends
  the text `undefined`, and the fallback is used only when both parts are
  empty. `TokenService.HashInput` states this. The second argument that
  `register.ts` passes is ignored.
- `formatarTelefone` removes a leading `55` before counting digits. An
  eleven-digit number with area code 55 and no country code is therefore
  returned unformatted. `Contatos.AreaCode55LeftUnformatted` states this.

## Model

| member | source | states |
|---|---|---|
| Base.NatToString | src/endpoints/auth/refresh.ts:96 | `id.toString()` is a non-empty digit string with no leading zero (only `0` renders as `"0"`) |
| Base.ParseDecimal | src/middleware/auth.ts:51 | a string reads as a number iff it is a non-empty run of decimal digits, and then the number is the value of those digits |
| Base.ParseDecimalRoundTrip | src/middleware/auth.ts:51 | parsing the decimal rendering of any natural number gives that number back |
| Base.NatToStringInjective | src/endpoints/auth/refresh.ts:96 | two numbers render to the same string exactly when they are equal |
| RateLimiting.ClientIp | src/middleware/rateLimiting.ts:13-16 | the client is the first present, non-empty one of `cf-connecting-ip`, `x-forwarded-for`, `x-real-ip`, else `unknown`; never empty |
| RateLimiting.ClientKey | src/middleware/rateLimiting.ts:19 | the key is `rate_limit:` followed by exactly the client address |
| RateLimiting.ClientKeySeparatesClients | src/middleware/rateLimiting.ts:13-19 | two requests share a counter exactly when they name the same client |
| RateLimiting.Admit | src/middleware/rateLimiting.ts:27-57 | the key gains an entry and no other entry changes; a missing or expired window restarts at count 1 ending `now + windowMs`; a live window (inclusive of `resetTime`) counts one more with the same end; the request is refused iff the stored count exceeds the maximum, and is counted even then; an admitted request reports `remaining = max - count >= 0` with the limit and the window end |
| RateLimiting.Cleanup | src/middleware/rateLimiting.ts:67-73 | exactly the expired windows are removed, all others kept unchanged |
| RateLimiting.CleanupIdempotent | src/middleware/rateLimiting.ts:67-73 | sweeping twice at one instant is sweeping once |
| RateLimiting.RateLimiter | src/middleware/rateLimiting.ts:11-57 | the whole step: the client's key always ends up in the table; without a sweep it is one admission; with a sweep it is exactly an admission into the swept table; a sweep at the request's own instant never changes the verdict; other keys are kept, or removed only when the sweep finds them expired |
| RateLimiting.CleanupCommutesWithAdmit | src/middleware/rateLimiting.ts:22-41 | sweeping before or after an admission at the same instant gives the same verdict and the same table |
| RateLimiting.AdmitCommutes | src/middleware/rateLimiting.ts:27-41 | requests from two different clients at one instant do not interfere, in either order |
| RateLimiting.RequestsTouchOnlyTheirKey | src/middleware/rateLimiting.ts:27-41 | a whole run from one client leaves every other client's entry as it was |
| RateLimiting.LiveWindowRun | src/middleware/rateLimiting.ts:29-44 | within a live window the i-th further request is counted `count + i + 1` and is admitted iff that count is within the maximum |
| RateLimiting.FreshWindowRun | src/middleware/rateLimiting.ts:29-44 | a run starting on a missing or expired window counts 1, 2, 3, ... and admits exactly the first `max` requests |
| RateLimiting.DefaultPolicyScenario | src/middleware/rateLimiting.ts:11-51 | with the defaults 5 and 60000, six requests in a window give five admissions and a refusal, and the first request after the window is admitted with count 1 |
| TokenService.SubjectId | src/middleware/auth.ts:51 | the id bound for a subject: a number is used as is, a digit string selects the value of its digits, and anything else selects nothing |
| TokenService.SubjectIdOfRenderedId | src/endpoints/auth/refresh.ts:96 | a subject written as `String(id)` selects the row with that id |
| TokenService.ExtractTokenFromHeader | src/utils/auth.ts:76-81 | a token is found iff the header is present and starts with the case-sensitive `Bearer `, and the header is then exactly `Bearer ` followed by the token |
| TokenService.ExtractTokenRoundTrip | src/utils/auth.ts:80 | `Bearer ` followed by any token, the empty one included, gives that token back |
| TokenService.ExtractTokenRejects | src/utils/auth.ts:77-78 | a lower-case scheme, a bare `Bearer` and an empty header give no token |
| TokenService.UnixSeconds | src/utils/auth.ts:41 | the whole seconds of the millisecond clock, rounded down |
| TokenService.AccessPayload | src/utils/auth.ts:36-46 | the access claims copy `sub`, `email` and `role` unchanged, carry no `type`, take `iat` from the clock and set `exp = iat + expiresIn` |
| TokenService.RefreshPayload | src/utils/auth.ts:89-99 | the refresh claims are exactly `sub = userId`, `type = "refresh"`, `iat` from the clock and `exp = iat + 2592000` |
| TokenService.GenerateJWT | src/utils/auth.ts:36-49 | with a library that decodes what it signs, the token reads back as the given `sub`, `email` and `role`, no `type`, `iat` from the clock and `exp = iat + expiresIn` |
| TokenService.GenerateRefreshToken | src/utils/auth.ts:89-102 | with a library that decodes what it signs, the token reads back as `sub = userId`, `type = "refresh"`, no e-mail or role, `iat` from the clock and a 30-day `exp` |
| TokenService.AccessAndRefreshPayloadsDiffer | src/utils/auth.ts:90-99 | access and refresh claims always differ in `type` |
| TokenService.VerifyJWT | src/utils/auth.ts:57-69 | a payload is returned iff the library accepts the signature and the payload decodes, and it is the decoded payload; every failure is `null` |
| TokenService.VerifyRefreshToken | src/utils/auth.ts:110-123 | a subject is returned iff the signature is accepted, the payload decodes and its `type` is `refresh`, and it is that payload's `sub` |
| TokenService.RefreshTokenPassesAccessVerifier | src/utils/auth.ts:57-64 | whatever the refresh verifier accepts, the access verifier accepts too, `type` and all |
| TokenService.AccessTokenFailsRefreshVerifier | src/utils/auth.ts:110-118 | an access token is never accepted as a refresh token, given that the library decodes what it signs |
| TokenService.RefreshRoundTrip | src/utils/auth.ts:89-123 | a refresh token the library accepts gives back the user id it was issued for |
| TokenService.ByteToHex | src/utils/auth.ts:15 | `b.toString(16).padStart(2, '0')` is the high and the low hex digit of the byte |
| TokenService.HexEncode | src/utils/auth.ts:14-15 | the digest renders as two lower-case hex characters per byte |
| TokenService.HexRoundTrip | src/utils/auth.ts:14-15 | the hex rendering decodes back to the digest bytes |
| TokenService.HexEncodeInjective | src/utils/auth.ts:14-15 | different digests never render alike |
| TokenService.HashInput | src/utils/auth.ts:12 | the digested text is never empty: the password followed by the salt setting, `undefined` when unset; it is `default_salt` exactly when both are empty |
| TokenService.HashPassword | src/utils/auth.ts:9-16 | the stored hash is lower-case hex, twice as long as the digest, and decodes to the SHA-256 of the digested text |
| TokenService.VerifyPassword | src/utils/auth.ts:24-27 | a match means the stored text decodes to the digest of this password |
| TokenService.VerifyOwnHash | src/utils/auth.ts:24-27 | every password matches its own hash |
| TokenService.VerifyPasswordMeansSameDigest | src/utils/auth.ts:9-27 | a password matches another's hash exactly when both digest inputs have the same SHA-256 |
| UserSchema.RoleName | src/endpoints/auth/base.ts:24 | each role's name parses back to that role |
| UserSchema.ParseRole | src/endpoints/auth/base.ts:24-26 | exactly `admin`, `user` and `viewer` are roles |
| UserSchema.ToView | src/endpoints/auth/base.ts:36 | the response object copies every column of the row except `senha` |
| UserSchema.ToViewForgetsOnlySenha | src/endpoints/auth/base.ts:36 | two rows look alike in a response exactly when they differ at most in `senha` |
| UserSchema.FindByEmail | src/endpoints/auth/login.ts:91-93 | the row found has the e-mail and is in the table; none is found iff no row has it |
| UserSchema.FindById | src/middleware/auth.ts:49-51 | the row found has the id and is in the table; none is found iff no row has it |
| UserSchema.FindActiveById | src/endpoints/auth/refresh.ts:78-80 | the row found has the id and is active; none is found iff no active row has the id |
| UserSchema.FindActiveByIdIsFilteredFindById | src/middleware/auth.ts:49-71 | with unique ids, selecting `active = 1` in SQL is selecting by id and testing `active` afterwards |
| UserSchema.FirstLine | src/endpoints/auth/base.ts:23 | the part of a password a `.*` lookahead can see: a prefix without line terminators, ended by one or by the end |
| UserSchema.PatternOnSingleLine | src/endpoints/auth/base.ts:23 | on a one-line password the pattern holds iff there is a lower-case letter, an upper-case letter and a digit |
| UserSchema.PatternHoldsOfWhole | src/endpoints/auth/base.ts:23 | a password passing the pattern has all three classes |
| UserSchema.DigitAfterLineBreakIsRejected | src/endpoints/auth/base.ts:21-23 | `Abcdefgh` then a newline then `1` is long enough and has a digit, and is still refused |
| UserSchema.ValidateRegister | src/endpoints/auth/base.ts:18-27 | a body is valid iff the name has 2..100 characters, the e-mail has at most 255 and passes the e-mail check, the password has at least 8 characters and passes the strength pattern, and the role is known or absent (then `user`); the values are copied from the body; an invalid one names exactly the failing fields |
| UserSchema.ValidateLogin | src/endpoints/auth/base.ts:30-33 | valid iff the e-mail passes the e-mail check and the password is non-empty, with no strength rule |
| UserSchema.RegisteredCredentialsPassLogin | src/endpoints/auth/base.ts:18-33 | whatever registration accepts, login's field rules accept |
| AuthMiddleware.Authenticate | src/middleware/auth.ts:8-85 | only 401s; no usable token iff `MISSING_TOKEN`; a token the verifier refuses iff `INVALID_TOKEN`; missing or inactive user iff `USER_NOT_FOUND`; a verified token whose subject selects an active row always continues with that row; otherwise the request continues with the user as the table holds it, active |
| AuthMiddleware.MissingTokenConsultsNothing | src/middleware/auth.ts:14-29 | without a token the reply is the same whatever the verifier and the table |
| AuthMiddleware.AttachedUserComesFromTable | src/middleware/auth.ts:48-84 | claims other than `sub` have no effect on the outcome |
| AuthMiddleware.DeactivatedAccountRefused | src/middleware/auth.ts:59-71 | a token that still verifies for a deactivated account gets `USER_NOT_FOUND` |
| AuthMiddleware.RequireRole | src/middleware/auth.ts:91-130 | no user iff 401 `NOT_AUTHENTICATED`, checked first; otherwise granted iff the role is listed, else 403 `INSUFFICIENT_PERMISSIONS` |
| AuthMiddleware.OptionalAuthenticate | src/middleware/auth.ts:136-184 | never answers; attaches a user only when a token is present and verifies, the store works and an active row is selected, and then it is that row |
| AuthMiddleware.OptionalAgreesWithMandatory | src/middleware/auth.ts:136-184 | with unique ids and a working store, the optional guard attaches exactly what the mandatory guard would and nothing when it would refuse |
| AuthMiddleware.GetCurrentUser | src/middleware/auth.ts:189-191 | the attached user when there is one, `null` otherwise |
| AuthMiddleware.HasRole | src/middleware/auth.ts:196-199 | true iff a user is attached and its role is the one asked for |
| AuthMiddleware.HasAnyRole | src/middleware/auth.ts:204-207 | true iff a user is attached and its role is in the list, so never for an empty list |
| AuthMiddleware.HasRoleIsSingletonHasAnyRole | src/middleware/auth.ts:189-207 | `hasRole(r)` is `hasAnyRole([r])`, and a list holds iff one of its roles does |
| AuthMiddleware.RequireRoleMatchesHasAnyRole | src/middleware/auth.ts:91-130 | the role guard grants exactly when `hasAnyRole` holds for its list |
| AuthHandlers.IssueFor | src/endpoints/auth/login.ts:133-166 | the reply carries the row without `senha`, an access token over the row's e-mail and role with a 24-hour lifetime, and a refresh token for the row's id, all at one instant |
| AuthHandlers.Login | src/endpoints/auth/login.ts:84-189 | checks in order: invalid body 400; store failure 500; unknown e-mail 401 `Credenciais inválidas`; inactive 403; wrong password the same 401; and a valid body for an active row whose password matches gets 200 with the row and tokens whose `sub` is the numeric id |
| AuthHandlers.InactiveRefusedWhateverPassword | src/endpoints/auth/login.ts:106-114 | an inactive account gets the same 403 whatever password is sent |
| AuthHandlers.UnknownEmailLooksLikeWrongPassword | src/endpoints/auth/login.ts:95-130 | an unknown e-mail and a wrong password get the very same reply |
| AuthHandlers.LoginTokenClaims | src/endpoints/auth/login.ts:133-146 | the access token decodes to the row's id, e-mail and role with no `type` and a 24-hour lifetime; the refresh token to the same id |
| AuthHandlers.NewRow | src/endpoints/auth/register.ts:91-103 | the inserted row has the validated fields, the password digest instead of the password, and `active` set |
| AuthHandlers.Register | src/endpoints/auth/register.ts:69-175 | invalid body 400; store failure 500; e-mail taken 409 with the table unchanged; failed insert 500 with the table unchanged; an insert whose row the follow-up SELECT does not find 500 with the new row kept; and a valid body with a free e-mail, a successful insert and a found row appends exactly the new row and gets 201 with tokens for it |
| AuthHandlers.RegisterReturnsInsertedRow | src/endpoints/auth/register.ts:91-153 | with a fresh row id the reply describes the inserted row, active, with the validated role, and the stored password is the digest |
| AuthHandlers.RegisterThenLogin | src/endpoints/auth/register.ts:69-175 | logging in right after registering with the same e-mail and password succeeds with the same user and tokens |
| AuthHandlers.Refresh | src/endpoints/auth/refresh.ts:56-150 | a missing token 400; a token the refresh verifier refuses, or a falsy subject, 401 before any lookup; then store failure iff 500; no active row for the subject iff 401; and an active row gets 200 with tokens whose `sub` is the id as a string |
| AuthHandlers.RefusedRefreshConsultsNoTable | src/endpoints/auth/refresh.ts:62-75 | a refused refresh token gets the same 401 whatever the table holds |
| AuthHandlers.Me | src/endpoints/auth/me.ts:54-126 | no usable token 401; refused token 401; store failure, or a verified payload without `sub` (which the store refuses to bind), iff 500; otherwise no active row 401; and an active row for the subject gets 200 with that row without `senha` |
| AuthHandlers.LoginThenMe | src/endpoints/auth/login.ts:133-166 | an access token from login, while the library accepts it, returns the same user from `/me` |
| AuthHandlers.RefreshThenMe | src/endpoints/auth/refresh.ts:94-126 | an access token from refresh, whose subject is a string, selects the same user at `/me` |
| AuthHandlers.MeRefusesDeactivated | src/endpoints/auth/me.ts:84-96 | a token that still verifies for a deactivated account gets a 401 |
| Contatos.OnlyDigits | src/endpoints/contatos/base.ts:84 | removing non-digits leaves only digits and never lengthens |
| Contatos.LayoutKeepsDigits | src/endpoints/contatos/base.ts:90-93 | the two layouts match their masks and contain exactly the national digits |
| Contatos.FormatarTelefone | src/endpoints/contatos/base.ts:82-97 | 11 national digits give a 15-character `(AA) NNNNN-NNNN`, 10 give a 14-character `(AA) NNNN-NNNN`, both with exactly those digits; any other count returns the input |
| Contatos.FormatarTelefoneIdempotent | src/endpoints/contatos/base.ts:82-97 | formatting twice is formatting once |
| Contatos.AreaCode55LeftUnformatted | src/endpoints/contatos/base.ts:87-96 | eleven digits starting with 55 lose them as a country code and are returned as given |
| Contatos.StatusName | src/endpoints/contatos/base.ts:41 | every status name parses back to its status |
| Contatos.ParseStatus | src/endpoints/contatos/base.ts:40-44 | exactly `novo`, `em_andamento`, `respondido`, `finalizado` are accepted |
| Contatos.BeforeCreate | src/endpoints/contatos/contatoCreate.ts:29-47 | refused with the service message iff no active service has the id; otherwise the phone is formatted, the status forced to `novo`, every other field kept |
| Contatos.BeforeCreateIdempotent | src/endpoints/contatos/contatoCreate.ts:29-47 | preparing a prepared record again, with any client status, gives the same record |
| Testimonials.ValidateRating | src/endpoints/testimonials/base.ts:66-68 | a rating passes iff it is one of 1, 2, 3, 4, 5 |
| Testimonials.TrimStart | src/endpoints/testimonials/base.ts:74 | a suffix of the input that does not start with white space, all removed characters being white space |
| Testimonials.TrimEnd | src/endpoints/testimonials/base.ts:74 | a prefix of the input that does not end with white space, all removed characters being white space |
| Testimonials.Trim | src/endpoints/testimonials/base.ts:74 | the trimmed text neither starts nor ends with white space |
| Testimonials.TrimIsInnerSlice | src/endpoints/testimonials/base.ts:74 | the trimmed text is a contiguous part of the input with only white space around it, and is empty iff the input is all white space |
| Testimonials.SpacedWordsShape | src/endpoints/testimonials/base.ts:73-75 | the words joined by single spaces neither start nor end with white space and hold only single plain spaces |
| Testimonials.Collapse | src/endpoints/testimonials/base.ts:74 | each white-space run becomes one plain space: the result is the words of the input joined by single spaces, with one space in front when the input starts with white space and one behind when it ends with white space after a word |
| Testimonials.CollapseShape | src/endpoints/testimonials/base.ts:74 | nothing is lengthened, only the empty input collapses to empty, the ends are white space exactly where the input's are, and every space left is a single plain one |
| Testimonials.CollapseOfTrimmed | src/endpoints/testimonials/base.ts:74 | without white space at either end, collapsing gives exactly the words joined by single spaces |
| Testimonials.SanitizeMessage | src/endpoints/testimonials/base.ts:73-75 | the result is the words of the message joined by single plain spaces, so no white space at either end and only single spaces inside |
| Testimonials.SpacedWordsOfTrim | src/endpoints/testimonials/base.ts:74 | trimming first does not change the words |
| Testimonials.SanitizeKeepsVisible | src/endpoints/testimonials/base.ts:74 | the non-white-space characters are kept, in order, and none are added |
| Testimonials.SanitizeIdempotent | src/endpoints/testimonials/base.ts:73-75 | sanitizing twice is sanitizing once |
| Testimonials.SpacedWordsFixesTidy | src/endpoints/testimonials/base.ts:73-75 | a text with no white space at its ends and only single plain spaces is its own words joined by spaces |
| Testimonials.SanitizeBlank | src/endpoints/testimonials/base.ts:74 | a message of white space only becomes empty |
| ImageUpload.ValidateImageFile | src/utils/imageUpload.ts:17-35 | valid iff the type is one of the four image types and the size is at most 5 MiB; a wrong type gets the type message whatever the size; a right type that is too large gets the size message |
| ImageUpload.SizeBoundary | src/utils/imageUpload.ts:27-32 | 5242880 bytes pass and 5242881 do not |
| ImageUpload.SmallerFileStillValid | src/utils/imageUpload.ts:17-35 | a smaller file of an accepted type is accepted too |
| ImageUpload.AfterLastDot | src/utils/imageUpload.ts:43 | `split('.').pop()` is a dot-free suffix, preceded by a dot unless it is the whole name |
| ImageUpload.Extension | src/utils/imageUpload.ts:43 | never empty and dot-free, lower-case; `jpg` when the name ends in a dot, else the lower-cased text after the last dot |
| ImageUpload.GenerateUniqueFileName | src/utils/imageUpload.ts:40-45 | the name is `testimonial_`, the decimal timestamp, `_`, the random string, a dot and the extension, with each part at its place |
| ImageUpload.GeneratedNameKeepsExtension | src/utils/imageUpload.ts:40-45 | the generated name ends in the original's extension, and reading its extension again gives the same one |
| ImageUpload.DistinctTimestampsDistinctNames | src/utils/imageUpload.ts:40-45 | two different timestamps always give different names, whatever the random strings |
| ImageUpload.BaseUrlOrDefault | src/utils/imageUpload.ts:73 | a set, non-empty base URL is used; an unset or empty one gives exactly the workers.dev address |
| ImageUpload.UploadImage | src/utils/imageUpload.ts:51-80 | success iff the file is valid; a refusal carries the validation message and no URL; a success carries no error and the URL base, `/`, upload path, generated name |
| ImageUpload.UploadedUrlKeepsExtension | src/utils/imageUpload.ts:63-78 | the returned URL ends in the original file's extension |

## Left out

- Cryptography: SHA-256, the JWT library's `sign` and `verify`, `atob` and `JSON.parse` are uninterpreted. Nothing is claimed about signature soundness, and the library's own expiry check is part of `verify`.
- Clock and randomness are parameters: the 1 % cleanup draw becomes `sweepAt` in `RateLimiting.RateLimiter`, and the handlers use one instant for both tokens although the source reads the clock twice.
- SQL is an in-memory table. A failing query is one `storeDown` flag. `authMiddleware` lets a query exception escape uncaught, so `AuthMiddleware.Authenticate` has no store-failure outcome.
- Zod's `email()`, `datetime()` and `url()` checks are a parameter (`isEmail`) or not modelled. A `nome`, `email` or `senha` value that is not a string is modelled as a missing field, which is refused the same way. A `role` that is not a string is modelled as `Some` of a string that names no role, because `.default("user")` replaces only an absent role; both give 400.
- The contact and testimonial schema length rules and the phone regex are not modelled; only the pre-processing in `beforeCreate` is.
- AuthHandlers.Register: a failure no longer always leaves the table unchanged. When the INSERT succeeds but the follow-up SELECT finds no row, the reply is 500 and the inserted row stays, as in the source.
- TokenService.SubjectId: `parseInt` accepts leading white space, signs and trailing text, and SQLite compares text and numbers by affinity; the model only accepts numeric subjects and plain digit strings.
- ImageUpload.Extension: `toLowerCase` is modelled for ASCII letters only.
- String lengths are counted in characters, not UTF-16 code units, so names or passwords outside the Basic Multilingual Plane are measured differently.
- JavaScript numbers are unbounded integers or reals here: no precision limits, `NaN` or `Infinity`.
- Testimonials.ValidateRating works on reals, so it does not model values beyond double precision.
- Concurrency: the rate-limit map is shared per isolate and not across instances; the model is one sequential table.
- `processImageUpload`, `deleteImage` and the simulated upload delay are I/O and are not modelled. The `catch` branch of `uploadImage` has nothing to catch once the delay is removed.
- Router wiring, the CRUD endpoint classes, the serializers and the timestamp hooks are framework code.
