# product-manager-api: authentication, gating and validation, in Dafny

This project models the request path of the product-manager REST API that decides who may do
what, and what a client is told when a request fails:

- **The auth service** (`Auth`): `register`, `login`, `validateToken`, `generateToken` and the
  constructor's environment defaults. It works over the `user` table (`UserStore`). bcrypt and
  jsonwebtoken are a parameter record (`Crypto.Primitives`). The three facts the service relies
  on are stated as the predicate `Crypto.Lawful`: a password matches its own hash; a signed
  token contains no space, as the compact serialization of section 7.1 of RFC 7515 (base64url
  parts joined by dots) guarantees, which is what lets `Bearer <token>` come back out of
  `split(' ')`; and a token verified under its signing secret yields exactly its claims before
  its expiry instant and fails from that instant on. The lemmas assume
  `Lawful` and nothing else about the libraries. The salt bcrypt draws and the clock reading are
  explicit parameters.
- **The user table** (`UserStore.UserTable`): a class whose rows and auto-increment counter the
  service updates in place. The schema's uniqueness constraints are the predicate
  `Consistent`, and `Create` keeps them. The service, the guards and the controller share one
  table object.
- **The guards** (`AuthGate`): `authenticate` reads the bearer token from the `Authorization`
  header, validates it and sets `req.user`. `isAdmin` answers 401, 403 or lets the request through.
- **The auth controller** (`AuthController`): `register`, `login` and `me` map request bodies and
  service outcomes to HTTP statuses and JSON bodies.
- **The product payload validators** (`ProductValidation`): the create and update guard chains,
  read two ways. One reading is the chain as written. The other is a declarative description
  of an acceptable body plus a list of checks whose first failure decides. The two are proved
  to agree.
- **Errors** (`AppErrors`, `ErrorHandling`): the `AppError` constructor's `'fail'`/`'error'`
  classification, the five factories, `errorHandler`'s defaulting and `notFound`.

The JavaScript semantics the code depends on are written out in `Js`:

- falsy values;
- `a || b` defaults on environment variables;
- `startsWith`, `includes` and `trim` with the ECMAScript white-space set;
- `.length` in UTF-16 code units;
- `split(' ')`;
- the decimal text of an integer.

The validators tell a missing key, a `null` value and a present value apart (`Js.Field`).

A token's own role claim never decides `isAdmin`: `validateToken` reads the role from the table
(src/services/AuthService.ts:112-128). The model states this as `Auth.ValidatedRoleIsStoredRole`
and `AuthGate.AdminRouteNeedsStoredAdmin`. The fallback signing
secret `default_secret` is modelled as written. `AuthGate.DefaultSecretOpensAdminRoutes` states
its consequence: with `JWT_SECRET` unset, anyone can sign a token for an administrator's id,
and that token opens admin-only routes.

## Model

| member | source | states |
|---|---|---|
| Js.EnvOr | src/services/AuthService.ts:13-14 | `env[key] \|\| fallback`: the variable when set and non-empty, the fallback otherwise |
| Js.TrimStartRemovesBlankPrefix | src/api/middlewares/productValidation.ts:95 | trimming the start leaves a suffix of the input, what was removed is all white space, and the result does not start with white space |
| Js.TrimEndRemovesBlankSuffix | src/api/middlewares/productValidation.ts:95 | the mirror image: a prefix, a blank removed tail, no trailing white space |
| Js.TrimEmptyIffBlank | src/api/middlewares/productValidation.ts:95 | `s.trim() === ''` exactly when every character of `s` is white space |
| Js.Utf16Length | src/api/middlewares/productValidation.ts:108 | `.length` counts UTF-16 units: between the number of code points and twice that |
| Js.Utf16LengthOfBmp | src/api/middlewares/productValidation.ts:108 | for text in the Basic Multilingual Plane, `.length` is the number of characters |
| Js.SplitOnSpace | src/api/middlewares/authMiddleware.ts:35 | `split(' ')` always gives at least one piece |
| Js.SplitOnSpaceJoins | src/api/middlewares/authMiddleware.ts:35 | no piece of `split(' ')` holds a space, and joining the pieces with spaces gives back the input |
| Js.SplitAfterWord | src/api/middlewares/authMiddleware.ts:35 | splitting `word + ' ' + rest` gives `word` followed by the pieces of `rest` |
| Js.SplitFirstPiece | src/api/middlewares/authMiddleware.ts:35 | the first piece is a prefix followed by a space or by the end of the text |
| Js.SplitWithoutSpace | src/api/middlewares/authMiddleware.ts:35 | a text without spaces splits into itself alone |
| Js.NatToDecimalHead | src/utils/appError.ts:12 | the first character of a number's decimal text is its leading digit |
| Js.IntToDecimalStartsWithDigit | src/utils/appError.ts:12 | `` `${n}`.startsWith(d) `` exactly when `n` is non-negative with leading digit `d` (a minus sign never matches) |
| Js.LeadingDigitOfThreeDigits | src/utils/appError.ts:12 | the leading digit of a three-digit number is its hundreds digit |
| AppErrors.NewAppError | src/utils/appError.ts:9-16 | keeps the message and code, is operational, and its status is `fail` exactly when the code's decimal text starts with 4, `error` otherwise |
| AppErrors.StatusOfHttpCode | src/utils/appError.ts:12 | for three-digit codes, `fail` exactly for 400-499 |
| AppErrors.StatusIsByFirstDigit | src/utils/appError.ts:12 | the test is on the first digit: 4, 42 and 4040 are `fail`; -404 and 500 are `error` |
| AppErrors.CreateValidationError | src/utils/appError.ts:23-25 | status code 400, `fail`, the given message |
| AppErrors.CreateNotFoundError | src/utils/appError.ts:31-33 | status code 404, `fail`, message `<resource> non trouvé(e)` |
| AppErrors.CreateAuthError | src/utils/appError.ts:39-41 | status code 401, `fail`; message `Non autorisé` when none is given |
| AppErrors.CreateForbiddenError | src/utils/appError.ts:47-49 | status code 403, `fail`; message `Accès refusé` when none is given |
| AppErrors.CreateConflictError | src/utils/appError.ts:55-57 | status code 409, `fail`, the given message |
| ErrorHandling.ErrorHandler | src/api/middlewares/errorHandler.ts:7-19 | status is the error's non-zero code, else 500; message is the error's, else `Une erreur est survenue`; the stack is hidden exactly in production |
| ErrorHandling.FactoryErrorsKeepStatusAndMessage | src/api/middlewares/errorHandler.ts:12-16 | every factory error reaches the client with the factory's status (400, 401, 403, 404, 409, with or without a message argument) and message (the given text, `<resource> non trouvé(e)`, or the default `Non autorisé` / `Accès refusé`) |
| ErrorHandling.NotFound | src/api/middlewares/errorHandler.ts:24-28 | sets 404 on the response and forwards a plain error `Route non trouvée - <url>` that has no status code |
| ErrorHandling.UnknownRouteAnswers500 | src/api/middlewares/errorHandler.ts:12-27 | as written, an unknown route is answered 500: the 404 set by `notFound` is overridden |
| ErrorHandling.NotFoundWithStatus | src/api/middlewares/errorHandler.ts:24-28 | the corrected `notFound`: the forwarded error itself carries 404 |
| ErrorHandling.CorrectedUnknownRouteAnswers404 | src/api/middlewares/errorHandler.ts:12-28 | with the correction, an unknown route is answered 404 with the route message |
| ProductValidation.ForwardedError | src/api/middlewares/productValidation.ts:96 | every rejection is forwarded as a 400 `fail` error carrying the rejection's message |
| ProductValidation.ValidateCreate | src/api/middlewares/productValidation.ts:91-121 | calls `next()` without error exactly when the body is acceptable (non-blank name of at most 100 units, price and quantity not undefined, and either null or a non-NaN, non-negative number, description and category within bounds when given); never throws |
| ProductValidation.NameCheck | src/api/middlewares/productValidation.ts:95 | `!name \|\| name.trim() === ''` rejects exactly the names that are not a non-blank string |
| ProductValidation.ValidateUpdate | src/api/middlewares/productValidation.ts:123-167 | throws a TypeError exactly for a non-empty body with `name: null`; passes exactly when the body has a key and every given field is acceptable; absent fields are not checked |
| ProductValidation.FirstFailureIsFirst | src/api/middlewares/productValidation.ts:95-120 | a chain of guards reports the outcome of a failing guard with no failing guard before it, and proceeds only when none fails |
| ProductValidation.FirstFailureAt | src/api/middlewares/productValidation.ts:95-120 | if guard k fails and none before it does, guard k's outcome is reported |
| ProductValidation.CreateFollowsSourceOrder | src/api/middlewares/productValidation.ts:95-120 | the create validator reports the first failing check in source order: name, price, quantity, name length, description, category |
| ProductValidation.UpdateFollowsSourceOrder | src/api/middlewares/productValidation.ts:127-166 | the update validator reports the first failing check in source order, from the empty-body check to the category bound |
| ProductValidation.NameLengthBound | src/api/middlewares/productValidation.ts:108-110 | otherwise valid, a BMP name of exactly 100 characters passes and one of 101 does not |
| ProductValidation.PriceBoundary | src/api/middlewares/productValidation.ts:99-101 | with a valid name and quantity 0, a price of 0 never triggers the price rejection and the body is accepted exactly when description and category keep their bounds; any negative price is rejected with the price message |
| UserStore.ToDto | src/services/AuthService.ts:53-60 | the returned user has the row's id, username, email, role and both timestamps |
| UserStore.ToDtoForgetsOnlyPassword | src/services/AuthService.ts:90-97 | two rows give the same returned user exactly when they differ at most in their password |
| UserStore.FindByEmail | src/services/AuthService.ts:20-22 | finds a row with the email when one exists, and none exactly when no row has it |
| UserStore.FindByUsername | src/services/AuthService.ts:28-30 | the same for the username |
| UserStore.FindById | src/services/AuthService.ts:112-114 | the same for the id |
| UserStore.LookupsFindTheRow | src/services/AuthService.ts:20-30 | in a consistent table each unique-column lookup finds the one row holding the value |
| UserStore.Inserted | src/services/AuthService.ts:40-47 | appends exactly one row with the next id and keeps every earlier row; with a fresh email and username the table stays consistent |
| UserStore.UserTable.Create | src/services/AuthService.ts:40-47 | inserts in place: the table afterwards is `Inserted` of the table before, still consistent, and the new row is returned |
| Auth.SettingsFromEnv | src/services/AuthService.ts:12-15 | the secret is `JWT_SECRET` or `default_secret`, the lifetime text `JWT_EXPIRES_IN` or `24h`; neither is ever empty |
| Auth.GenerateToken | src/services/AuthService.ts:135-141 | under lawful libraries the token has no space, and when its lifetime is positive it verifies at the issuing instant, under the same secret, to exactly `{ id, role }` |
| Auth.TokenCarriesClaims | src/services/AuthService.ts:135-141 | a generated token decodes under the same secret to exactly `{ id, role }` until it expires, and to nothing after |
| Auth.RegisterOn | src/services/AuthService.ts:17-67 | a taken email throws the email message, else a taken username the username message; any failure leaves the table unchanged; success inserts one row with role `user` and the hashed password, and returns it without the password and with a token over its id and role; consistency is kept |
| Auth.RegisterOnOnlyAddsUser | src/services/AuthService.ts:37-47 | one registration keeps every row in place and adds at most one row, whose role is `user` |
| Auth.RegisterAllKeepsConsistency | src/services/AuthService.ts:20-47 | any sequence of registrations keeps ids, emails and usernames unique |
| Auth.RegisterAllOnlyAddsUsers | src/services/AuthService.ts:20-47 | any sequence of registrations keeps every earlier row in place and adds only `user` rows |
| Auth.RegistrationNeverCreatesAdmin | src/services/AuthService.ts:45 | every `admin` row after any sequence of registrations was already in the table before |
| Auth.LoginOn | src/services/AuthService.ts:69-104 | success only for a row with that email whose hash matches, returned without the password and with a token over its id and role; an unknown email gives `null` |
| Auth.LoginSucceedsIffPasswordMatches | src/services/AuthService.ts:76-84 | for a known email, login succeeds exactly when the password matches its hash, so a wrong password and an unknown email give the same `null` |
| Auth.ValidateTokenOn | src/services/AuthService.ts:106-133 | `null` when the token does not verify or its id has no row; otherwise the row with that id, without its password |
| Auth.ValidatedRoleIsStoredRole | src/services/AuthService.ts:112-128 | the role reported is the role stored now, whatever the token claims |
| Auth.RegisterThenValidate | src/services/AuthService.ts:50 | the token a registration returns validates to the registered user until it expires, and to `null` from then on |
| Auth.RegisterThenLogin | src/services/AuthService.ts:87 | after registering, logging in with the same email and password returns the registered user |
| Auth.AuthService.constructor | src/services/AuthService.ts:12-15 | the service's settings are the environment defaults and it works on the given table |
| Auth.AuthService.Register | src/services/AuthService.ts:17-67 | the result and the table afterwards are exactly those of `RegisterOn`, and the table stays consistent |
| AuthGate.BearerToken | src/api/middlewares/authMiddleware.ts:27-35 | a token exactly when the header starts with `Bearer `; the token has no space and is the text after the prefix up to the next space or the end |
| AuthGate.BearerTokenOfHeader | src/api/middlewares/authMiddleware.ts:35 | `Bearer <token>` yields the token itself when it has no space, and `Bearer ` alone yields the empty token |
| AuthGate.AuthenticateOn | src/api/middlewares/authMiddleware.ts:25-48 | a missing or non-bearer header gives 401 `Authentification requise`; a token that does not validate gives 401 `Token invalide ou expiré`; otherwise the request goes on with exactly the user `validateToken` returned, the stored row whose id the token carries |
| AuthGate.IsAdmin | src/api/middlewares/authMiddleware.ts:58-70 | proceeds exactly when a user is attached with role `admin`; 401 exactly when none is attached; 403 exactly for any other role |
| AuthGate.ValidatedAdmin | src/services/AuthService.ts:106-128 | a validated user is an administrator exactly when the token verifies and the row with its id is stored as `admin` |
| AuthGate.AdminRouteNeedsStoredAdmin | src/api/middlewares/authMiddleware.ts:58-70 | behind `authenticate`, an admin route proceeds exactly when the token verifies and the row with its id is stored as `admin` |
| AuthGate.RegisteredUserIsNotAdmin | src/api/middlewares/authMiddleware.ts:25-70 | a freshly registered account passes `authenticate` with its own token and is then refused 403 by `isAdmin` |
| AuthGate.ExpiredTokenIsRejected | src/api/middlewares/authMiddleware.ts:38-43 | once a registration's token has expired, `authenticate` answers 401 `Token invalide ou expiré` |
| AuthGate.DefaultSecretOpensAdminRoutes | src/services/AuthService.ts:13 | with `JWT_SECRET` unset, a token anyone signs with `default_secret` for an administrator's id opens admin routes |
| AuthGate.AuthMiddleware.constructor | src/api/middlewares/authMiddleware.ts:17-19 | the guard's service has the environment defaults and works on the shared table |
| AuthGate.AuthMiddleware.Authenticate | src/api/middlewares/authMiddleware.ts:25-53 | answers as `AuthenticateOn` decides; sets `req.user` to the validated user exactly when it calls `next()`, and leaves it alone otherwise |
| AuthController.RegisterReply | src/api/controllers/authController.ts:27-39 | 201 with the result exactly on success; 409 with the thrown message exactly when it contains `existe déjà` or `déjà pris`; any other error is 500 with a fixed message |
| AuthController.ServiceConflictsAre409 | src/api/controllers/authController.ts:34-37 | both duplicate-account messages of the service are answered 409 with that message |
| AuthController.RegisterHandlerOn | src/api/controllers/authController.ts:16-41 | a falsy email, password or username gives 400 without calling the service; otherwise the service's outcome; never 500; 201 exactly when email and username are both unused; only a 201 changes the table |
| AuthController.DuplicateEmailIsConflict | src/api/controllers/authController.ts:34-36 | a taken email is answered 409 with the email message and the table is unchanged |
| AuthController.DuplicateUsernameIsConflict | src/api/controllers/authController.ts:34-36 | a fresh email with a taken username is answered 409 with the username message and the table is unchanged |
| AuthController.LoginReply | src/api/controllers/authController.ts:57-68 | 200 with the result exactly on success, 401 exactly for `null`, 500 with a fixed message for any error |
| AuthController.LoginHandlerOn | src/api/controllers/authController.ts:46-69 | a falsy email or password gives 400; otherwise 200 or 401 (the 500 after a failing `sign` is not modelled, see "## Left out"), and 200 only for a stored email whose hash matches; with both fields given, the answer is `LoginReply` of the service's result, so 400 exactly when a field is falsy |
| AuthController.LoginDoesNotRevealAccounts | src/api/controllers/authController.ts:59-62 | a wrong password and an unknown email get the identical 401 answer |
| AuthController.RegisterThenLoginAnswers200 | src/api/controllers/authController.ts:46-64 | after a 201 registration, logging in with the same email and password answers 200 with that user |
| AuthController.Me | src/api/controllers/authController.ts:74-82 | 200 with `{ user: req.user }`, the attached user unchanged |
| AuthController.MeShowsRegisteredUser | src/api/controllers/authController.ts:77 | behind `authenticate`, `me` with a registration's token shows the registered user as stored |
| AuthController.AuthHandlers.constructor | src/api/controllers/authController.ts:9-11 | the controller's service has the environment defaults and works on the shared table |
| AuthController.AuthHandlers.Register | src/api/controllers/authController.ts:16-41 | the response and the table afterwards are exactly those of `RegisterHandlerOn`, and the table stays consistent |

## Left out

- bcrypt and jsonwebtoken are parameters (`Crypto.Primitives`), not reimplementations. This leaves out the cost factor, bcrypt's 72-byte password truncation, the token encoding and the parsing of `expiresIn` texts such as `24h`.
- The database is a sequence of rows in memory. Connection failures and query errors are not modelled, so apart from the token library's `sign` (see the lines below) the service never throws anything but its two duplicate-account errors. The controllers' 500 branches are modelled on their inputs (`RegisterReply`, `LoginReply`), but the service never reaches them.
- UserStore.UserTable.Create: requires a fresh email and username instead of modelling the unique-constraint error the database would raise. The service always checks both before it inserts.
- Auth.RegisterOn: the token library's `sign` never fails in the model. In the source it runs after the insert (src/services/AuthService.ts:50 after line 40) and throws when `expiresIn` cannot be parsed, e.g. `JWT_EXPIRES_IN=one day`; the new row would then stay in the table while `register` throws. "Any failure leaves the table unchanged" holds only under that assumption.
- AuthController.RegisterHandlerOn: in that same case the source answers 500 `Erreur lors de l'inscription` with the row kept. "Never 500" and "only a 201 changes the table" hold only because the model's `sign` never fails.
- Auth.LoginOn: `sign` also runs in `login`, after the password matched (src/services/AuthService.ts:87). When `expiresIn` cannot be parsed it throws, and `login` rethrows (lines 100-102). The model's `LoginOn` then always returns the user and a token, so "a matching password gives a result" holds only under that assumption.
- AuthController.LoginHandlerOn: in that same case the source answers 500 `Erreur lors de la connexion` (src/api/controllers/authController.ts:65-67). The contract's `res.status in {200, 400, 401}` excludes that 500 only because the model's `sign` never fails; `LoginReply` itself does model the 500 for a thrown error.
- `register` runs as one atomic step. The race between the two lookups and the insert, under concurrent requests, is not modelled.
- Logging (`logger.error`) is left out; it has no effect on any response.
- The `catch` of `authenticate` (src/api/middlewares/authMiddleware.ts:49-52) cannot be reached in the model: `validateToken` catches every error of the token library and the lookup does not fail. The same holds for the `catch` of `me`.
- Body fields of the wrong JSON type (a number where a string is expected, an object for `name`) are not modelled. Numbers are a real or NaN, with no infinities and no IEEE rounding.
- ErrorHandling.ErrorHandler: status codes are integers; a non-numeric `statusCode` property is not modelled. The stack trace is an opaque optional text.
- A TypeError thrown by the update validator is only reported as such (`Verdict.TypeError`). Express's hand-over of a synchronous throw to the error handler is not modelled.
- Timestamps are opaque integers given by the caller. The clock and the database's own `createdAt` defaults are not modelled.
- The product controller, the product service, the routes, the commented-out validators and the application bootstrap are not part of this model.

## Findings

| source | as written | input that shows it | evidently intended | confidence | as-written member | corrected member |
|---|---|---|---|---|---|---|
| src/api/middlewares/errorHandler.ts:24-27 | `notFound` sets 404 on the response, then forwards a plain `Error` without `statusCode`; `errorHandler` then sets `err.statusCode \|\| 500` | a request that reaches `notFound` with `errorHandler` mounted after it (src/app.ts as shown mounts neither), e.g. `GET /nope`: the client gets 500 `Route non trouvée - /nope` | the client gets 404 for an unknown route | medium (proved on the model; not executed) | ErrorHandling.UnknownRouteAnswers500 | ErrorHandling.CorrectedUnknownRouteAnswers404 |
