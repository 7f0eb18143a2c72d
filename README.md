# LogiRate review and account guards, modelled in Dafny

LogiRate is a REST backend for a logistics marketplace: users register and log
in, browse vendors and review them. This project models the parts of it that
make decisions:

- the review handlers of `src/controllers/reviewController.js` (create, list,
  update, delete) and their older variant `review.contoller.js`. Each mutating
  handler runs an ordered chain of checks: required fields, the vendor exists,
  one review per user and vendor, the caller is the author. The first check
  that fails decides the reply and nothing is written;
- user registration, login and profile lookup in
  `src/controllers/authController.js` and its older variant
  `auth.controller.js`;
- the bearer-token middleware `src/middlewares/authMiddleware.js`;
- the Joi input schemas of `src/utils/validate.js`.

## Structure

| module | file | models |
|---|---|---|
| `Wrappers` | wrappers.dfy | `Option` |
| `Http` | http.dfy | the single reply of a handler (`Reply`), JavaScript truthiness of body fields |
| `Store` | store.dfy | a Mongoose collection as a map from ids to documents; `find` and `findOne` as scans in id (creation) order |
| `ReviewController` | review_controller.dfy | `class ReviewDb` with the four handlers of reviewController.js |
| `LegacyReviewController` | legacy_review_controller.dfy | `class ReviewDb` with the three handlers of review.contoller.js, and the newest-first sort |
| `Accounts` | accounts.dfy | `class UserDb<N>`, and `login` and `getProfile`, which the two auth controllers write alike up to the token secret's source, a log line and the bcrypt package |
| `AuthController`, `LegacyAuthController` | auth_controller.dfy, legacy_auth_controller.dfy | the two `register` handlers |
| `Strings` | strings.dfy | `startsWith` and `split` |
| `AuthMiddleware` | auth_middleware.dfy | `authenticate`, with the request/response pair as `class Exchange` |
| `Validation` | validation.dfy | `registerValidation`, `loginValidation`, `resetPasswordValidation` |

Handlers that write to the database are methods that modify a class whose
fields are the collection (`reviews` or `users`, a map from id to document) and
the next id the store hands out: the review handlers are methods of their
`ReviewDb`, and the two `register` handlers are module-level methods that take
the `UserDb` and modify it. Their `ensures` give the reply and the new table for
every branch. The classes keep invariants as `Valid()`: all ids lie below the
next id, every stored rating is in 1..5 and no user has two reviews of one
vendor (current review controller), and no two users share an email (kept by
both `register` handlers, because the user schema has no unique index). Read-only
handlers are functions of the table. The caller's id (`req.user.id`) is a
parameter. bcrypt's `hash` and `compare`, jsonwebtoken's `sign` and `verify`,
and Joi's email-format rule are function-typed parameters. The clock reading
that becomes `createdAt` is a parameter too.

Request-body fields are `Option`s; None is an absent (undefined) field. For
`vendorId` None also stands for null (each review controller has its own body type), and in the current review controller,
whose first test is `!vendorId`, for "" as well; the older controller looks ""
up as an id, which fails as a malformed ObjectId. A rating is falsy when it is
None or 0, and a comment when it is None or "".

Behaviour of the code worth knowing:
- `updateReview` with no truthy field does not fail. It saves the review
  unchanged and answers 200 (`ReviewController.FalsyEditIsNoOp`).
- A duplicate review is answered 400.
- A rating outside 1..5 is answered 500 ("Error creating review" or "Error
  updating review"). The schema validator throws and the handler's catch
  answers, so nothing is written.
- The older review controller has no duplicate check at all.
- The Joi confirmation message is produced from the template
  `{{#label}} does not match password`. Joi quotes labels by default, so the
  text is `"Confirm password" does not match password` (`Validation.MismatchText`).
- `User.findOne({ email })` with no email in the body is taken to be
  `findOne({})`: the model assumes Mongoose drops undefined keys from a filter,
  so the first user is returned.
  Both `register` handlers then answer 409 whenever any user exists, and
  `login` checks the password against that user's digest (see Findings).

## Model

| member | source | states |
|---|---|---|
| `Store.Find` | src/controllers/reviewController.js:48 | the result holds exactly the stored documents that satisfy the filter, each once, in increasing id order |
| `Store.FindOne` | src/controllers/reviewController.js:20-23 | none exactly when no stored document satisfies the filter; otherwise a stored, satisfying document with no satisfying document before it |
| `ReviewController.Apply` | src/controllers/reviewController.js:68-69 | an edit never changes a review's author or vendor |
| `ReviewController.TruthyFieldsReplace` | src/controllers/reviewController.js:68-69 | a truthy rating or comment in the edit replaces the stored one |
| `ReviewController.EditCannotClearComment` | src/controllers/reviewController.js:69 | a non-empty comment stays non-empty whatever the edit, as the handler computes it; the schema's `trim` (left out) would still store a whitespace-only comment as "" |
| `ReviewController.FalsyFieldKept` | src/controllers/reviewController.js:68-69 | a falsy rating keeps the stored rating and a falsy comment keeps the stored comment, each whatever the other field holds, so a partial edit changes only the field it sends |
| `ReviewController.FalsyEditIsNoOp` | src/controllers/reviewController.js:68-69 | an edit whose rating and comment are both falsy leaves the review unchanged |
| `ReviewController.ReviewDb.CreateReview` | src/controllers/reviewController.js:6-40 | a falsy vendorId or rating gives 400 before any lookup; an unknown vendor gives 404; an existing review by the caller for that vendor gives 400; a rating outside 1..5 gives 500. In all of these the table is unchanged. Otherwise exactly one review is added under a fresh id, with author = caller and the given vendor, rating and comment, and the reply is 201 with it. At most one review per (user, vendor) and ratings in 1..5 are preserved |
| `ReviewController.ReviewDb.GetVendorReviews` | src/controllers/reviewController.js:44-53 | 200 with exactly the stored reviews of the vendor, each once |
| `ReviewController.ReviewDb.UpdateReview` | src/controllers/reviewController.js:56-76 | 404 for an unknown id and 403 for a caller other than the author, table unchanged; for the author, the truthy fields of the edit replace the stored ones. The result is saved and answered 200 unless its rating leaves 1..5 (500, table unchanged); no other review changes |
| `ReviewController.ReviewDb.DeleteReview` | src/controllers/reviewController.js:79-95 | 404 for an unknown id and 403 for a non-author, table unchanged; for the author exactly that review is removed, every other review remains, and the reply is 200 "Review deleted successfully" |
| `ReviewController.OneReviewPerUserScenario` | src/controllers/reviewController.js:19-27 | user 1's first review of a vendor is stored with author user 1, the second is refused with 400, and user 2's review is stored; the table is exactly those two reviews, and user 1's first review is the only one for (user 1, vendor) |
| `LegacyReviewController.InsertNewestFirst` | review.contoller.js:28 | inserting into a newest-first sequence keeps it newest first and adds exactly the one entry |
| `LegacyReviewController.SortNewestFirst` | review.contoller.js:28 | the result is ordered by createdAt, newest first, and is a permutation of the input |
| `LegacyReviewController.PermutedListing` | review.contoller.js:26-28 | reordering a query result keeps the same entries, each still exactly once |
| `LegacyReviewController.ReviewDb.CreateReview` | review.contoller.js:4-22 | a missing or unknown vendor gives 404 and stores nothing; otherwise a review with vendor = vendorId, user = caller and the given rating, comment and time is stored under a fresh id and answered 201, even when the caller already reviewed that vendor |
| `LegacyReviewController.ReviewDb.GetReviewsByVendor` | review.contoller.js:24-34 | 200 with exactly the reviews of the vendor, each once, newest first |
| `LegacyReviewController.ReviewDb.DeleteReview` | review.contoller.js:36-50 | 404 for an unknown id and 403 for a non-author, table unchanged; for the author exactly that review is removed and the reply is 200 "Review deleted" |
| `LegacyReviewController.DuplicateReviewScenario` | review.contoller.js:11-16 | two reviews by one user of one vendor are both stored, under different ids, and both are listed |
| `Accounts.UserDb.FindByEmail` | src/controllers/authController.js:28 | none exactly when no user matches the filter `{ email }` (every user matches when the email is absent); otherwise the stored matching user with the least id |
| `Accounts.AbsentEmailMatchesAnyUser` | src/controllers/authController.js:28 | the filter of a body without an email matches a user exactly when the table is not empty |
| `Accounts.UserDb.Create` | src/controllers/authController.js:35 | the user is stored under a fresh id and nothing else changes |
| `Accounts.UserDb.Login` | src/controllers/authController.js:45-62 | the reply is 200, 401 "Invalid email or password" or passed on; no matching user gives the 401, the same as a wrong password; a matched user with an absent password is passed on (bcrypt throws); for a given email, login succeeds exactly when the password matches that user's digest; without an email it succeeds exactly when the password matches the first user's digest, and the session is that user's; on success the token is signed over exactly {id, email} of the matched user and the reply carries id, email and name, not the password |
| `Accounts.UserDb.IntendedLogin` | src/controllers/authController.js:47-51 | a body without an email gets the 401; otherwise the reply is that of `login`; a session is only ever opened for a stored user with the requested email |
| `Accounts.LoginWithoutEmailScenario` | auth.controller.js:24-34 | with one registered user, a login body with that user's password and no email is answered 200 with a session for that user |
| `Accounts.UserDb.GetProfile` | src/controllers/authController.js:64-73 | 404 exactly for an unknown id; otherwise 200 with the user's id, name and email and no password field |
| `Accounts.ProfileIgnoresPassword` | auth.controller.js:40-49 | the profile reply does not depend on the stored password |
| `AuthController.Register` | src/controllers/authController.js:23-43 | a taken email gives 409 before the confirmation is looked at, and a body without an email gets it whenever any user exists; a confirmation that differs from the password (absent counts as a value) gives 400 "Password do not match"; an absent password or email, or a record the schema refuses (empty first name, email or digest), is passed to the error handler. In these cases no user is created. Otherwise exactly one user is stored with name {first, surname}, the email and hash(password), never the plaintext, and the reply is 201 with only id and email. Unique emails are preserved |
| `LegacyAuthController.Register` | auth.controller.js:6-20 | a taken email gives 409 and leaves the table unchanged, and a body without an email gets it whenever any user exists; otherwise an absent password or an absent or empty email is passed to the error handler with nothing stored; otherwise one user with email, name and hash(password) is stored and the reply is 201 with only id and email. Unique emails are preserved |
| `Strings.Split` | src/middlewares/authMiddleware.js:9 | there is at least one field, no field contains the separator, and the first field is the longest separator-free prefix |
| `Strings.JoinSplit` | src/middlewares/authMiddleware.js:9 | joining the fields of a split with the separator gives back the string |
| `Strings.SplitJoin` | src/middlewares/authMiddleware.js:9 | splitting the join of separator-free fields gives back the fields |
| `AuthMiddleware.ExtractToken` | src/middlewares/authMiddleware.js:5-9 | a token exists exactly when the header is present and starts with the case-sensitive "Bearer "; it is the text after the prefix up to the next space |
| `AuthMiddleware.TokenIgnoresTrailingText` | src/middlewares/authMiddleware.js:9 | for "Bearer " + token + " " + anything, the token is the text before the further space |
| `AuthMiddleware.Authenticate` | src/middlewares/authMiddleware.js:4-17 | no bearer header: 401 "No token provided"; a token that does not verify: 401 "Invalid token". In both cases req.user is untouched and next is not called. Otherwise req.user becomes the decoded claims and next is called once with nothing sent. Exactly one of "respond" and "next" happens |
| `Validation.MismatchText` | src/utils/validate.js:12-15 | the confirmation's mismatch message reads `"Confirm password" does not match password` |
| `Validation.CheckString` | src/utils/validate.js:4-8 | a string key passes exactly when it is absent and optional, or present, non-empty, at least the minimum length and, for an email key, email-shaped |
| `Validation.CheckConfirm` | src/utils/validate.js:9-15 | the confirmation passes exactly when it is present and equal to the password |
| `Validation.RegisterValidation` | src/utils/validate.js:3-16 | valid exactly when first has at least 3 characters, surname is absent or at least 3, email is present and email-shaped, address is absent or at least 5, password has at least 6, and confirmPassword equals password; when only the confirmation is wrong, the issue is the "Confirm password" mismatch |
| `Validation.LoginValidation` | src/utils/validate.js:18-21 | valid exactly when email is present and email-shaped and password has at least 6 characters |
| `Validation.ResetPasswordValidation` | src/utils/validate.js:23-32 | valid exactly when password has at least 6 characters and confirmPassword equals it; when only the confirmation is wrong, the issue is the mismatch |

`login` and `getProfile` of auth.controller.js (lines 22-49) do what those of
src/controllers/authController.js do. The differences are where the token
secret comes from (`JWT_SECRET` of ../config/jwt against
`process.env.JWT_SECRET`), a log line in the newer `login`, and the bcrypt
package (bcrypt against bcryptjs); the secret is inside `sign` and the package
inside `compare`. Both are modelled by the same members,
`Accounts.UserDb.Login` and `Accounts.UserDb.GetProfile`.

## Findings

| source | as written | input that shows it | evidently intended | confidence | as-written member | corrected member |
|---|---|---|---|---|---|---|
| src/controllers/authController.js:47-58 | `User.findOne({ email })` with an undefined email is `findOne({})`, so the first user is found and the password is checked against that user's digest | a login body `{ password }` with no email, where the password is the first registered user's | a login without an email is refused with 401 like an unknown email | medium, not executed (relies on Mongoose dropping undefined filter keys) | `Accounts.UserDb.Login`, shown by `Accounts.LoginWithoutEmailScenario` | `Accounts.UserDb.IntendedLogin` |

## Left out

- Vendor and route filtering and aggregation: src/controllers/vendorController.js is commented out in full, so there is no code to model. The route files, Swagger configuration, src/controllers/vendor.controller.js (a pass-through to the store), e-mail sending and server start-up are wiring or I/O.
- bcrypt, jsonwebtoken and Joi's email rule are foreign library code; they are function parameters. bcrypt's random salt is folded into the `hash` parameter, and token expiry is inside `verify`.
- Ids are natural numbers. A request id that is not a well-formed ObjectId makes Mongoose throw (500 or the error handler); that path is not modelled. Vendors exist as a set of ids, because these handlers only look them up.
- Ratings are integers. The schema's Number type would also take 4.5, and Mongoose would cast "4" to 4; neither is modelled.
- Mongoose `trim` on comments (so a whitespace-only comment, truthy for the handler, would be stored as "" and clear the old one), the timestamps of the current review schema, `populate` of the author's name and email, and the `select` mechanics are left out. `select('-password')` is modelled by the shape of `Accounts.Profile`.
- Store failures other than schema validation (the catch-to-500 and `next(err)` paths for an unreachable database) are left out. Only sequential execution is modelled, so the race between the duplicate check and the insert is not.
- Documents come back in id order, which stands in for the store's natural order. The contract of the newest-first sort promises no order among equal timestamps, and MongoDB leaves that order open too.
- Accounts.UserDb.GetProfile: the stored user also carries `role`, which `User.create` fills with the schema default "user" and `select('-password')` returns; `Accounts.Profile` keeps only id, name and email. `address`, `resetToken` and `resetTokenExpires` are never written by these handlers and are not part of `Accounts.User`.
- Accounts.UserDb.Login: an email or password that is null or not a string (a JSON object such as `{ "$ne": null }` becomes a query operator) is not modelled; body fields are strings or absent. The same holds for both `register` handlers.
- LegacyAuthController.Register: models/user.model is not part of this model; the model takes that schema to require an email, as src/models/userModel.js does, so an absent or empty email that reaches `User.create` is refused and the error passed on. Any other rule of that schema is not modelled.
- ReviewController.ReviewDb.DeleteReview: assumes a Mongoose release before 7, where `Document#remove` exists. The repository pins no version; on Mongoose 7 or later the call throws, the reply is 500 "Error deleting review" and nothing is removed.
- The schema files imported by review.contoller.js and auth.controller.js (models/review.model, models/user.model) are not part of this model. No schema validation is assumed for those two controllers, beyond the required email above.
- ReviewController.ReviewDb.CreateReview and ReviewController.ReviewDb.UpdateReview: the 500 replies are `{ message, error: err.message }`; the model keeps the status and the message, and leaves out the `error` field, Mongoose's validation text.
- AuthMiddleware.Authenticate: `req.user` is the whole decoded payload of `jwt.verify`, including `iat`, `exp` and any other claim in the token; the model's `verify` yields only the {id, email} claims that `login` signs.
- Joi: the library's default messages for required, empty, too-short and malformed-email keys are not modelled; only the schemas' own mismatch message is. Joi: rejection of keys a schema does not name, values that are not strings, null values, and Joi's count of string length in UTF-16 units are not modelled. The validators are not attached to any route in the repository; they are modelled as schemas on their own.
- The route files attach no `authenticate` to the review routes, and `req.user.id` would then be undefined. The caller's id is a parameter instead.
- The commented-out `passwordReset` handler and old routes are not code.
