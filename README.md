# CarsProject accounts and role requests, modelled in Dafny

CarsProject is an Express/Mongoose backend. It has user accounts (register, log in,
list, look up, rename, delete) and a role-request workflow. In the workflow a User asks to
become a Seller or a MaintenanceCenter, and an administrator accepts or rejects the request.
Accepting a request promotes its owner and deletes the owner's other pending requests.

This project models that core:

- the three input validators;
- the two document schemas;
- the `auth` middleware;
- the central error responder;
- the fifteen request and user handlers.

It proves what each of them does, error paths included. The modules are:

- `Wrappers`: `Option`.
- `Strings`: character classes, `IndexOf`, `Split`/`Join`. `Split` is the semantics of
  `String.prototype.split` with a one-character separator, and it comes with its round trip.
- `Errors`: `appError.create`, the status words, the `Outcome` of a validator, the `Reply`
  of a handler, and `handelError` (`HandleError`).
- `JsNumber`: the ECMAScript string-to-number conversion (StringToNumber, section 7.1.4.1 of
  ECMA-262) and the relational comparison with a number. Line 77 of the password validator
  needs them, because it compares the password string itself with 20.
- `Validate`: `isName`, `isEmail` and `isStrongPassword`, each as written. The two that do not
  do what their messages say also get a corrected version (see Findings).
- `Schema`: the request and user documents, their enums and defaults, and the unique email
  index.
- `Store`: class `Db`, which holds the `users` and `requests` collections as maps that the
  handlers reassign. It also holds the queries and bulk writes the handlers issue.
- `Auth`: the `auth` middleware. bcrypt and jsonwebtoken appear as a `Crypto` value of
  functions.
- `RequestController`: the nine handlers of controllers/request.js. Queries are functions
  reading `Db`. Writers are methods with `modifies db` that state the whole new store.
- `UserController`: the six handlers of controllers/user.js.
- `Scenarios`: the promotion workflow driven end to end by a client.

Role guards from the route files become preconditions on the caller's role. The user routes
without an `:id` call `getUserById`, `updateUserById` and `deleteUserById` with no id, which
`findById` answers with nothing, so 404. The model takes the id as an `Option` for that
reason.

Three behaviours of the code worth knowing:

- The user schema's `role` enum declares only Admin and User. Acceptance still stores Seller
  or MaintenanceCenter, because `updateOne` runs no validator.
- `createRequest` checks only that the content is present. A content outside the enum
  makes `insertOne` reject. The rejection escapes the handler, so the response is not a
  400 envelope.
- `createRequest` is open to User only, not to any authenticated caller.

## Model

| member | source | states |
|---|---|---|
| Errors.HandleError | middlewares/handelError.js:3-10 | HTTP status and body code are the error's code when truthy, else 500; status word is the error's, else ERROR; message passes through |
| Errors.CreatedErrorRendering | middlewares/handelError.js:4-7 | an error created with a non-zero code and a word is rendered with exactly those |
| Errors.BareErrorRendering | middlewares/handelError.js:4-7 | an error created from a message alone is rendered as 500 / ERROR |
| Strings.SplitHead | middlewares/auth.js:9 | `split` gives one part exactly when the separator is absent, and the first part is the text before the first separator |
| Strings.JoinSplit | middlewares/auth.js:9 | joining the parts of a split with the same separator gives the string back |
| Validate.IsName | utils/validate.js:4-32 | every rejection carries 400 and FAIL |
| Validate.IsNameVerdict | utils/validate.js:5-31 | as written, the letters check never decides: capital rule first, then length, otherwise accepted |
| Validate.IsNameRejectsEmpty | utils/validate.js:5-12 | the empty name fails the capital rule (`name[0]` is undefined) |
| Validate.IsNameAcceptsDigits | utils/validate.js:13-20 | "Ab1" is accepted as written although it is not all letters |
| Validate.IsNameFixed | utils/validate.js:4-32 | the corrected check rejects with 400 / FAIL only |
| Validate.IsNameFixedAccepts | utils/validate.js:4-32 | the corrected check accepts exactly capitalised names of 3 to 20 letters |
| Validate.IsNameFixedAgrees | utils/validate.js:13 | on all-letter names the written and corrected checks give the same outcome |
| Validate.IsNameFixedRejectsDigits | utils/validate.js:13-20 | the corrected check rejects "Ab1" with the letters-only message |
| Validate.IsEmail | utils/validate.js:34-42 | accepted exactly when the address is in the language of the regular expression (both directions); otherwise "Invalid Email" with 400 / FAIL |
| Validate.DotSegmentsIsPattern | utils/validate.js:35 | the left-to-right reading of `(?:\.[A-Za-z]{2,})+$` accepts exactly the strings its grammar allows |
| Validate.EmailAcceptedIsPattern | utils/validate.js:35 | the first-`@`, first-dot reading of the expression accepts exactly its language |
| Validate.AcceptedEmailHasOneAt | utils/validate.js:35 | an accepted address has exactly one `@` |
| Validate.AcceptedEmailEnding | utils/validate.js:35 | an accepted address ends in a dot and two or more letters |
| Validate.PasswordClasses | utils/validate.js:45-76 | the four class checks pass exactly when the password has a non-word character, a lower-case letter, an upper-case letter and a digit |
| Validate.IsStrongPassword | utils/validate.js:44-88 | every rejection carries 400 and FAIL |
| Validate.PasswordSpecialCheckFirst | utils/validate.js:45-52 | "abc" is rejected by the first rule in order, the special-character one |
| Validate.IsStrongPasswordLengthVerdict | utils/validate.js:77-84 | once the classes pass, the written rule accepts exactly when the length is at least 8 and the trimmed password is not a hexadecimal literal worth more than 20 |
| Validate.LetterLedPasswordPasses | utils/validate.js:77 | a password that passes the classes, has 8 or more characters, starts with a letter and ends in a non-blank is accepted at any length |
| Validate.IsStrongPasswordAcceptsLong | utils/validate.js:77 | a 30-character password is accepted as written and rejected by the corrected check |
| Validate.HexPasswordFails | utils/validate.js:77 | a password that passes the classes and trims to a hexadecimal literal above 20 is rejected for length |
| Validate.IsStrongPasswordRejectsHex | utils/validate.js:77 | the 8-character "    0x1F" is rejected for length as written and accepted by the corrected check |
| Validate.IsStrongPasswordFixed | utils/validate.js:77-84 | the corrected check rejects with 400 / FAIL only |
| Validate.IsStrongPasswordFixedAccepts | utils/validate.js:44-88 | the corrected check accepts exactly the four classes with 8 to 20 characters |
| Validate.IsStrongPasswordFixedAgrees | utils/validate.js:77 | up to 20 characters, both checks agree unless the password is a hexadecimal literal above 20 |
| JsNumber.TrimOfUnpadded | utils/validate.js:77 | trimming a string with no white space at either end leaves it unchanged |
| JsNumber.HexLiteralValue | utils/validate.js:77 | a string that trims to `0x`+hex digits converts to that literal's value |
| JsNumber.NaNUnlessNumericStart | utils/validate.js:77 | a string whose first non-blank cannot start a numeric literal converts to NaN |
| JsNumber.DecimalIsNotMixedCase | utils/validate.js:77 | no decimal literal (signed, with exponent, or Infinity) holds both letter cases and a digit |
| JsNumber.MixedCaseNumberIsHex | utils/validate.js:77 | a string with both letter cases and a digit that converts to a number is a hexadecimal literal |
| JsNumber.MixedCaseAbove | utils/validate.js:77 | for such a string, `s > bound` holds exactly when it trims to a hexadecimal literal above the bound |
| Schema.NewRequest | models/request.js:4-18 | a new request has its owner and content and the default status Pending; it conforms to the schema exactly when the content is a promotable role |
| Schema.PromotableIsNotBase | models/request.js:9-12 | a promotable role is never Admin or User |
| Schema.NewUser | models/user.js:27-34 | a new user has the given fields, role User, and no token |
| Schema.CorrectedNamesConform | models/user.js:6-21 | names and email accepted by the corrected checks (the first three steps of `UserController.RegistrationCheckFixed`) also pass the schema's own validators |
| Store.FindByEmail | controllers/user.js:31 | under the unique index, finds the one user with that email, or none exists |
| Store.FindRequests | controllers/request.js:10-16 | `find` returns exactly the stored requests matching the filter (and the owner, when given), unchanged |
| Store.OwnedListingIsSlice | controllers/request.js:134-141 | adding `userId` to a filter cuts the unscoped result down to that owner's requests |
| Store.InsertKeepsEmailsUnique | models/user.js:19 | inserting a user with an unused email at a fresh id keeps emails unique |
| Store.SetRole | controllers/request.js:92-95 | only the named user's role changes; nothing happens when that user is absent |
| Store.DeletePendingOf | controllers/request.js:97-100 | removes exactly the owner's pending requests and keeps all others unchanged |
| Store.SetRoleKeepsEmails | models/user.js:19 | a role change keeps emails unique |
| Auth.BearerToken | middlewares/auth.js:9 | the token is the text after "Bearer " up to the next space |
| Auth.BearerTokenRoundTrip | middlewares/auth.js:9 | a space-free token comes back out of "Bearer " + token |
| Auth.DoubleSpaceGivesEmptyToken | middlewares/auth.js:9 | "Bearer  x" yields the empty token |
| Auth.Authenticate | middlewares/auth.js:3-24 | a missing or non-"Bearer " header gives 401 "Please sign in"; a token that does not verify gives 401 "Session expired"; otherwise the claims `{id, email, role}` pass on |
| Auth.IssuedTokenAuthenticates | middlewares/auth.js:9-16 | a header built around an issued token authenticates as exactly the signed claims |
| Auth.AuthenticatedIff | middlewares/auth.js:6-16 | authentication succeeds exactly when the prefix is there and the token verifies |
| RequestController.CheckOwned | controllers/request.js:156-171 | passes exactly when the request exists and belongs to the caller; otherwise 404 first, then 401 |
| RequestController.GetRequests | controllers/request.js:7-25 | a truthy `status` selects by status, else a truthy `requestContent` by content, else everything; entries are the stored ones |
| RequestController.GetMyRequests | controllers/request.js:130-150 | the same precedence, only ever over the caller's requests |
| RequestController.MyRequestsAreOwnedSlice | controllers/request.js:130-150 | a user's listing is the administrator's listing for the same query restricted to that user |
| RequestController.GetRequestById | controllers/request.js:51-67 | 404 exactly when absent, else the stored request |
| RequestController.GetMyRequestById | controllers/request.js:152-179 | 404 when absent, 401 when someone else's, success exactly for an owned request |
| RequestController.StatusIsWritten | controllers/request.js:86-89 | the request keeps owner and content and takes the new status |
| RequestController.AcceptanceGrantsRole | controllers/request.js:91-95 | on acceptance the owner, if present, takes the requested role, and no other user changes |
| RequestController.AcceptanceClearsPending | controllers/request.js:97-100 | on acceptance no pending request of the owner remains; other owners' requests and the owner's non-pending ones stay untouched |
| RequestController.OtherStatusWritesOnlyStatus | controllers/request.js:86-101 | any other status changes that one field and nothing else |
| RequestController.DeletingFirstLosesAcceptedRequest | controllers/request.js:86-100 | the write order matters: deleting pending requests first would delete the accepted one too |
| RequestController.StatusUpdateKeepsValid | controllers/request.js:86-101 | the cascade keeps emails unique and user ids, and adds no request ids |
| RequestController.CreateRequest | controllers/request.js:27-49 | missing content: 400 ERROR and no change; content outside the enum: rejected insert, no change, no response; otherwise one pending request of the caller under a fresh id, nothing else changes |
| RequestController.UpdateStatusRequestById | controllers/request.js:69-109 | 404, then 400 for a missing status, with no change; otherwise the new store is exactly the cascade applied to the old one |
| RequestController.DeleteRequestById | controllers/request.js:111-128 | 404 and no change, or exactly that request removed |
| RequestController.UpdateMyRequestById | controllers/request.js:181-220 | 404, 401, then a code-less error for missing content, with no change; otherwise only that request's content changes |
| RequestController.DeleteMyRequestById | controllers/request.js:222-251 | 404 or 401 and no change, or exactly that request removed |
| RequestController.MissingContentRendersAs500 | controllers/request.js:203-207 | the missing-content error of `updateMyRequestById` is rendered as 500 / ERROR |
| RequestController.AcceptedContentIsUndeclaredRole | controllers/request.js:91-95 | acceptance stores a role the user schema's enum does not declare |
| UserController.RegistrationCheck | controllers/user.js:21-29 | with the validators as written: passes exactly when all four pass; the first failure in order is reported unchanged |
| UserController.RegistrationCheckAccepts | controllers/user.js:21-29 | the pipeline as written accepts exactly names of 3 to 20 characters starting with a capital, an address of the expression's form, and a 4-class password of at least 8 characters that does not trim to a hexadecimal literal above 20 |
| UserController.RegistrationCheckFixed | controllers/user.js:21-29 | the same pipeline with the corrected name and password checks: passes exactly when all four pass; the first failure in order (first name, last name, email, password) is reported unchanged |
| UserController.RegistrationCheckFixedAccepts | controllers/user.js:21-29 | the corrected pipeline accepts exactly capitalised all-letter names of 3 to 20, an address of the expression's form, and a 4-class password of 8 to 20 |
| UserController.RegistrationChecksAgree | controllers/user.js:21-29 | on all-letter names and passwords of at most 20 characters that are no hexadecimal literal above 20, both pipelines give the same outcome |
| UserController.Register | controllers/user.js:9-54 | missing fields, validation, then an existing email refuse with no change; otherwise one user holding the password's hash and the default role is added under a fresh id |
| UserController.ClaimsOf | controllers/user.js:85-92 | the signed claims are the user's email, id and role |
| UserController.Login | controllers/user.js:56-103 | 400, 404, then 400 ERROR for a wrong password, with no change; otherwise the token signing the user's claims is stored on that user alone and returned |
| UserController.TokenKeepsEmails | controllers/user.js:95 | storing a token keeps emails unique |
| UserController.Public | controllers/user.js:112 | the listed form of a user keeps every field but the password |
| UserController.ListUsers | controllers/user.js:105-140 | lists exactly the users the query precedence selects, without passwords |
| UserController.FirstNameQueryWins | controllers/user.js:108-113 | a truthy `firstName` query decides alone |
| UserController.SearchQueryIsLast | controllers/user.js:126-140 | `search` applies only when the three field queries are falsy, and matches any of the three fields |
| UserController.ListingIgnoresPasswords | controllers/user.js:110-139 | collections differing only in passwords list identically |
| UserController.GetUsers | controllers/user.js:105-148 | 200 with exactly the selected users in public form |
| UserController.GetUserById | controllers/user.js:150-166 | success exactly for a present id, with the stored document; otherwise 404 |
| UserController.Renamed | controllers/user.js:196-199 | a name the body gives replaces the stored one (an empty string included); an absent one is kept; other fields are untouched |
| UserController.UpdateUserById | controllers/user.js:168-207 | 404, missing body (400 ERROR), no truthy name (400 FAIL), with no change; otherwise only that user's names change |
| UserController.RenameKeepsEmails | controllers/user.js:196-199 | renaming keeps emails unique |
| UserController.DeleteUserById | controllers/user.js:209-227 | 404 and no change, or exactly that user removed, with the requests it owns left in place |
| Scenarios.Enrol | controllers/user.js:9-54 | registering details the pipeline as written accepts, with an unused email, stores the new user with the password's hash and role User |
| Scenarios.SignUp | controllers/user.js:9-103 | registering details the pipeline as written accepts with a new email, logging in and presenting the token authenticates the new user as a User |
| Scenarios.Promote | controllers/request.js:27-101 | a User's Seller request accepted by an administrator makes the user read back as a Seller |
| Scenarios.Promotion | controllers/request.js:91-95 | for any details the registration pipeline as written accepts: register, log in, request Seller, accept, look up, and the user is a Seller and the store stays valid |

## Left out

- Asynchrony and `catchError`: handlers are modelled as if each store call completes in
  order. The escape of a rejected promise is modelled by the `Reply.Escaped` constructor.
- Concurrency: two calls interleaving between the status write, the role write and the
  bulk delete are not modelled.
- A crash part-way through the cascade is not modelled either: the three writes are not
  atomic in the source.
- Insert-time schema validation for users is not modelled. It would check the stored hash
  against the password rules, and the corrected length rule would reject a 60-character
  bcrypt hash. Only the request insert is validated (content enum).
- `updateOne` and `findOneAndUpdate` run no validators in the source, so the model stores any
  status, content or name they are given.
- MongoDB `ObjectId`s and their casting are out of scope. Ids are natural numbers, and a
  malformed id string (a cast error) is not modelled.
- The loose `!=` between an `ObjectId` and the token's string id compares their text. It is
  modelled as id equality.
- Result order of `find` is not modelled: listings are maps from id to document.
- Response bodies: only the HTTP code, the message and the data are modelled. The `status`
  word of success envelopes and the JSON rendering are not.
- Body and query fields are modelled as absent or a string. JSON `null`, numbers and arrays
  in their place are not modelled.
- String lengths count Unicode scalar values, where JavaScript counts UTF-16 code units. They
  differ only outside the Basic Multilingual Plane.
- JsNumber does not model IEEE-754 rounding: finite values are exact reals. Where JavaScript
  rounds, the model keeps the exact value. `JsNumber.HexLiteralValue` gives the exact value of
  a hexadecimal literal above 2^53 (one of 20 characters reaches about 2^72), and the decimal
  "20.00000000000000001", which JavaScript rounds to exactly 20, stays above 20. The model of line 77 of the password
  validator stays faithful all the same. A password that reaches line 77 holds both letter
  cases and a digit, so it is never a decimal literal (`JsNumber.MixedCaseNumberIsHex`), and
  only a decimal can round onto 20. A hexadecimal literal is an integer, and rounding an
  integer above 20 to the nearest double keeps it above 20.
- bcrypt and jsonwebtoken are uninterpreted parameters (`Crypto`). Salting, the secret,
  signing time and expiry are left out. Only `compare(p, hash(p))` and "an issued token has
  no space and verifies to its claims" are assumed, where a lemma needs them.
- The `$regex` match with option `i` in `getUsers` is a parameter `matches(pattern, text)`.
  Regular-expression semantics are not modelled.
- The role values come from utils/userRoles.js, which is not part of this model. The
  constants "Admin", "User", "Seller" and "MaintenanceCenter" are assumed, and only their
  distinctness is used.
- The `authorize` middleware (middlewares/authorization.js) is not part of this model. Its
  guards are stated as preconditions on the caller's role.
- The password-reset, verification-code and password-change handlers the user routes import
  are not part of this model. The same goes for utils/transporterStore.js, config/db.js and
  index.js (email transport, connection, boot).
- A request without a body: `createRequest`, `updateStatusRequestById`,
  `updateMyRequestById`, `register` and `login` destructure `req.body`. Where the body
  parser leaves `req.body` undefined, that throws a TypeError that escapes `catchError`, and
  nothing is sent. The model treats a missing body as a body without the fields, so it
  answers with the handler's missing-field error. Only `updateUserById`, which tests
  `req.body` itself, distinguishes the two.

## Findings

| source | as written | input that shows it | evidently intended | confidence | as-written member | corrected member |
|---|---|---|---|---|---|---|
| utils/validate.js:13 | `!/[A-Za-z]/.test(name)` rejects only names with no letter at all. Line 5 has already required a capital first letter, so the check never fires | "Ab1" is accepted | every character a letter, as the message "must contain letters only" says | not executed | Validate.IsNameAcceptsDigits | Validate.IsNameFixed |
| utils/validate.js:77 | `password > 20` converts the password string to a number instead of taking its length. Most passwords convert to NaN and pass; a hexadecimal literal above 20 fails | "Abcdefgh1!abcdefghijklmnopqrst" (30 characters) is accepted; "    0x1F" (8 characters) is rejected | `password.length > 20`, as the message "between 8 and 20 characters" says | not executed | Validate.IsStrongPasswordAcceptsLong | Validate.IsStrongPasswordFixed |

What the corrected checks accept is proved by `Validate.IsNameFixedAccepts` and
`Validate.IsStrongPasswordFixedAccepts`. `UserController.RegistrationCheckFixed` is the
registration pipeline built from them, and `UserController.RegistrationChecksAgree` states
where it agrees with the pipeline as written. `UserController.Register` runs the pipeline as
written, as the source does.
