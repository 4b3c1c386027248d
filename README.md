# node-web-app: accounts, bearer-token guard and contacts, in Dafny

This project models the request handlers of a small Express/Mongoose
phone-book backend. The model covers:

- the account controller: sign-up, e-mail verification, resending the
  verification mail, login, logout, the current user, changing the
  subscription tier and resetting a password;
- the `auth` middleware, which admits a bearer token only when it verifies,
  names a user through its `userId` claim and matches a stored session;
- the contact controller: a paginated, owner-filtered listing, and reads,
  creates, updates and deletes of one contact, each checked against the
  contact's owner;
- the Joi request schemas and the User and Session record schemas.

Modules, in dependency order:

| file | module | form |
|---|---|---|
| json.dfy | `Json` | JSON request bodies as key/value pairs in the order written (the last duplicate wins), plus Option and Result |
| form_validation.dfy | `FormValidation` | Joi object schemas: declared keys are checked in order, unknown keys are refused in `Object.keys` order, the first error aborts |
| user_model.dfy | `UserModel` | the User document, `User.create` validation and defaults, the unique e-mail index, bcrypt reduced to its cyclic 72-byte key |
| session_model.dfy | `SessionModel` | the Session document |
| auth.dfy | `Auth` | the guard, as a pure function from header, verifier, sessions and users to a verdict |
| user_controllers.dfy | `UserControllers` | class `AccountStore`, a mutable `map` of users with one method per handler |
| contact_controllers.dfy | `ContactControllers` | the pure query (skip, limit, filter) and class `ContactStore`, a mutable `seq` of contacts |

Every handler returns a `Reply` holding the HTTP status and the JSON
payload. The constant texts are the source's own.

Effects the model cannot see are passed in as parameters:

- whether the mail was sent (`mailSent`);
- the bcrypt salt;
- the v4 UUID;
- the gravatar URL;
- the new document's ObjectId;
- the JWT signer and verifier (`Signer`, `Verifier`);
- the clock (`now`).

The Swagger comments in routes/api/users.js describe behaviour the handlers
do not have, and the model follows the handlers:

- routes/api/users.js:246-256 documents a login reply with an access token
  and a refresh token. The handler (controllers/userControllers.js:194-200)
  returns one `token` and creates no session.
- routes/api/users.js:305-330 documents logout deleting the session. The
  handler (controllers/userControllers.js:209-218) only writes `token`, a
  path the User schema does not have.
- routes/api/users.js:583-693 documents a forgot-password flow. Its handlers
  are not exported by the controller.

## Model

| member | source | states |
|---|---|---|
| Json.Lookup | controllers/userControllers.js:47 | `body[key]` is absent exactly when no pair has that key, and otherwise it is the value of the last pair with that key |
| Json.Falsy | controllers/userControllers.js:131 | `!email` holds for an absent field and for null, never for an object or a non-empty string |
| Json.Pick | controllers/userControllers.js:284-286 | the object `{ email, password }` built from the body agrees with the body on the picked keys and holds no other key |
| FormValidation.CheckKey | helpers/formValidation.js:4-8 | any error a key's rule reports names that key as its path |
| FormValidation.CheckValue | helpers/formValidation.js:4-45 | a value's error code is of the kind its rule checks (string codes for `Joi.string()`, `any.only` for `valid`, `boolean.base` for `Joi.boolean()`); `string.empty` only for the empty string; a string rule passes only a non-empty string of at least `min` UTF-16 units |
| FormValidation.CheckKeys | helpers/formValidation.js:4-45 | an error from the declared keys names a declared key and is never `object.unknown` |
| FormValidation.CheckKeysFirst | helpers/formValidation.js:4-8 | the declared keys pass exactly when each passes; otherwise the error is the first failing key in declaration order |
| FormValidation.FirstUnknownFirst | helpers/formValidation.js:4-8 | no undeclared key is reported exactly when every body key is declared; otherwise the reported key is undeclared and no undeclared key precedes it in `Object.keys` order (array-index keys first by value, then the others as written) |
| FormValidation.FirstUnknown | helpers/formValidation.js:4-45 | a reported unknown key is a key of the body that the schema does not declare |
| FormValidation.IndexKeyReportedFirst | helpers/formValidation.js:43-45 | with the favorite schema, a body `{"favorite":true,"zz":1,"7":2}` is refused naming "7", not "zz" |
| FormValidation.ArrayIndex | helpers/formValidation.js:4-45 | a key counts as an array index (listed first by `Object.keys`) only when it is a non-empty run of digits whose value is below 2^32 - 1 |
| FormValidation.ValidateAccepts | helpers/formValidation.js:4-45 | a schema accepts a body exactly when every declared key meets its rule and the body carries no undeclared key |
| FormValidation.Validate | helpers/formValidation.js:4-45 | `schema.validate(body).error`: an `object.unknown` error names an undeclared key, and every other error names a declared key |
| FormValidation.ValidateReportsFirstFailure | helpers/formValidation.js:4-45 | the error returned is the first failing declared key; if every declared key passes, it is the first undeclared key in `Object.keys` order, with code `object.unknown` |
| FormValidation.AcceptsExactly | helpers/formValidation.js:4-45 | a schema accepts a body exactly when all its keys pass and every body key is one of its key names |
| FormValidation.JsLength | helpers/formValidation.js:7 | a string's JavaScript length is between its character count and twice that (a character outside the Basic Multilingual Plane counts as two UTF-16 code units) |
| FormValidation.AstralCharactersCountTwice | helpers/formValidation.js:7 | three emoji are six code units long, so they meet `min(6)` |
| FormValidation.TextKey | helpers/formValidation.js:7 | a required `Joi.string().min(n)` key passes exactly when it is a non-empty string of at least n UTF-16 code units |
| FormValidation.EmailKey | helpers/formValidation.js:6 | a required `Joi.string().email()` key passes exactly when it is a non-empty string with e-mail syntax |
| FormValidation.FlagKey | helpers/formValidation.js:39 | a `Joi.boolean()` key passes exactly when it is a boolean or "true"/"false" in any letter case, or when it is optional and absent |
| FormValidation.SignupSchemaAccepts | helpers/formValidation.js:4-8 | accepts exactly when name is present, email is valid, password has at least 6 characters and there are no other keys |
| FormValidation.LoginSchemaAccepts | helpers/formValidation.js:11-14 | accepts exactly when email is valid, password has at least 6 characters and there are no other keys |
| FormValidation.SubscriptionSchemaAccepts | helpers/formValidation.js:17-19 | accepts exactly when subscription is one of starter, pro, business and there are no other keys |
| FormValidation.ResetPasswordSchemaAccepts | helpers/formValidation.js:22-25 | accepts exactly when newPassword and retypeNewPassword each have at least 6 characters and there are no other keys |
| FormValidation.ResetPasswordAcceptsMismatch | helpers/formValidation.js:22-25 | the two new passwords need not be equal: a body where they differ is accepted |
| FormValidation.ChangePasswordSchemaAccepts | helpers/formValidation.js:28-32 | accepts exactly when currentPassword, newPassword and retypeNewPassword each have at least 6 characters and there are no other keys |
| FormValidation.ContactSchemaAccepts | helpers/formValidation.js:35-40 | accepts exactly when name, email and phone are present (email valid) and favorite is absent or boolean, with no other keys |
| FormValidation.FavoriteSchemaAccepts | helpers/formValidation.js:43-45 | accepts exactly when favorite is a boolean and is the only key |
| FormValidation.EmailPasswordSchemaAccepts | controllers/userControllers.js:24-27 | the controller's local reset schema accepts exactly a valid email plus a newPassword of at least 6 characters |
| UserModel.SubscriptionName | models/user.js:19-23 | every tier's stored name is one of the three enumerated names |
| UserModel.ParseSubscription | models/user.js:19-23 | a text is accepted exactly when it is one of the enumerated names, and it parses back to the tier that has that name |
| UserModel.Utf8 | controllers/userControllers.js:53 | one character encodes to 1 to 4 UTF-8 bytes, to one byte exactly when it is ASCII, and to a zero byte only when it is NUL |
| UserModel.Encode | controllers/userControllers.js:53 | a password's UTF-8 encoding has at least one byte per character, and holds a zero byte exactly when the password holds NUL |
| UserModel.EncodeAppend | controllers/userControllers.js:53 | the encoding of a concatenation is the concatenation of the encodings |
| UserModel.Cycle | controllers/userControllers.js:53 | repeating a block to n bytes starts with the block and repeats with the block's period |
| UserModel.CycleOfDouble | controllers/userControllers.js:185 | repeating a doubled block gives the same bytes as repeating the block |
| UserModel.BcryptKey | controllers/userControllers.js:53 | bcrypt's key is 72 bytes: the password's UTF-8 bytes and a NUL terminator, repeated with that period; from 72 bytes on, just the first 72 bytes |
| UserModel.Hash | controllers/userControllers.js:53 | the stored hash matches the password it was made from, with cost 10 |
| UserModel.Matches | controllers/userControllers.js:185 | `bcrypt.compare` holds exactly when hashing the password again with the stored salt and cost 10 gives the stored record |
| UserModel.ShortPasswordsDistinguished | controllers/userControllers.js:185 | when both passwords are under 72 bytes and hold no NUL, a password with different bytes does not match |
| UserModel.RepeatAfterNulMatches | controllers/userControllers.js:185 | a password followed by NUL and itself again matches the password's hash, because the key is read cyclically |
| UserModel.OnlyFirst72BytesCount | controllers/userControllers.js:185 | a password of 72 bytes or more matches any password that shares its first 72 bytes |
| UserModel.Instantiate | models/user.js:6-32 | creation succeeds exactly when name and email are non-empty and a password is present; a missing name is the reported error; fields are copied; subscription defaults to starter and verify to false |
| UserModel.InsertKeepsValid | models/user.js:10-14 | inserting a document whose e-mail and verification token are not in use keeps e-mails unique and tokens unique |
| UserModel.UpdateKeepsValid | models/user.js:10-14 | rewriting a document without changing its e-mail, and without taking another document's token, keeps the collection valid |
| UserModel.EmailsUnique | models/user.js:10-14 | the unique index on email: no two documents share an e-mail |
| UserModel.CollectionValid | models/user.js:6-32 | the stored collection: e-mails unique, verification tokens unique, and every document with its required name and e-mail |
| SessionModel.SessionValid | models/session.js:6-22 | a stored session has a userId, an access token and a refresh token, all non-empty; whether the user still exists plays no part |
| SessionModel.SeveralSessionsPerUser | models/session.js:6-22 | one user may own several valid sessions (there is no unique index on userId, and validity does not depend on which users exist) |
| Auth.Split | middlewares/auth.js:8 | `split(' ')` yields at least one part, no part contains the separator, and joining the parts restores the header |
| Auth.BearerToken | middlewares/auth.js:8-13 | a token that is present is non-empty and contains no space |
| Auth.BearerTokenIsSecondWord | middlewares/auth.js:8 | the token is the second word whatever the first word is: the scheme is never checked to be "Bearer" |
| Auth.SchemeOnlyIsMissing | middlewares/auth.js:8-13 | a header with no second word, or an empty one, counts as a missing token |
| Auth.FindSession | middlewares/auth.js:20 | the session found has the presented access token and, when the payload has one, the decoded userId (an undefined userId is dropped from the filter); none is found exactly when no stored session matches |
| Auth.Holds | middlewares/auth.js:20 | the filter `{ accessToken, userId }`: a holding session has the token; without a userId the token alone decides; a different userId never holds |
| Auth.Authenticate | middlewares/auth.js:6-41 | 401 "Access token missing" exactly when no token is present, and no other 401; 403 "Invalid or expired token" exactly when a token is present but does not verify or no stored session matches the filter; 404 "User not found" exactly when the token verifies, a session matches the filter and either the payload has no userId (`findById(undefined)` finds nobody) or that user does not exist; `next` happens exactly when the token verifies, a session matches and the user exists, and then the principal is the decoded userId |
| Auth.FindSessionSameGrants | middlewares/auth.js:20 | session lookup depends only on each session's user and access token |
| Auth.ExpirationIgnored | middlewares/auth.js:20-25 | the guard never reads a session's expiration or refresh token |
| Auth.TokenWithoutUserIdRefused | middlewares/auth.js:17-33 | a token whose payload has no userId claim is never admitted: 404 when it verifies and some stored session holds it, 403 otherwise |
| Auth.OrphanSessionRefused | middlewares/auth.js:17-33 | a session whose user no longer exists still matches, and the guard answers 404 |
| Auth.NoSessionsAdmitNobody | middlewares/auth.js:20-25 | with no sessions stored, every request is denied |
| UserControllers.LoginClaims | controllers/userControllers.js:190 | login signs `{ id }`, with no userId claim, valid for one hour |
| UserControllers.NewAccount | controllers/userControllers.js:53-68 | the stored account's hash matches the password given, its verification token is the fresh UUID, it is unverified and on starter |
| UserControllers.AccountStore.Create | models/user.js:6-18 | `User.create` inserts exactly the instantiated document under the fresh id when the schema accepts the document and the e-mail is unused, and otherwise changes nothing; a missing name always fails |
| UserControllers.AccountStore.Register | controllers/userControllers.js:53-95 | once past the duplicate check, exactly one user is stored, with a hashed password, a fresh token and verify false; a failed mail answers 500 and the user stays stored |
| UserControllers.AccountStore.Signup | controllers/userControllers.js:39-100 | signup as written: invalid → 400, duplicate e-mail → 409, otherwise 500; the store never changes and 201 never happens |
| UserControllers.AccountStore.SignupWithName | controllers/userControllers.js:39-100 | signup as intended: 400 on invalid data and 409 on a duplicate e-mail, both leaving the store unchanged; otherwise exactly one new account is stored, answering 201 or, if the mail fails, 500 |
| UserControllers.AccountStore.VerifyEmail | controllers/userControllers.js:103-125 | 404 and no change for an unknown token; otherwise only the holder changes, becoming verified with its token cleared; afterwards no user holds the token, so a replay gets 404 |
| UserControllers.AccountStore.ResendVerificationEmail | controllers/userControllers.js:128-164 | falsy email → 400, unknown → 404, already verified → 400, then 200 or 500 by the mail outcome; the store is only read |
| UserControllers.AccountStore.Login | controllers/userControllers.js:167-206 | the reply equals `LoginReply`: 200 exactly when the credentials belong to a verified user; the checks run in order (400 schema detail, 401 unknown e-mail, 401 unverified, 401 wrong password), and success returns a token signed over `{ id }`; nothing is stored |
| UserControllers.AccountStore.Logout | controllers/userControllers.js:209-218 | always 204 with no body, and nothing stored changes (`token` is not a schema path) |
| UserControllers.AccountStore.CurrentUser | controllers/userControllers.js:221-228 | 200 with the principal's e-mail and subscription |
| UserControllers.AccountStore.UpgradeSub | controllers/userControllers.js:230-246 | 400 with the Joi detail and no change, or only the principal's subscription changes to the requested tier, which is echoed back |
| UserControllers.AccountStore.ResetPassword | controllers/userControllers.js:283-302 | 400 when `{ email, password }` fails the schema, 404 for an unknown e-mail (no change in either case), otherwise only that user's password hash is replaced; the principal plays no part |
| UserControllers.SignupRefusesName | controllers/userControllers.js:13-16 | the controller's signup schema rejects any body that carries `name` |
| UserControllers.ResetPasswordValidation | controllers/userControllers.js:284-289 | reset validation passes exactly when email is valid and the password has at least 6 characters; other keys are ignored |
| UserControllers.LoginReply | controllers/userControllers.js:170-200 | login's reply is 200 exactly when the credentials belong to a verified user, and otherwise 400 or 401 |
| UserControllers.UnknownEmailLooksLikeWrongPassword | controllers/userControllers.js:176-188 | an unknown e-mail and a wrong password for a verified account get the identical reply, 401 "Email or password is wrong" |
| UserControllers.UnverifiedAccountRevealed | controllers/userControllers.js:176-183 | an unverified account gets 401 "Please verify your email" whatever the password, a reply an unknown e-mail never gets |
| UserControllers.LoginTokenRefusedByGuard | controllers/userControllers.js:190 | no token login issues gets past the guard; it gets 403 when no stored session holds it, as with the sessions this code leaves (none) |
| UserControllers.SessionClaims | middlewares/auth.js:20 | the payload the guard reads carries the user id under `userId`, valid for one hour |
| UserControllers.SessionTokenAdmitted | middlewares/auth.js:17-37 | a token signed over `{ userId }` and stored in a session admits its user |
| ContactControllers.FavoriteFilter | controllers/contactControllers.js:21 | no favorite filter without a query value; "true" filters on true, and any other value filters on false |
| ContactControllers.Skip | controllers/contactControllers.js:19 | `(page - 1) * limit`: 0 on the first page, never negative from page 1 with a non-negative limit, negative for page 0 or below with a positive limit |
| ContactControllers.Selected | controllers/contactControllers.js:20-21 | the find filter: a selected contact is the user's own; without a favorite filter ownership alone decides; a contact with another favorite flag is never selected |
| ContactControllers.Owned | controllers/contactControllers.js:20-23 | a contact is selected exactly when it is stored, owned by the user and, when filtered, has the requested favorite flag |
| ContactControllers.Window | controllers/contactControllers.js:23-25 | skip and limit select a contiguous run starting at `skip`; limit 0 means all, a negative limit means its absolute value |
| ContactControllers.ListContacts | controllers/contactControllers.js:18-27 | the query fails exactly when `(page-1)*limit` is negative; otherwise every listed contact is stored, owned by the user and matches the filter, and there are at most \|limit\| of them when limit is non-zero |
| ContactControllers.DefaultsListFirstTwenty | controllers/contactControllers.js:18-19 | with the default page and limit, the first twenty selected contacts are listed |
| ContactControllers.ContactOnItsPage | controllers/contactControllers.js:19-25 | the contact at position i appears on page i/limit + 1, at offset i mod limit |
| ContactControllers.PageStart | controllers/contactControllers.js:19 | the page that holds position i skips (i div limit)·limit contacts |
| ContactControllers.ConsecutivePages | controllers/contactControllers.js:24-25 | two consecutive pages together form the double-size window: pages neither overlap nor leave gaps |
| ContactControllers.CastBool | controllers/contactControllers.js:81-84 | booleans cast to themselves; a string with upper-case letters is a cast error |
| ContactControllers.JoiAcceptsWhatMongooseRefuses | controllers/contactControllers.js:76-84 | "TRUE" passes the contact form but fails the Boolean cast when saved |
| ContactControllers.LowerCaseFlagsCast | controllers/contactControllers.js:76-84 | every lower-case value Joi accepts casts to the boolean Joi reads it as |
| ContactControllers.OverwriteText | controllers/contactControllers.js:40 | an absent path keeps its value, a string overwrites it, and any other value is a cast error |
| ContactControllers.OverwriteFlag | controllers/contactControllers.js:40 | an absent favorite keeps its value; `null` clears it; any other value is overwritten with its cast, or is a cast error |
| ContactControllers.NullFavoriteClears | controllers/contactControllers.js:39-41 | an update of `{ "favorite": null }` succeeds and clears the flag |
| ContactControllers.ApplyPatch | controllers/contactControllers.js:39-41 | an update succeeds exactly when every path in the body casts; the id is kept; every path the body names takes the body's (cast) value, and every path it does not name keeps its old value |
| ContactControllers.UnknownKeysIgnored | controllers/contactControllers.js:39-41 | a body naming no contact path leaves the contact as it is |
| ContactControllers.PatchIdempotent | controllers/contactControllers.js:39-41 | applying the same update twice is the same as applying it once |
| ContactControllers.FavoritePatch | controllers/contactControllers.js:134-148 | an accepted favorite-only body changes just the favorite flag, or fails to cast |
| ContactControllers.NewContact | controllers/contactControllers.js:81-84 | a new contact takes its id and owner from the request (the principal), its name, email and phone from the body, and its favorite from the body's cast value (none when absent) |
| ContactControllers.FindIndex | controllers/contactControllers.js:30 | the position found holds the id; none is found exactly when no contact has it |
| ContactControllers.ContactStore.GetListContacts | controllers/contactControllers.js:47-54 | 500 exactly when the skip is negative, otherwise 200 with the requested page of the principal's selected contacts |
| ContactControllers.ContactStore.GetContact | controllers/contactControllers.js:57-71 | 404 for an unknown id, 403 when another user owns the contact, otherwise 200 with the contact; nothing changes |
| ContactControllers.ContactStore.AddContact | controllers/contactControllers.js:74-89 | 400 naming the first failing field and no change; a failed cast gives 500 and no change; otherwise exactly one contact is appended, owned by the principal |
| ContactControllers.ContactStore.Update | controllers/contactControllers.js:98-107 | 404, then 403 with no change, then 500 on a failed cast, or only the targeted contact is patched |
| ContactControllers.ContactStore.UpdateContact | controllers/contactControllers.js:92-111 | an empty body gives 400 before any lookup; then as Update |
| ContactControllers.ContactStore.RemoveContact | controllers/contactControllers.js:114-129 | 404 and 403 change nothing; otherwise exactly the targeted contact is removed and every other contact remains |
| ContactControllers.ContactStore.UpdateFavorite | controllers/contactControllers.js:132-152 | the favorite form is checked (400) before lookup (404) and ownership (403); then only the favorite flag changes, or a failed cast gives 500 |

## Left out

- app.js, routes/api/users.js, routes/api/contacts.js and swaggerConfig.js are wiring and documentation, so they are not modelled. Two wiring facts shape the model:
  - app.js:31 mounts only the users router, so the contact handlers are unreachable over HTTP.
  - routes/api/users.js:579 puts reset-password behind `auth`.
- The forgot-password routes at routes/api/users.js:632 and 693 import handlers that userControllers.js does not export, so there is nothing to model.
- controllers/aiController.js and routes/api/aiRoutes.js are a pass-through to an external API.
- helpers/sendEmail.js and the nodemailer transporter are outbound I/O. The outcome of a send is the `mailSent` parameter.
- `uploadAva` (controllers/userControllers.js:250-280) and middlewares/upload.js are disk and image I/O.
- bcrypt is a salted record of its cyclic 72-byte key (`UserModel.BcryptKey`, `UserModel.Hash`, `UserModel.Matches`), not the Blowfish-based digest. The only collisions modelled are the ones the key schedule causes (truncation, and repetitions after a NUL); digest collisions are not.
- jsonwebtoken is the `Signer`/`Verifier` parameters. Expiry is whatever the verifier decides.
- uuid, gravatar and ObjectId generation are parameters. Their freshness is a precondition (`id !in users`, `!TokenHeld(users, uuid)`).
- FormValidation.EmailSyntax: Joi's e-mail grammar (top-level-domain list, length limits) is reduced to one '@', a non-empty local part, a dotted domain and no spaces.
- models/contact.js is not part of this model: the repository does not contain it. The contact document has the contact form's paths plus `owner`, and `favorite` is cast as a Mongoose Boolean.
- ContactControllers.OverwriteText: Mongoose converts numbers and booleans to text on string paths and accepts `null`. Here any non-string value is a cast error.
- ContactControllers.ApplyPatch: `_id`, update operators (`$set`, …) and ObjectId casting of `owner` are not modelled. Any string is accepted as an owner.
- `populate('owner', 'email subscription')`: the listed contacts carry the owner id, not the populated owner.
- ContactControllers.Query: `page` and `limit` are the integers their query texts denote. Non-numeric or fractional texts (which give NaN or a truncated `parseInt`) are not modelled.
- A contact id that is not a valid ObjectId makes `findById` throw, giving 500 through the error handler. Here such an id is simply not found (404).
- UserControllers.AccountStore.ResendVerificationEmail: a non-string `email` (a number, `true` or an object) is matched against no user. Mongoose would cast a number or boolean to text, and an object would act as a query operator.
- Database failures, and the 500 replies of the `catch` blocks that only such failures reach, are not modelled. Timestamps are not modelled either.
- Requests are modelled one at a time, with no concurrency.
- SessionModel.SessionValid: `userId` is any non-empty id. A session whose userId does not cast to an ObjectId would make `Session.findOne` throw (403 through the guard's catch), which is not modelled.
- Sessions: nothing in the code creates, refreshes or deletes one. `SessionModel` only describes the collection the guard reads.

## Findings

| source | as written | input that shows it | evidently intended | confidence | as-written member | corrected member |
|---|---|---|---|---|---|---|
| controllers/userControllers.js:13-16, 42-45, 63-68 | signup validates with a local schema that lacks `name` and refuses unknown keys, and calls `User.create` without `name`, which the User schema requires | `{"name":"Ann","email":"ann@mail.com","password":"secret1"}` gets 400; `{"email":"ann@mail.com","password":"secret1"}` gets 500 from the failed `name` validator | validate with the shared signup schema (name, email, password) and store the name, answering 201 | not executed | UserControllers.AccountStore.Signup, UserControllers.SignupRefusesName | UserControllers.AccountStore.SignupWithName |
| controllers/userControllers.js:190, middlewares/auth.js:17-25 | login signs `{ id }` and creates no session, while the guard looks up the session by `decoded.userId` | `Authorization: Bearer <token from login>` on `/api/users/current` gets 403 "Invalid or expired token", since no code stores a session holding that token | sign `{ userId }` and store a Session for the token, so the guard admits its holder | not executed | UserControllers.LoginTokenRefusedByGuard | UserControllers.SessionTokenAdmitted |
