# Video-sharing backend: user controller model

A Dafny model of the user controller of a video-sharing web backend
(`server/src/controllers/user.controller.js`). The controller registers
accounts, logs users in and out, rotates refresh tokens, changes passwords,
updates profile details and replaces avatar and cover images. The model has
three parts:

- **Session-token state machine.** `Accounts.UserController` is a class
  holding the user collection (a map from user id to a `User` record), the
  next free id, and the table of refresh tokens the server has signed with
  the user id inside each. Each handler is a method. A method either fails
  with a `Thrown` value and changes nothing, or it succeeds and changes only
  the named fields. The one exception is the image update: a failed delete
  comes after the new URL is stored. Its object invariant (`Valid`) says:
  - every id is below the next free id;
  - usernames and emails are unique;
  - usernames are stored lower-cased;
  - every stored refresh token was signed for the user who holds it.

  Every method keeps the invariant.
- **Input checks.** `Validation` states the three checks exactly as the
  JavaScript evaluates them, on `Js.JsValue`, the values a JSON body can
  carry. These are the registration `some(field => field?.trim() === "")`,
  the login `!username && !email` and the profile `!fullName || !email`.
  An absent field passes the registration check. A white-space-only field
  fails it. A non-string, non-null field makes `trim` throw.
- **Public-id derivation.** `MediaKey.PublicId` takes the last `/`-segment
  of a stored URL and keeps the part before its first `.`. A lemma proves
  that it recovers `id` from any URL of the form `<prefix>/<id>.<ext>`.

External work is passed in as parameters:
- the token pair the signer produced, or None when signing or saving failed;
- whether a presented token has expired;
- the media host's answer to an upload (no result, or a record with a URL);
- whether the delete of the old image succeeded.

JWT verification looks the token up in the signed-token table. A password
check compares the candidate with the stored value: the stored password
stands for its hash. A value of another type than string is rejected
wherever the code stores or hashes it; Mongoose would store a number or
boolean as its text, which the model does not do (see "## Left out").

The model follows the code where it departs from the intended design.
- An absent registration field is not rejected by the empty-field check.
- A failed token issuance during refresh ends as 401, not 500, because the
  handler's `catch` rethrows every error as 401.
- A successful refresh rotates the stored token but sends the client no
  refresh token.

## Model

| member | source | states |
|---|---|---|
| `Js.Or` | server/src/controllers/user.controller.js:191-192 | the presented token is the cookie value when that is truthy and the body value otherwise; it is truthy iff either of them is |
| `Js.Trim` | server/src/controllers/user.controller.js:37 | `trim()` gives the empty string exactly when every character is JavaScript white space; otherwise the result neither starts nor ends with white space |
| `Js.Lower` | server/src/controllers/user.controller.js:87 | `toLowerCase()` keeps the length, leaves no upper-case ASCII letter, keeps every other character and maps each upper-case letter to its lower-case partner |
| `Js.LowerIdempotent` | server/src/controllers/user.controller.js:87 | lower-casing a lower-cased username changes nothing, which keeps stored usernames lower-case |
| `Js.Split` | server/src/controllers/user.controller.js:299-301 | `split` with a one-character separator always yields at least one part, and the first part has no separator |
| `Js.JoinSplit` | server/src/controllers/user.controller.js:299 | joining the parts of a split with the separator gives back the original string |
| `Js.SplitPartsAvoidSeparator` | server/src/controllers/user.controller.js:299-301 | no part of a split contains the separator or is longer than the string |
| `Js.SplitAtSeparator` | server/src/controllers/user.controller.js:299-301 | splitting `p + sep + q` is splitting `p` followed by splitting `q` |
| `Validation.FieldVerdict` | server/src/controllers/user.controller.js:37 | one field passes exactly when it is absent, null or a string with a non-space character; it throws exactly when it is neither nullish nor a string |
| `Validation.IdentifierMissing` | server/src/controllers/user.controller.js:116 | login rejects the request exactly when both username and email are one of JavaScript's falsy values (undefined, null, false, 0, "") |
| `Validation.DetailsMissing` | server/src/controllers/user.controller.js:259 | the profile update rejects the request exactly when the full name or the email is a falsy value |
| `Validation.StopIndex` | server/src/controllers/user.controller.js:37 | `some` stops at the first field that is blank or has no `trim`; every earlier field passes |
| `Validation.AnyBlank` | server/src/controllers/user.controller.js:36-40 | the registration check passes iff every field is absent, null or a string with a non-space character; otherwise its verdict (blank, or a thrown TypeError) is that of the first failing field |
| `Validation.BlankIffWhiteSpace` | server/src/controllers/user.controller.js:37 | a string field is blank iff it is made of white space only |
| `Validation.ChecksDisagree` | server/src/controllers/user.controller.js:37 | a white-space-only value fails registration but passes the login check (line 116) and the details check (line 259); an absent value passes registration and fails the details check, and it fails the login check only when the other key is absent too |
| `MediaKey.PublicId` | server/src/controllers/user.controller.js:299-301 | the derived public id contains neither `/` nor `.` and is no longer than the URL |
| `MediaKey.PublicIdOfHostedUrl` | server/src/controllers/user.controller.js:299-301 | for a URL `<prefix>/<id>.<ext>` whose id has no `/` or `.` and whose extension has no `/`, the derived public id is `id` |
| `MediaKey.PublicIdWithoutExtension` | server/src/controllers/user.controller.js:299-301 | for a URL `<prefix>/<id>` whose last segment has no `/` or `.`, the derived public id is that whole segment |
| `MediaKey.PublicIdOfFileName` | server/src/controllers/user.controller.js:299-301 | for a URL without any `/` of the form `<id>.<ext>`, the derived public id is the text before the first dot |
| `MediaKey.OldImageId` | server/src/controllers/user.controller.js:297-302 | no id (undefined) exactly when there is no old URL or it is empty; otherwise an id without `/` or `.` |
| `Accounts.FindFrom` | server/src/controllers/user.controller.js:122-124 | the lookup returns the first stored document, in id order, whose username or email equals the given string; None exactly when no document in range matches |
| `Accounts.FindOne` | server/src/controllers/user.controller.js:44-46 | the lookup's result is a stored document that matches by username or email, with no matching document of smaller id; no result means no stored document matches |
| `Accounts.FindOneFindsAny` | server/src/controllers/user.controller.js:122-128 | `findOne` finds a user exactly when some user matches by username or email, and then the earliest one |
| `Accounts.Verified` | server/src/controllers/user.controller.js:196-202 | verification yields an id only for a string the server signed that has not expired, and then the id signed into it; every such string verifies |
| `Accounts.ViewOmitsSecrets` | server/src/controllers/user.controller.js:91-93 | a document read without password and refresh token does not depend on either, and loses nothing else: the view, password and token together determine the document |
| `Accounts.AvatarPath` | server/src/controllers/user.controller.js:55 | the avatar path throws a TypeError exactly when files came without an `avatar` field; it is absent when no files came or the field is empty, and otherwise it is the first file's path |
| `Accounts.CoverUrl` | server/src/controllers/user.controller.js:84 | the stored cover image is empty exactly when the upload gave no result or an empty URL, and otherwise it is the uploaded URL |
| `Accounts.AcceptsIffStored` | server/src/controllers/user.controller.js:194-208 | under the invariant, a presented string passes the refresh checks iff it is non-empty, not expired and the stored refresh token of some user |
| `Accounts.RotationRevokes` | server/src/controllers/user.controller.js:18-19 | replacing a stored token by a different one keeps the invariant; afterwards the old token passes the refresh checks for nobody and the new one passes while live |
| `Accounts.LogoutRevokes` | server/src/controllers/user.controller.js:169-175 | after logout clears a user's token, the token the user held passes the refresh checks for nobody |
| `Accounts.InsertKeepsInvariant` | server/src/controllers/user.controller.js:81-88 | creating a document under a fresh id, with fresh keys, a lower-case name and no token keeps the store invariant |
| `Accounts.UserController.GenerateAccessAndRefreshToken` | server/src/controllers/user.controller.js:12-25 | succeeds iff the user exists and signing and saving succeed; then the stored refresh token equals the returned one and only that field changes; every failure is 500 and changes nothing |
| `Accounts.UserController.RegisterUser` | server/src/controllers/user.controller.js:27-106 | ordered errors: blank field 400, TypeError on a non-string field, existing username or email 409, `avatar` field missing with files present (TypeError), no avatar path 400, failed avatar upload 400, missing field or duplicate key on create; on success one new document with the username lower-cased, the cover image defaulting to "", no token, status 201; the invariant is kept |
| `Accounts.UserController.LoginUser` | server/src/controllers/user.controller.js:108-166 | ordered errors: neither key 400, no user 404, non-string password (thrown), wrong password 401, issuance failure 500; on success only the matched user's refresh token changes, both cookies are set, the envelope holds the user without password or token and both tokens |
| `Accounts.UserController.LogoutUser` | server/src/controllers/user.controller.js:168-188 | the user's stored refresh token becomes absent and nothing else changes; status 200 and both cookies cleared |
| `Accounts.UserController.RefreshAccessToken` | server/src/controllers/user.controller.js:190-232 | every failure is 401 and changes nothing; success iff the presented token is truthy, verifies, names an existing user and equals that user's stored token, and issuance succeeds; then the stored token is rotated, and the response's refresh token and refresh cookie are undefined |
| `Accounts.UserController.ChangeCurrentPassword` | server/src/controllers/user.controller.js:234-247 | a wrong old password is 400 and changes nothing; otherwise only the password changes, the refresh token included stays |
| `Accounts.UserController.UpdateUserDetails` | server/src/controllers/user.controller.js:256-275 | a falsy full name or email is 400; otherwise only those two fields change (a duplicate email is rejected); the response holds the updated user without password or token, or null when there is no such user |
| `Accounts.UserController.UpdateImage` | server/src/controllers/user.controller.js:277-355 | missing path 400, no upload result (thrown), empty URL 400; otherwise the new URL is stored in the avatar or cover-image field alone, the public id handed to the delete is derived from the old URL, and a failed delete is 400 with the new URL already stored |

## Left out

- `getUserChannelProfile` and `getWatchHistory` (lines 357-478) are database aggregation pipelines, not application logic. The `watchHistory` field is not part of `User` either.
- `getCurrentUser` (lines 249-254) returns the user the authentication middleware loaded. That middleware is not part of this model. The handlers take the authenticated user's id as a parameter.
- The user schema file is not part of this model. These behaviours are assumptions about it:
  - lookups compare stored strings exactly: schema setters (lower-casing, trimming) on query values are not modelled, and a null or undefined query value matches nothing;
  - a lookup key that is not a string matches nothing, so a login whose username or email is a number, boolean, array or object (and no other key matches) ends in 404. Mongoose would cast a number or boolean to its string, and an object key is a query operator there (`{"$ne": null}` matches every document); neither is modelled;
  - in registration, a field that is neither nullish nor a string makes `trim` throw before the lookup (line 37); a nullish username passes that check and makes `toLowerCase` throw only after the lookup, the avatar checks and both uploads (line 87), so a matching email gives 409 first;
  - registration's `User.create` rejects a missing field or a duplicate username or email, and the profile update rejects an email another user holds, as the unique indexes do;
  - the password hash is idealised as the identity. The limits of the hashing library (the 72-byte truncation) are not modelled.
- Accounts.UserController.ChangeCurrentPassword: a number or boolean new password is rejected (`Uncaught`). Mongoose's String type would store its text (line 241) and the handler would answer 200. Store-time casting is not modelled.
- Accounts.UserController.UpdateUserDetails: a number or boolean full name or email is rejected (`Uncaught`). Mongoose would store its text through `$set` (lines 264-267) and answer 200. Store-time casting is not modelled.
- Accounts.UserController.LogoutUser: reads `$set: { refreshToken: undefined }` (line 172) as removing the stored token, as Mongoose up to version 6 does. The Mongoose version is not part of this model; a version that strips undefined values from updates leaves the token stored and still accepted by the refresh handler, and `LogoutRevokes` then does not describe the deployed behaviour.
- `findOne` returns the matching document with the smallest id, standing for insertion order.
- Database failures are not modelled except where the code maps them to a status (token issuance, 500).
- The `!createdUser` 500 branch of registration (lines 97-99) cannot fire in this sequential model: the document was just created.
- JWT signing and verification are a table of signed refresh tokens plus an `expired` flag. Secrets, token contents and access-token checks are not modelled.
- Media uploads and deletes are outcome parameters. The cover-image upload outcome is a parameter whether or not a cover file came.
- Express plumbing is not modelled: cookie options, messages, the envelope's own status field and `console.log` (line 333). Express writes an undefined cookie value as the text "undefined". The model keeps it as `Undefined`.
- Requests are handled one at a time. Concurrent refreshes are not modelled.
- `Js.JsValue`: numbers are integers, so fractional numbers are not modelled. Arrays and objects are one value, `Obj`.
- Js.Lower: lower-cases ASCII letters only. JavaScript's `toLowerCase` also maps non-ASCII letters. A username with such letters is stored with them unchanged in this model.
