# MemoryHaze backend: a Dafny model of its access, account and maintenance logic

MemoryHaze is a service where users request personalised gifts (photos, scenarios, a
song), an operator builds them, and the recipient opens them through a mailed link that
carries the user's id encrypted. This project models the parts of its backend that decide
who may see what and how stored records change:

- the gift routes (`routes/gifts.js`): the lazy auto-expiry sweep over a user's gifts,
  the validation and construction of a gift request, and the two read gates (the mailed
  link, and the plain detail read), in `gifts.dfy`;
- the link token codec (`utils/encryption.js`): `hex(iv) + ':' + hex(ciphertext)` over
  AES-256-CBC with a scrypt-derived key, in `encryption.dfy`;
- the one-time-code sign-up and password-reset flows (`routes/auth.js`), in
  `auth_routes.dfy`;
- the admin routes (`routes/admin.js`): the paged listing of verified users, user
  creation and gift creation, in `admin_routes.dfy`;
- the asset-store helpers (`utils/cloudinary.js`), in `cloudinary.dfy`;
- the two one-off migrations (`migrateGiftsSchema.js`, `migrateUserIds.js`), in
  `migrate_gifts.dfy` and `migrate_user_ids.dfy`;
- the schemas (`models/User.js`, `models/Gift.js`), in `user_model.dfy` and
  `gift_model.dfy`;
- the two request guards (`middleware/auth.js`, `middleware/requireAdmin.js`), in
  `auth_middleware.dfy` and `require_admin.dfy`.

Shared pieces: `wrappers.dfy` (Option and Result), `js_values.dfy` (a JSON value with
JavaScript truthiness, `||`, destructuring defaults and the schema's string cast),
`strings.dfy` (split, join, first-occurrence replace, JavaScript `trim`, `.length` in UTF-16 code units, `padStart`,
decimal formatting and its inverse), and `sequences.dfy` (selecting from a collection).

How the model is built:

- Collections that handlers change are classes with a `seq` or `map` field: the users
  collection, the gift table of the gift routes, the gift store of the admin route, the
  collections the migrations walk, and the asset store with its call log. Each handler
  is a method whose `ensures` ties its reply and the new collection to a pure function
  of the old collection. The properties the source promises are lemmas about those
  functions.
- The two migration loops and the photo-deletion loop keep their loops. They are proved
  with loop invariants against the state they must reach.
- Library calls are parameters of the functions that use them:
  - AES-CBC, scrypt and UTF-8 are a `Crypto` record. `Encryption.Lawful` states the
    inverse laws the round trip relies on.
  - `decodeURIComponent`, `new Date(...)`, bcrypt, `jwt.verify` and `User.findById` are
    function parameters.
  - The Cloudinary SDK is an oracle, `respond(k, call)`: the answer to the `k`-th call.
  - The Mongo email regex is `emailMatches`, and the ObjectId cast is `castId`.
  - The OTP draw, the clock and the mail outcome are plain values.

Requests are sequential: each handler runs to completion before the next one starts.

## Model

| member | source | states |
|---|---|---|
| RequireAdmin.Guard | middleware/requireAdmin.js:2-7 | `next` is called exactly when there is a user and it is an admin; otherwise 403 "Admin access required", and a missing user is refused like a non-admin one |
| AuthMiddleware.Authenticate | middleware/auth.js:5-27 | every refusal is a 401 with one of the three messages "No token", "Token is not valid", "User not found" |
| AuthMiddleware.BearerPrefixRemoved | middleware/auth.js:6 | the token of `Bearer <t>` is `t`, even when `t` itself contains `Bearer ` |
| AuthMiddleware.RemovalNotAnchored | middleware/auth.js:6 | only the first `Bearer ` is removed, wherever it stands; text before it stays in the token |
| AuthMiddleware.NoTokenDecidesAlone | middleware/auth.js:8-10 | a missing header or an empty token gives "No token" whatever the verifier and the database would answer |
| AuthMiddleware.AuthenticatedExactly | middleware/auth.js:13-23 | a request passes exactly when the token verifies, names a user id and that user is found, and it then carries that user without password and OTP fields |
| UserModel.Public | middleware/auth.js:16 | the loaded identity keeps the user's id, email and admin flag |
| UserModel.NewUser | models/User.js:3-33 | a new user has the given fields, null `otp` and `otpExpiry` unless given, and `isVerified` and `isAdmin` false unless set |
| UserModel.FindByEmail | routes/auth.js:39 | `findOne({ email })` gives the first user with that email, or none when no user has it |
| UserModel.FindById | routes/admin.js:126 | `findById` gives a user with that id, or none when no user has it |
| UserModel.ReplaceKeepsUnique | models/User.js:8-12 | saving a changed user under the same email and id keeps emails and ids unique |
| UserModel.AppendKeepsUnique | models/User.js:8-12 | inserting a user whose email and id are new keeps emails and ids unique |
| UserModel.UserCollection.Replace | routes/auth.js:50-52 | saving a changed user replaces it in place and keeps the collection unique |
| UserModel.UserCollection.Insert | routes/auth.js:54-62 | saving a new user appends it and keeps the collection unique |
| JsValues.CastString | models/Gift.js:11-41 | the schema's string cast keeps strings and leaves null and undefined absent. Numbers, booleans and dates become their text, and an object becomes its non-empty string `_id`. Arrays and any other object are a cast error |
| GiftModel.CastStrings | models/Gift.js:16-19 | a `[String]` path casts exactly when every element casts. Each element is cast in place and null elements are kept as null |
| GiftModel.Defaults | models/Gift.js:16-41 | a gift given only its owner and template gets empty `scenarios` and `photos`, null `memory`, `plan` and `audio`, and `''` lyrics |
| GiftModel.CastTextIsNoTemplate | models/Gift.js:11-15 | a number or boolean cast to text is never one of the four template names |
| GiftModel.ValidWithDefaults | models/Gift.js:3-44 | with the optional fields at their defaults, a gift is valid exactly when it has an owner and one of the four listed templates. The template may be a string, an object's string `_id` or a date's text, but never a number or a boolean |
| Encryption.KeySecret | utils/encryption.js:10-19 | the key secret is `ENCRYPTION_SECRET` when set and non-empty, and the fixed fallback otherwise |
| Encryption.EncryptionKey | utils/encryption.js:10-19 | the key is a function of the configuration alone, 32 bytes long under a lawful scrypt |
| Encryption.HexEncode | utils/encryption.js:36 | hex encoding gives two hex digits per byte |
| Encryption.HexHasNoColon | utils/encryption.js:36 | hex text never contains the separator `:` |
| Encryption.HexRoundTrip | utils/encryption.js:57-62 | Node's hex decoding gives back the bytes that were hex encoded |
| Encryption.EncryptUserId | utils/encryption.js:26-41 | a token is `hex(iv)`, then `:`, then the ciphertext's hex; it succeeds exactly when the id is present, and every failure is "Failed to encrypt user ID" |
| Encryption.DecryptUserId | utils/encryption.js:48-70 | every failure is "Failed to decrypt user ID". A token fails if it does not split into exactly two parts, or if its ciphertext part has odd length (`decipher.update` refuses odd-length hex) |
| Encryption.ExtraDigitRejected | utils/encryption.js:58-68 | an issued token with one more hex digit appended is rejected |
| Encryption.RejectsWithoutOneColon | utils/encryption.js:51-55 | a token without exactly one `:` is rejected |
| Encryption.TokenShape | utils/encryption.js:29-36 | every issued token has exactly one `:`, splits into two parts and passes the format check, and its first part is the 32-digit IV |
| Encryption.RoundTrip | utils/encryption.js:26-70 | under one configuration, decrypting the token issued for a user id gives back that id, for every IV |
| AssetStore.AssetOkExactly | utils/cloudinary.js:38-64 | deleting one asset is ok exactly when the store is configured and the id is empty or the store answers `ok` or `not found`; it calls the store only for a non-empty id on a configured store; unconfigured, it fails before reading the id |
| AssetStore.EmptyArguments | utils/cloudinary.js:72-123 | a bulk delete of nothing succeeds, a prefix delete with no prefix fails, an empty id is ok, and none of them calls the store |
| AssetStore.FolderExactly | utils/cloudinary.js:131-172 | a folder delete makes two prefix calls, images then videos, on the same path, and is ok exactly when neither failed except as "not configured"; an empty path or an unconfigured store makes no call |
| AssetStore.PhotoRun | utils/cloudinary.js:192-198 | the photo loop gives one result entry per photo id, in order |
| AssetStore.PhotoRunCalls | utils/cloudinary.js:192-198 | the photo loop destroys exactly the non-empty photo ids, in order, as images |
| AssetStore.GiftAssetsExactly | utils/cloudinary.js:180-209 | gift-asset deletion has one entry per photo; it destroys the photos as images, then the audio as a video only when present; it is ok exactly when every attempted deletion was ok |
| AssetStore.FolderExists | utils/cloudinary.js:216-223 | there is a folder exactly when the id has at least two `/` (at least three segments) |
| AssetStore.FolderThenName | utils/cloudinary.js:218-221 | the folder, a `/` and the last segment give back the id, and the last segment has no `/` |
| AssetStore.Store.DeleteAsset | utils/cloudinary.js:38-64 | returns the outcome of the single-asset deletion and logs exactly its calls |
| AssetStore.Store.DeleteAssets | utils/cloudinary.js:72-93 | returns the outcome of the bulk deletion and logs exactly its calls |
| AssetStore.Store.DeleteByPrefix | utils/cloudinary.js:102-123 | returns the outcome of the prefix deletion and logs exactly its calls |
| AssetStore.Store.DeleteGiftFolder | utils/cloudinary.js:131-172 | returns the folder outcome and logs exactly its two prefix calls |
| AssetStore.Store.DeletePhotos | utils/cloudinary.js:185-198 | the loop's entries and calls are the photo run's, and the flag is true exactly when every entry is ok |
| AssetStore.Store.DeleteGiftAssets | utils/cloudinary.js:180-209 | returns the gift-asset outcome and logs exactly its calls |
| GiftRoutes.SweepExactly | routes/gifts.js:8-20 | the sweep switches off `accessEnabled` on exactly the caller's gifts that are not deleted, are enabled and have an expiry at or before now; it changes no other gift and no other field |
| GiftRoutes.SweepLeavesNoHit | routes/gifts.js:8-20 | after a sweep no gift of the user is still enabled past its expiry |
| GiftRoutes.SweepIdempotent | routes/gifts.js:8-20 | a second sweep at the same instant changes nothing |
| GiftRoutes.CheckScenarios | routes/gifts.js:64-70 | the scenario loop accepts exactly when every scenario is a string whose trimmed `.length` is at least 150, counted in UTF-16 code units. A falsy or short scenario is a 400 and a non-string a 500 |
| GiftRoutes.AstralScenarioLongEnough | routes/gifts.js:65 | 75 characters above U+FFFF count as 150 code units and pass the length rule |
| GiftRoutes.AcceptedExactly | routes/gifts.js:38-92 | a request is accepted exactly when: the five fields are present; there are 1 to 4 photos; there are 3 or more scenarios, each at least 150 UTF-16 code units once trimmed; the date parses; the trimmed fields are strings. Every refusal is a 400 or a 500 |
| GiftRoutes.BadDateRejected | routes/gifts.js:73-76 | an otherwise valid request whose date does not parse is a 400 "Invalid occasion date" |
| GiftRoutes.DraftContents | routes/gifts.js:79-92 | an accepted request keeps only the first three scenarios, trims the name, genre and message (or `''`), and stores the parsed date and the given photos |
| GiftRoutes.NewGift | routes/gifts.js:79-92 | a new gift is `pending`, owned by the caller, not enabled, without expiry and not deleted |
| GiftRoutes.LinkEarlyExits | routes/gifts.js:153-172 | a link that does not decode is a 400 and one for someone else a 403 with `intendedForDifferentUser`; neither writes, and the answer does not depend on the gift table |
| GiftRoutes.LinkAsDetail | routes/gifts.js:174-221 | a link that decodes to the caller behaves exactly like the detail read |
| GiftRoutes.DetailDecision | routes/gifts.js:232-255 | the checks run in a fixed order and the first failing one decides: not found, not the owner, deleted, disabled (including by the sweep), then expired |
| GiftRoutes.GrantedOnlyIfViewable | routes/gifts.js:232-255 | a gift is returned only if it is the caller's, not deleted, enabled, and its expiry is unset or not before now |
| GiftRoutes.GateWrites | routes/gifts.js:249-253 | besides the sweep, a gate's only write switches off the requested gift when it has expired |
| GiftRoutes.SameClockNoLateExpiry | routes/gifts.js:249-253 | when the sweep and the check read the same instant, the check never finds an expired gift and writes nothing beyond the sweep |
| GiftRoutes.IssuedLinkOpensForOwner | routes/gifts.js:153-172 | a link token issued for a user, with any IV, opens for that user exactly what the detail read shows |
| GiftRoutes.HexHasNoPercent | routes/gifts.js:156 | a token has no `%`, so URI decoding leaves it as it is |
| GiftRoutes.GiftTable.AutoExpireGiftsForUser | routes/gifts.js:8-20 | the table becomes its sweep |
| GiftRoutes.GiftTable.SubmitRequest | routes/gifts.js:23-130 | a refused request writes nothing and replies with its status; an accepted one the save rejects is a 400 "Validation failed"; otherwise the new gift is stored and 201 returned |
| GiftRoutes.GiftTable.Check | routes/gifts.js:177-218 | the outcome and new table are those of the shared checks |
| GiftRoutes.GiftTable.ViewDetail | routes/gifts.js:232-260 | the outcome and new table are those of the detail gate |
| GiftRoutes.GiftTable.ViewByLink | routes/gifts.js:149-229 | the outcome and new table are those of the link gate |
| AuthRoutes.OtpIsSixDigits | routes/auth.js:45 | every code drawn is six decimal digits |
| AuthRoutes.CheckOtp | routes/auth.js:84-98 | the code check passes exactly when a user has the email, the code is strictly equal to the stored one, and now is not after the expiry |
| AuthRoutes.AcceptedAtExpiry | routes/auth.js:95-98 | a code is still accepted at its expiry instant and refused as expired one millisecond later |
| AuthRoutes.SignupName | routes/auth.js:105 | a string name is stored as given, and an object stands for its string `_id`. An array, null or undefined is not a name |
| AuthRoutes.ForgotVerify | routes/auth.js:202-220 | the reply is 200 exactly when the three checks pass, otherwise a 400 naming the first failing check; no session, and it writes nothing |
| AuthRoutes.SendOtpRefusesVerified | routes/auth.js:39-42 | send-otp refuses a verified account with 400 and writes nothing |
| AuthRoutes.SendOtpStores | routes/auth.js:44-72 | send-otp stores a fresh code that expires ten minutes from now. On an unverified account only the code and expiry change; otherwise it adds an unverified, non-admin `Pending` user. The reply is 200 exactly when the mail went out, and the stored code stays either way |
| AuthRoutes.OtpFailureWritesNothing | routes/auth.js:84-98 | a failed check in verify-signup or reset is a 400 naming the first failing check and leaves every user unchanged |
| AuthRoutes.VerifySignupEffect | routes/auth.js:105-123 | a successful sign-up sets the name and the hashed password, marks the account verified, clears the code and its expiry, and signs a session for that account; nobody else changes |
| AuthRoutes.SignupConsumesOtp | routes/auth.js:105-110 | after a successful sign-up the same code fails the check, at any later time |
| AuthRoutes.ResetConsumesOtp | routes/auth.js:223-242 | a successful reset replaces the password and clears the code, so the same code fails again at any time |
| AuthRoutes.ForgotSendOtpEffect | routes/auth.js:178-199 | forgot/send-otp needs an existing account, verified or not; it overwrites the code and expiry, and replies 200 exactly when the mail went out |
| AuthRoutes.SaveExisting | routes/auth.js:187-189 | a changed user is written exactly when it passes the schema validators |
| AuthRoutes.SendOtp | routes/auth.js:34-77 | the reply and the new users are those of send-otp |
| AuthRoutes.VerifySignup | routes/auth.js:80-128 | the reply and the new users are those of verify-signup |
| AuthRoutes.ForgotSendOtp | routes/auth.js:178-199 | the reply and the new users are those of forgot/send-otp |
| AuthRoutes.ForgotReset | routes/auth.js:223-247 | the reply and the new users are those of forgot/reset |
| AdminRoutes.Field | routes/admin.js:63 | a missing body reads as `{}`, so every field is undefined |
| AdminRoutes.Project | routes/admin.js:42-46 | a listed user shows exactly its id, email and creation time |
| AdminRoutes.ProjectAll | routes/admin.js:42-46 | the listing projects every user, keeping the order |
| AdminRoutes.Searching | routes/admin.js:13-24 | the email filter is on exactly when `search` is truthy |
| AdminRoutes.SortByNewest | routes/admin.js:39 | the sort is newest first and keeps the same users (a permutation) |
| AdminRoutes.Matching | routes/admin.js:16-24 | the query keeps exactly the verified users that have a password and, when searching, match the pattern |
| AdminRoutes.NewestShowsMatching | routes/admin.js:16-46 | the unpaged listing shows every matching user and only them, newest first |
| AdminRoutes.Window | routes/admin.js:35-39 | skip then limit gives the contiguous slice from the skip, at most the limit long, cut at the end |
| AdminRoutes.ListingCounts | routes/admin.js:27-53 | the listing fails exactly when the skip is negative. Otherwise it shows at most `abs(limit)` users (no limit when it is 0), counts every matching user whatever the page, and echoes the page and limit |
| AdminRoutes.ListingShowsMatching | routes/admin.js:35-46 | a page shows only matching users, newest first |
| AdminRoutes.PageOffset | routes/admin.js:27-39 | a page is a contiguous slice of the newest-first listing |
| AdminRoutes.PageIsSlice | routes/admin.js:27-39 | with a positive limit, page `k` is the slice from where page `k-1` ends to `k * limit`, cut at the end |
| AdminRoutes.PagesTile | routes/admin.js:27-39 | pages 1 to `k` together are the first `k * limit` users of the newest-first listing, with no gap or overlap |
| AdminRoutes.AllPagesListEveryone | routes/admin.js:16-53 | once `k * limit` reaches the total, pages 1 to `k` show every matching user and only them, as many entries as the total, newest first |
| AdminRoutes.DerivedName | routes/admin.js:77 | a derived name is never empty |
| AdminRoutes.DerivedNameIsLocalPart | routes/admin.js:77 | the name is the email's text before the first `@`, or `User` when that text is empty |
| AdminRoutes.CreateUserRefusals | routes/admin.js:63-71 | a missing email or password, or an email already used, is a 400 and writes nothing |
| AdminRoutes.CreateUserEffect | routes/admin.js:73-101 | a created user is appended: verified, not an admin, named after the email, with the hashed password. The reply shows its id, email and creation time, and the email now finds it |
| AdminRoutes.CreateUser | routes/admin.js:61-106 | the reply and the new users are those of POST /users |
| AdminRoutes.AdminGiftInput | routes/admin.js:111-140 | the body's defaults and coercions: non-array `scenarios` and `photos` become `[]`, non-string `lyrics` `''`, and given values are kept |
| AdminRoutes.CreateGiftRefusals | routes/admin.js:122-129 | a missing `userId` or `templateId` is a 400 and an unknown user a 404; every refusal writes nothing, and a created gift is appended |
| AdminRoutes.CreatedGiftFields | routes/admin.js:131-143 | a created gift belongs to the named user and has a listed template. Its lyrics are coerced, and its scenarios and photos hold the string cast of each given element, null kept as null |
| AdminRoutes.CreateGiftAccepts | routes/admin.js:109-148 | a known user, a listed template, scenario and photo arrays of strings and nulls, and no memory, plan or audio: the gift is created and stored with its null entries |
| AdminRoutes.GiftStore.Insert | routes/admin.js:142 | saving a new gift appends it |
| AdminRoutes.CreateGift | routes/admin.js:109-148 | the reply and the new gifts are those of POST /gifts |
| GiftMigration.BuildUpdate | migrateGiftsSchema.js:48-77 | the update touches only status, completion time, access flag, occasion, the three request defaults and the plan |
| GiftMigration.CompletionFields | migrateGiftsSchema.js:48-50 | a migrated gift is completed, at its assignment time, else its creation time, else the time of the run |
| GiftMigration.UpdateKeepsBase | migrateGiftsSchema.js:48-52 | every update sets status, completion time and access flag |
| GiftMigration.AccessField | migrateGiftsSchema.js:51 | access ends disabled exactly when it was explicitly disabled, and enabled otherwise |
| GiftMigration.OccasionField | migrateGiftsSchema.js:55-57 | the occasion is copied from `memory` only when it is unset and `memory` is set |
| GiftMigration.DefaultFields | migrateGiftsSchema.js:60-72 | recipient name, occasion date and genre get their defaults only when missing; set values stay |
| GiftMigration.PlanField | migrateGiftsSchema.js:75-77 | the plan ends valid: kept when it was `momentum` or `everlasting`, `momentum` otherwise |
| GiftMigration.OtherFieldsKept | migrateGiftsSchema.js:79-82 | fields outside the update are left alone |
| GiftMigration.MigratedNotSelected | migrateGiftsSchema.js:28-34 | a migrated gift is no longer selected |
| GiftMigration.Selected | migrateGiftsSchema.js:28-34 | exactly the gifts whose status is absent, null or `''` are selected, in collection order |
| GiftMigration.GiftCollection.Migrate | migrateGiftsSchema.js:28-91 | it finds the selected gifts and returns early when there are none. Updated plus errors is that count; each selected gift is migrated exactly when its write succeeds; no other gift changes. After a fully successful run nothing is selected |
| GiftMigration.GiftCollection.MigrateAll | migrateGiftsSchema.js:43-91 | the loop migrates each listed gift whose write succeeds, counts the others as errors and touches nothing else |
| UserIdMigration.UserIdShape | migrateUserIds.js:53-54 | an id is `usr-` then the counter's digits, zero-padded to five and never truncated |
| UserIdMigration.CounterOfUserId | migrateUserIds.js:53-54 | every id is well formed and its digits give back the counter value |
| UserIdMigration.UserIdInjective | migrateUserIds.js:53-54 | distinct counter values give distinct ids |
| UserIdMigration.Selected | migrateUserIds.js:22-28 | exactly the users whose `userId` is absent, null or `''` are selected, in collection order |
| UserIdMigration.AssignedInOrder | migrateUserIds.js:46-57 | the ids of one run are pairwise distinct and follow increasing counter order |
| UserIdMigration.Migration.Migrate | migrateUserIds.js:22-57 | with nothing selected, nothing changes and the counter is not touched. Otherwise the counter is created at 0 if missing and rises by one per selected user; the `j`-th selected user gets the id of the `j+1`-th value after the start; other users are untouched |
| UserIdMigration.Migration.AssignIds | migrateUserIds.js:46-57 | the loop raises the counter once per listed user and gives each the id of its counter value |

## Left out

- `GET /api/gifts` (routes/gifts.js:133-145), `GET /user-count`, `GET /email/verify`, `POST /login` and `GET /me` (routes/auth.js:10-31, 131-173) are not modelled. They are reads or library calls with no state of their own.
- utils/emailService.js is not part of this model. In the sign-up and reset flows the mail outcome is the parameter `mailOk`. The admin's credentials mail is fire-and-forget and cannot change the reply, so it has no parameter.
- server.js, seedAdmin.js, scripts/, checkGiftPublicIds.js and testCloudinaryDeletion.js are not part of this model: they are wiring and one-shot scripts.
- Library internals are parameters whose only assumed properties are the ones stated: AES-CBC, PKCS#7 padding, scrypt, UTF-8, bcrypt, JWT signing and verification, the Cloudinary SDK, `Math.random`, `new Date(...)`, `decodeURIComponent`, the Mongo regex and the ObjectId cast.
- The JWT that sign-up signs is modelled by its payload, a `Session` of the user's id and admin flag. The token text and its lifetime are the library's.
- Database failures (a lost connection, a failed write) are not modelled. The exception is the gift migration's per-gift write failure (`writeOk`). Collection order, used for tie-breaking, is the order of the `seq`.
- Replies are modelled by status, the `error` or `msg` text and the data they carry. The human-readable `message` and `details` fields and all console output are left out.
- Each handler runs to completion before the next starts; races between a sweep and a gate are not modelled.
- The gates read the clock twice, once in the sweep and once in the expiry check. They are given two instants, `sweepNow <= now` in practice, but no order between them is assumed.
- An SDK error whose message equals "Cloudinary not configured" does not count against a folder deletion (utils/cloudinary.js:156-161). The model keeps this as written; `AssetStore.CountsAsDone` names it.
- `deleteGiftFolder`'s outer `catch` (utils/cloudinary.js:168-171) has no path in the model, because `deleteByPrefix` never throws. A null public id or a null audio id is written as `""`.
- `isCloudinaryConfigured` and the load-time configuration are the store's `configured` flag.
- The gift-route record and the `Gift` schema are kept apart. The shown schema does not declare `status`, `accessEnabled`, `expiresAt` or `permanentlyDeleted`, and it requires `templateId`, which POST `/request` never sets. Nothing here claims the two agree.
- GiftRoutes.GiftTable.SubmitRequest: the save's schema validation is the parameter `saveAccepts`, not the shown `Gift` schema, and a save failure other than a validation error is not modelled.
- GiftRoutes.CheckGift treats a gift id that is not a valid ObjectId as not found (404). The route would throw on the cast and answer 500.
- UserIdMigration.Migration.Migrate models the script's evident intent of storing `userId`. The shown `User` schema does not declare that field, and in strict mode Mongoose would drop the update.
- AuthRoutes.SendOtp, AuthRoutes.VerifySignup, AuthRoutes.ForgotSendOtp and AuthRoutes.ForgotReset take the request's email as a string. A missing or non-string email leads to a query whose meaning is the database driver's, and it is not modelled.
- AdminRoutes.CreateUserSpec: a truthy email that is not a string (a number, a boolean, an array, an object) is answered 500 at once. The route would first run `findOne` with that value, which may answer 400 "already exists" or throw.
- AdminRoutes.ListUsers takes `page` and `limit` as the integers `parseInt` gives. A non-numeric value (`NaN`) is not modelled. The case-insensitive regex built from `search`, including an invalid pattern, is the oracle `emailMatches`.
- AdminRoutes.SortByNewest: users created at the same instant keep their collection order. The database leaves their order unspecified.
- AdminRoutes.SortByNewest: sorting happens after filtering, then skip and limit; this is the database's documented order for a `find` with `sort`, `skip` and `limit`, whatever the order of the calls in the source.
- AuthRoutes.OtpIsSixDigits requires the draw to be in 100000..999999, which is what `Math.floor(100000 + Math.random() * 900000)` yields.
- JsValues.CastString: numbers are integers. A fractional number, which the cast would turn into its decimal text, is not modelled, and neither is `NaN`. A date's `toString()` text depends on the server's time zone and is carried with the date value.
- Encryption.EncryptUserId takes the id as text (`None` for null or undefined). How `toString` renders a non-string id is not modelled.
