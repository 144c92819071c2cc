# dripside-backend: the decision core in Dafny

This project models the decision logic of the dripside-backend REST service. The service keeps users and admins (the two kinds of principal) plus four soft-deletable resources: categories, artists, samples and carts. The model is pure: a collection is a sequence of records in creation order, time is an integer in milliseconds, and every promise settles in one of three ways. It can resolve with a value, reject with a failure `{message, statusCode, code}`, or never settle. Each file is one module.

| file | module | what it covers |
|---|---|---|
| base.dfy | Base | HTTP status constants; failures; settled promises. The helpers' two catch blocks (`statusCode \|\| 500`, `message \|\| fallback`, and a code that some of them complete with the error's class name). `findOne`, counting and filtering over a collection. |
| types.dfy | Types | The six account statuses, the five roles, the `YES`/`NO`/`BOTH` deleted mode and the object-id test. |
| numbers.dfy | Numbers | Decimal rendering of integers; `parseInt` on a string (leading white space, sign, leading digits, otherwise `NaN`); and `Number` on a string after the StringToNumber grammar of section 7.1.4.1 of ECMA-262 (white space at either end, decimal literals with fraction, exponent and sign, `Infinity`, and `0x`/`0o`/`0b` literals), which decides the helpers' `isNaN(Number(…))` tests. |
| codegen.dfy | CodeGen | The record code generator of the save hooks (`USR100`, `USR<n+1>`, `SPLE100`, `SPLE<n+1>`). |
| crypto.dfy | Crypto | bcrypt as an ideal hash: a hash matches exactly its own plaintext, whatever the salt. |
| jwt.dfy | Jwt | `generateToken`/`verifyToken`: key, lifetime and claims per token kind, jsonwebtoken's order of checks, and the configuration defaults. Signing is a datatype, so verifying what was signed with the same key gives the claims back. |
| user_model.dfy | UserModel | The principal record and its defaults; username and email pass the schema's `trim` and `lowercase` setters; the phone is stored as a number, and a phone query matches by the number the text casts to. The pre-save hook (hash what was assigned, number new documents), `changePassword`, `resetPassword`, `setOTP`, `matchPasswords`, `matchOTP`. |
| otp.dfy | Otp | `verifyOTP`: admission by the failure counter, the expiry window, match, mismatch and re-issue. |
| credentials.dfy | Credentials | Login, status change, password change, forgot/reset password, the status check, lookup by id, and the soft-delete, restore and permanent-delete steps for users and admins. |
| auth.dfy | Auth | The five authorization gates: the `Bearer` header and cookie comparison, role routing, status propagation, and the guest fallback. |
| resource.dfy | Resource | The four resource helpers: filtered, paginated listing with the split counts around a timestamp; lookup by id; add and edit with unique names; the Active/Inactive toggle; and the lifecycle. |
| errors.dfy | ErrorHandler | The error middleware's mapping from failure to status and message. |
| controllers.dfy | Controllers | The login and refresh replies with their cookies, the role-derived visibility of every list handler, and the forwarding of helper failures. |

The model makes these assumptions:

- **Outside inputs are parameters.** Generated passwords and OTP codes, bcrypt salts, fresh object ids, the clock and the `NODE_ENV` value are all parameters. So is the JWT compact parser (`decode: string -> Option<Token>`).
- **Sorting follows creation order.** Sorting by `createdAt` descending is taken to be the reverse of the order in which records were created.
- **MongoDB calls are collection operations.** `findOne` is the first match. `save` of an existing document writes over the record with the same id, and `deleteOne` removes the record.
- **Text search is substring search.** Case-insensitive regular-expression search on `code` and `name` is modelled as case-sensitive substring search.

## Model

| member | source | states |
|---|---|---|
| Base.Caught | src/helpers/Category/categoryHelper.ts:256-262 | A helper's rejection always has a non-empty message and a non-zero status. It keeps the original message, status and code when they are present, with the fallback message and 500 otherwise. |
| Base.CaughtNamed | src/helpers/Category/categoryHelper.ts:97-103 | The listing, lookup, add, login and OTP catch blocks answer as the other one, except that an error without a code reports its class name as the code. |
| Base.CaughtThrown | src/helpers/User/userHelper.ts:272-278 | A `ThrowError` with a message and a status leaves such a catch block with both intact and `Error` as its code. |
| Base.FindFirst | src/helpers/User/userHelper.ts:1368-1382 | `findOne` returns the first record satisfying the filter, and returns none exactly when no record satisfies it. |
| Base.Filter | src/helpers/Category/categoryHelper.ts:62-79 | The records a query returns satisfy its filter and come from the collection, every satisfying record is among them, and their number is the query's count. |
| Base.FilterPositions | src/helpers/Category/categoryHelper.ts:62-79 | The query keeps the satisfying records and only those, in collection order: result k is the record at the k-th satisfying position, the positions ascend, and every satisfying position is one of them. |
| Base.FindFirstSame | src/helpers/User/userHelper.ts:402-418 | Two filters that agree on every record find the same first record. |
| Types.ParseAccountStatus | src/interfaces/default.ts:19-26 | A string names a status exactly when it is one of the six spellings, and parsing gives that status back. |
| Numbers.ParseIntOfIntToString | src/models/User/userModel.ts:137-140 | `parseInt` reads back every integer from its decimal rendering. |
| Numbers.ParseSigned | src/models/User/userModel.ts:137-138 | A run of digits, with or without a leading minus, reads back as its value or its negation. |
| Numbers.NumberOfIntToString | src/helpers/User/userHelper.ts:205 | `Number` reads every rendered integer back as its value, so a phone sent as the digits of the stored number passes the numeric test. |
| Numbers.DigitsNumber | src/helpers/User/userHelper.ts:398-400 | A run of decimal digits, leading zeros included, is a number with its decimal value. |
| Numbers.SurroundingSpace | src/helpers/User/userHelper.ts:205 | White space at either end of the text does not change what `Number` reads. |
| Numbers.PaddedExample | src/helpers/User/userHelper.ts:205 | `" 5"` and `"5 "` read as 5, so they pass the numeric test. |
| Numbers.FractionExample | src/helpers/User/userHelper.ts:398-400 | `"1.5"` reads as 1.5, so it passes the numeric test. |
| Numbers.HexExample | src/helpers/User/userHelper.ts:205 | `"0x1F"` reads as 31. |
| Numbers.RefusedExamples | src/helpers/User/userHelper.ts:205 | `"12abc"` (trailing text) and `"+0x1"` (a sign before a base prefix) are `NaN` and fail the numeric test. |
| CodeGen.NextCode | src/models/Artist/artistModel.ts:60-74 | With no previous document the code is the prefix plus `100`. A newest document without a code fails with a TypeError. Otherwise the result starts with the prefix, and it is the prefix plus `NaN` exactly when the newest code's tail does not parse. The hook always settles. |
| CodeGen.NextCodeSucceeds | src/models/Sample/sampleModel.ts:36-50 | After a generated code `<prefix><n>`, the next code is `<prefix><n+1>`. |
| CodeGen.NaNIsSticky | src/models/Artist/artistModel.ts:66-68 | Once a newest code has no number, every later code is `<prefix>NaN`. |
| CodeGen.CodesCount | src/models/User/userModel.ts:132-143 | The i-th document saved into an empty collection gets the prefix followed by 100 + i. |
| CodeGen.ArtistAndSampleCodesCoincide | src/models/Artist/artistModel.ts:68-70 | Artists and samples are numbered with the same prefix, so the i-th artist and the i-th sample get the same code. |
| Crypto.CompareHash | src/models/User/userModel.ts:147-149 | A bcrypt hash matches exactly its own plaintext. |
| Jwt.FromEnv | src/config/default.ts:122-135 | Every secret falls back to a non-empty default. The access-token verifying secret falls back to the access signing secret. |
| Jwt.DefaultConfigValues | src/config/default.ts:122-135 | With no environment variable set, every secret is `secret`, every lifetime is one year and the issuer is `1y`. |
| Jwt.SecretsAgreeExceptAccess | src/utils/jwt.ts:42-45 | Signing and verifying keys coincide for every kind except the access token. For that kind they coincide exactly when the two access secrets are equal. |
| Jwt.GenerateToken | src/utils/jwt.ts:36-64 | A token carries exactly `{id, role}` with the name as audience and the configured issuer. It is signed with the kind's key and expires after the kind's lifetime. A signing failure rejects with no status and the error's name as code. |
| Jwt.VerifyToken | src/utils/jwt.ts:66-85 | A text verifies exactly when it parses, is signed with the kind's verifying key, carries claims and has not expired. A string payload never settles. Expiry is reported as `TokenExpiredError` with no status. |
| Jwt.VerifyGenerated | src/utils/jwt.ts:36-85 | A token generated for a kind, parsed back, verifies as that kind until it expires and returns its claims unchanged, provided the kind's two keys agree. |
| Jwt.GeneratedExpires | src/utils/jwt.ts:48-53 | Once the kind's lifetime has passed, the same token is rejected as expired. |
| Jwt.CrossKind | src/utils/jwt.ts:71-74 | A token of one kind verifies as another exactly when the signing key of the first equals the verifying key of the second. |
| Jwt.DefaultRefreshPassesAsAccess | src/utils/jwt.ts:71-74 | Under the default configuration a refresh token verifies as an access token. |
| UserModel.NewUser | src/models/User/userModel.ts:27-111 | A new user is role User, status Active, not deleted, `passwordChanged` false, with failure counter 400 and no failure, OTP or code yet. Username and email are stored trimmed and lower-cased. |
| UserModel.FoldIdempotent | src/models/User/userModel.ts:27-47 | Trimming and lower-casing a second time changes nothing, so a stored username or email is its own fold and a query text matches it exactly when the text folds to it. |
| UserModel.FoldExample | src/models/User/userModel.ts:27-47 | `" Ann\t"` folds to `"ann"` and matches a stored `"ann"`. |
| UserModel.PreSave | src/models/User/userModel.ts:120-145 | The save hook: if neither secret was assigned it returns the document unchanged. Otherwise each assigned plaintext is hashed so that exactly it matches. Only a new document is numbered, and numbering fails exactly when the newest document has no code. |
| UserModel.Stored | src/models/User/userModel.ts:120-131 | Saving an existing document changes nothing but its freshly assigned secrets. |
| UserModel.ChangePassword | src/models/User/userModel.ts:162-168 | After `changePassword` only the new password matches, the previous hash becomes `lastPassword`, the change is flagged and stamped, and nothing else changes. |
| UserModel.ResetPassword | src/models/User/userModel.ts:151-160 | As for `changePassword` with the generated password, and the reset permission is withdrawn. |
| UserModel.SetOTP | src/models/User/userModel.ts:174-180 | After `setOTP` only the new code matches, the sending time is stamped and the plaintext is returned. |
| UserModel.NewUserIsNumbered | src/models/User/userModel.ts:132-143 | A new user saved after `USR<n>` is numbered `USR<n+1>` and only its password matches. |
| Otp.CounterAfterAdmission | src/helpers/User/userHelper.ts:426-434 | Admission zeroes the failure counter only when it equals the threshold exactly, and changes nothing else. |
| Otp.VerifyOTP | src/helpers/User/userHelper.ts:389-480 | A missing or non-numeric phone or code is 400 with nothing changed; a numeric phone that no record holds is 404 "User not found". The call never settles exactly when an admitted user, inside the expiry window, sends a code that does not match. |
| Otp.MatchingCodeVerifies | src/helpers/User/userHelper.ts:435-457 | An admitted user inside the window who sends the matching code is answered "OTP Verified" with `verified` set, with the access token unless the call is only a verification, exactly when that token can be signed; otherwise the signing failure is the rejection. |
| Otp.PhoneReadAsNumber | src/helpers/User/userHelper.ts:402-418 | The phone is looked up as the number it casts to: two phone texts that `Number` reads alike get the same answer and leave the same collection. |
| Otp.VerifyOTPIntended | src/helpers/User/userHelper.ts:459-461 | With the mismatch branch answering, every call settles, and a resolved answer is verified exactly when its message is "OTP Verified". |
| Otp.LockedOutRefused | src/helpers/User/userHelper.ts:466-470 | A user at or above the threshold, with no failure older than the reset period, is refused with the lockout 401 whatever code is sent, and nothing is saved. |
| Otp.NewUserLockedOut | src/models/User/userModel.ts:64-72 | A user saved with the schema defaults is refused at the first verification, for any threshold up to 400. |
| Otp.NewUserIntendedVerifies | src/helpers/User/userHelper.ts:435-457 | With the counter starting at zero, a new user who enters the code just sent is verified and gets an access token. |
| Otp.CounterResetOnlyAtThreshold | src/helpers/User/userHelper.ts:426-461 | A mismatch by a user whose counter differs from the threshold increments the counter, stamps the failure time and never settles. |
| Otp.CodeIsSingleUse | src/helpers/User/userHelper.ts:435-457 | An accepted code is replaced by a fresh one, so the same code no longer matches, and the counter is not reset. |
| Otp.ExpiredReissues | src/helpers/User/userHelper.ts:462-464 | An expired window issues a new code and answers 401 "OTP Expired". |
| Credentials.Login | src/helpers/User/userHelper.ts:195-280 | Invalid input (no identifier, no password, or a phone `Number` reads as `NaN`) is a 400 before any lookup, reported with the class name `Error` as its code. Login succeeds exactly when the identifier is found, the account is not Blocked, the password matches and both tokens can be signed. |
| Credentials.LoginReadsPhoneAsNumber | src/helpers/User/userHelper.ts:203-225 | The phone is tested and looked up as the number it casts to: two phone texts that `Number` reads alike, `" 9876543210"` and `"9876543210"` say, give the same login. |
| Credentials.LoginFoldsIdentifiers | src/helpers/User/userHelper.ts:203-225 | Username and email are looked up through the schema's `trim` and `lowercase` setters: texts that differ only in case or in surrounding white space give the same login. |
| Credentials.IdentifierTargetsAlike | src/helpers/User/userHelper.ts:214-225 | Identifiers that fold alike select the same record. |
| Credentials.LoginIntended | src/helpers/User/userHelper.ts:239-241 | With the flag selected, a successful login stores the record with `passwordChanged` cleared. |
| Credentials.BlockedBeforePassword | src/helpers/User/userHelper.ts:228-236 | A Blocked account gets 401 "Account blocked! contact Customer Care" whatever password is sent, and nothing changes. |
| Credentials.LoginRefusals | src/helpers/Admin/adminHelper.ts:226-268 | An unknown identifier and a wrong password are both 401 with nothing changed. The admin wrong-password message names only Phone or Email. |
| Credentials.LoginSuccess | src/helpers/User/userHelper.ts:214-263 | A successful login promotes Inactive to Active, stamps `lastSync`/`lastUsed`, keeps `passwordChanged`, and returns an access and a refresh token for the record's id, name and role. |
| Credentials.DeletedAccountLogsIn | src/helpers/User/userHelper.ts:214-227 | A soft-deleted account with the right password logs in: deletion is never consulted. |
| Credentials.LoggedIn | src/helpers/User/userHelper.ts:238-245 | The logged-in record differs from the stored one only in status (Inactive becomes Active), the flag and the two stamps. |
| Credentials.ChangeStatus | src/helpers/Admin/adminHelper.ts:812-856 | Only Active, Inactive or Blocked are accepted, otherwise 400 with nothing changed. On success exactly the found record takes the new status. |
| Credentials.ChangeStatusBack | src/helpers/Admin/adminHelper.ts:812-856 | With unique ids, changing a record's status and then changing it back to its former Active, Inactive or Blocked status gives the collection back. |
| Credentials.ChangePasswordOf | src/helpers/Admin/adminHelper.ts:865-921 | Missing fields are 400. The change succeeds exactly when the record exists, the current password matches and the new one differs; then only the new password matches. |
| Credentials.WrongCurrentBeforeSame | src/helpers/Admin/adminHelper.ts:872-909 | A wrong current password is 401 even when the new password equals it: the mismatch is checked before the same-password check. |
| Credentials.Forgot | src/helpers/User/userHelper.ts:1156-1211 | The reply message is the same whether or not the email exists. Only a known email, matched after trimming and lower-casing, gets `resetPasswordAccess` and a reset token for its id. |
| Credentials.ForgotFoldsEmail | src/helpers/User/userHelper.ts:1165-1176 | An email that differs only in case or surrounding white space gives the same outcome and the same link. |
| Credentials.EmailTargetsAlike | src/helpers/User/userHelper.ts:1165-1176 | Emails that fold alike select the same record. |
| Credentials.ForgotAsWritten | src/helpers/User/userHelper.ts:1178-1180 | Against the user schema, which does not declare `resetPasswordAccess`, forgot-password answers and links as intended but saves nothing. |
| Credentials.ResetDone | src/models/User/userModel.ts:151-168 | After a reset only the new password matches and the permission is gone; nothing else changes. |
| Credentials.Reset | src/helpers/User/userHelper.ts:1218-1274 | With the permission stored, as the helpers intend: the reset succeeds exactly when the token verifies as a reset token, its id has the permission, and the new password differs from the old. A failed reset changes nothing and keeps the token error's code. |
| Credentials.ResettableUnder | src/helpers/User/userHelper.ts:1229-1238 | The reset lookup finds only a record with the link's id: the one holding the permission when the field is stored, the one with that id when the query drops the condition, and none when the condition stays on a field no record stores. |
| Credentials.SavedAfterReset | src/helpers/User/userHelper.ts:1247-1249 | Only the new password matches the saved record; the permission is withdrawn only when the field is stored. |
| Credentials.ResetAsWritten | src/helpers/User/userHelper.ts:1218-1274 | Against the user schema a failed reset changes nothing, and a reset can succeed only when the query drops the undeclared condition. |
| Credentials.ReplayedLinkResetsAgain | src/helpers/User/userHelper.ts:1229-1250 | With `strictQuery` on, a verified link resets the record it names whether or not it holds the permission, and the same link then resets it again to another password. |
| Credentials.UnstrippedResetDenied | src/helpers/User/userHelper.ts:1229-1238 | With `strictQuery` off, every verified link that names an id is refused with 401 "Reset Password Permission Denied". |
| Credentials.ResetSucceeds | src/helpers/User/userHelper.ts:1227-1264 | With the permission stored: a link that verifies for a record holding the permission, with a different new password, resets it. Afterwards only the new password matches and no record holds the permission under that id. |
| Credentials.SamePasswordKeepsPermission | src/helpers/User/userHelper.ts:1240-1246 | With the permission stored: resetting to the current password is 400 and leaves the permission set. |
| Credentials.ResetNeedsPermission | src/helpers/User/userHelper.ts:1227-1238 | With the permission stored: without it a verified reset token is refused with 401. |
| Credentials.ForgotThenReset | src/helpers/User/userHelper.ts:1156-1264 | With the permission stored: a reset with the link that forgot-password issued succeeds while the link is valid. Then only the new password matches, and a second reset with the same link is refused. |
| Credentials.CheckStatusWith | src/helpers/Admin/adminHelper.ts:1053-1105 | Only non-deleted records are found (otherwise 404). The record is promoted Inactive to Active and stamped before the test, and it passes exactly when its status is in the allowed list. |
| Credentials.CheckStatus | src/helpers/User/userHelper.ts:1281-1333 | The answer's projection has no role. |
| Credentials.CheckStatusIntended | src/helpers/User/userHelper.ts:1281-1333 | With the role selected, the answer carries the stored record's role. |
| Credentials.CheckPromotesInactive | src/helpers/User/userHelper.ts:1309-1312 | An Active or Inactive live record passes a check for Active and is saved as Active; a Blocked or deleted one never passes. |
| Credentials.GetByIdWith | src/helpers/User/userHelper.ts:134-185 | A lookup finds the record, deleted ones included, exactly when the caller's role is privileged. Deletion fields are shown exactly then. The profile carries the record's name, username, email, phone and creation time. |
| Credentials.DeletedUsersHiddenById | src/helpers/User/userHelper.ts:144-150 | As written, a deleted user is never found by id, whatever the caller's role. |
| Credentials.DeletedUsersVisibleToSuperAdmin | src/helpers/User/userHelper.ts:144-150 | With the administrator roles privileged, a SuperAdmin finds a deleted user and sees its deletion fields. |
| Credentials.Delete | src/helpers/Admin/adminHelper.ts:1141-1174 | Only a live record is deleted; it becomes Inactive, deleted and stamped. A failure changes nothing. |
| Credentials.Restore | src/helpers/Admin/adminHelper.ts:1181-1219 | Only a deleted record is restored; it becomes Active, live, with no deletion time. |
| Credentials.PermanentDelete | src/helpers/Admin/adminHelper.ts:1226-1265 | A deleted record is removed only in development; in any other environment the answer is 403. |
| Credentials.DeleteThenRestore | src/helpers/User/userHelper.ts:1368-1446 | A deleted record cannot be deleted again. Restoring it gives back the original record, except for status Active and no deletion time. |
| Auth.Refuse | src/middlewares/authMiddleware.ts:44-49 | Every refusal reads "Unathenticated", with the underlying status or 403. |
| Auth.SplitSecond | src/middlewares/authMiddleware.ts:18-19 | The second space-separated field exists exactly when the header has a space, and it contains no space. |
| Auth.SplitBearer | src/middlewares/authMiddleware.ts:13-19 | The token of `Bearer <t>` is `t`. |
| Auth.Route | src/middlewares/authMiddleware.ts:32-45 | Each gate routes only its own roles: administrators to the admin check, User to the user check. |
| Auth.Admit | src/middlewares/authMiddleware.ts:30-49 | A role outside the gate's set is 403. An admitted caller's identity has the token's id and status Active, taken from the fetched record. |
| Auth.Gate | src/middlewares/authMiddleware.ts:11-50 | A caller passes exactly when the header carries `Bearer`, its token is non-empty and equals the cookie, verifies as an access token, and passes the routed status check. Every refusal is "Unathenticated". |
| Auth.GuestGate | src/middlewares/authMiddleware.ts:191-249 | Without a Bearer header the guest identity continues. With one, no request is ever admitted. |
| Auth.GuestGateIntended | src/middlewares/authMiddleware.ts:216-219 | With the verified claims read directly, a Bearer request is judged exactly as by the all-role gate. |
| Auth.LoginTokenPassesUserGate | src/middlewares/authMiddleware.ts:97-136 | The access token of an active user's login, presented in header and cookie, passes the user gate as that user. |
| Auth.StatusRefusalKeepsStatus | src/middlewares/authMiddleware.ts:47-49 | A missing or deleted user is refused with 404, a Blocked one with 401. |
| Resource.Sorted | src/helpers/Category/categoryHelper.ts:62-79 | The listed candidates are exactly the stored items matching every filter and created no later than the timestamp. Their number is the total count. |
| Resource.SortedPositions | src/helpers/Category/categoryHelper.ts:72 | The candidates are in reverse collection order: candidate k is the stored item at position m[k], the positions descend, and every matching position is among them. |
| Resource.SortedNewestFirst | src/helpers/Category/categoryHelper.ts:72 | When the collection is in creation order, the candidates come newest first. |
| Resource.Shown | src/helpers/Category/categoryHelper.ts:72-74 | A page holds at most `limit` items, or all of them when the limit is -1. Item j of the page is the match at position skip + j, in the view the deleted mode selects. |
| Resource.TotalPages | src/helpers/Category/categoryHelper.ts:95 | The page count is the least number of pages of `limit` items that holds the total, and minus the total when the limit is -1. |
| Resource.List | src/helpers/Category/categoryHelper.ts:21-105 | The listing rejects exactly when a positive limit meets a page below 1, since the resulting skip is negative. |
| Resource.CountsPartitionMatches | src/helpers/Category/categoryHelper.ts:36-87 | With a timestamp, the total and latest counts add up to the number of matches. Without one, the total alone counts them. |
| Resource.EveryMatchHasAPage | src/helpers/Artist/artistHelper.ts:72-74 | With a positive limit, the match at position i is listed on page i / limit + 1, at position i mod limit. |
| Resource.StoredMatchListed | src/helpers/Category/categoryHelper.ts:62-74 | With a positive limit, every stored item that matches and was created no later than the timestamp is listed on some page. |
| Resource.ListedAreStored | src/helpers/Category/categoryHelper.ts:62-79 | Every listed entry is the view of a stored item that matches every filter of the query. |
| Resource.DeletedModes | src/helpers/Cart/cartHelper.ts:47-52 | Every listed entry comes from a stored item with its id. NO lists only live items without deletion fields. YES lists only deleted items with their deletion time. BOTH lists either, with the item's own deletion fields. |
| Resource.GetByIdWith | src/helpers/Category/categoryHelper.ts:112-164 | An invalid id is 400. A lookup finds the item, deleted ones included, exactly when the caller's role is privileged; deletion fields are shown exactly then. |
| Resource.DeletedItemsHiddenById | src/helpers/Category/categoryHelper.ts:122-131 | As written, no role name is privileged, so a deleted item is never found by id. |
| Resource.DeletedItemsVisibleToSuperAdmin | src/helpers/Cart/cartHelper.ts:122-131 | With the administrator roles privileged, a SuperAdmin finds a deleted item and sees its deletion fields. |
| Resource.NewCode | src/models/Sample/sampleModel.ts:36-50 | Artists and samples are numbered from the newest item, `SPLE100` for the first; categories and carts get no code. |
| Resource.Add | src/helpers/Category/categoryHelper.ts:171-209 | A missing name is 400 and a taken name rejects with no status. Otherwise the item is appended Active, live, with only the name and its code, unless the code is already taken. A newest item without a code gives a 500 whose code is the class name `TypeError`. |
| Resource.Edit | src/helpers/Category/categoryHelper.ts:217-264 | Deleted items are editable too. An edit succeeds exactly when the item exists and any new, different name is free. An empty name keeps the old one. |
| Resource.AddKeepsNamesUnique | src/helpers/Sample/sampleHelper.ts:181-193 | Adding keeps names unique across the collection. |
| Resource.EditKeepsNamesUnique | src/helpers/Sample/sampleHelper.ts:239-248 | Editing keeps names unique across the collection. |
| Resource.NaNCodesCollide | src/models/Artist/artistModel.ts:28-32 | After an artist coded `SPLENaN`, adding any new artist fails on the unique code with error code 11000. |
| Resource.Toggle | src/helpers/Category/categoryHelper.ts:271-306 | The toggle swaps Active and Inactive on the found item, deleted or not, and reports the new status. |
| Resource.ToggleTwice | src/helpers/Sample/sampleHelper.ts:290-291 | Toggling twice gives the collection back. |
| Resource.Delete | src/helpers/Category/categoryHelper.ts:313-346 | Only a live item is deleted; it becomes Inactive, deleted and stamped. |
| Resource.Restore | src/helpers/Category/categoryHelper.ts:353-391 | Only a deleted item is restored; it becomes Active, live, with no deletion time. |
| Resource.PermanentDelete | src/helpers/Category/categoryHelper.ts:398-437 | A deleted item is removed only in development; any other environment gives 403. |
| Resource.DeleteThenRestore | src/helpers/Artist/artistHelper.ts:322-375 | A live item cannot be removed permanently. Deleting and restoring an Active item gives the collection back, except for the cleared deletion time. |
| ErrorHandler.CodeMessage | src/middlewares/errorHandler.ts:18-36 | A code has a fixed message exactly when it is 11000, `EAI_AGAIN`, `TokenExpiredError` or `JsonWebTokenError`. |
| ErrorHandler.Translate | src/middlewares/errorHandler.ts:13-42 | The name `ValidationError` overrides any code. A known code becomes its fixed 400. Anything else passes unchanged. |
| ErrorHandler.Handle | src/middlewares/errorHandler.ts:48-52 | The reply always has `success` false and a non-empty message. A translated error is 400. Otherwise the reply uses the error's status or 500, and its message or "Server Error". |
| ErrorHandler.CaughtFailuresPassThrough | src/helpers/Category/categoryHelper.ts:256-262 | A helper failure without a special code reaches the client with the helper's own status and message. |
| ErrorHandler.NameFallbackInvisible | src/middlewares/errorHandler.ts:13-42 | Completing a code with the error's class name never changes the reply, unless that name is one of the translated codes. |
| ErrorHandler.ThrownPassesThrough | src/middlewares/errorHandler.ts:48-52 | A `ThrowError` reported with its class name as code reaches the client with its own status and message. |
| ErrorHandler.ThrownNamesUntranslated | src/middlewares/errorHandler.ts:18-36 | `Error`, `TypeError` and `MongoServerError` are not among the translated codes. |
| Controllers.TokenReply | src/controllers/User/userController.ts:111-118 | A token-issuing reply sets both tokens as cookies and puts only the access token in the body. A failure is forwarded, and a promise that never settles sends nothing. |
| Controllers.LoginSetsBothCookies | src/controllers/Admin/adminController.ts:111-118 | A successful login answers 200 "Login Success" with the session's access and refresh cookies and the access token in the body. |
| Controllers.BlockedLoginReply | src/controllers/User/userController.ts:105-124 | A Blocked account's login reaches the client as 401 "Account blocked! contact Customer Care". |
| Controllers.UpgradeAccessToken | src/helpers/User/userHelper.ts:287-334 | Any non-empty refresh token is answered with the placeholder strings `accessToken` and `refreshToken`. The token itself is never examined. |
| Controllers.RefreshHandler | src/controllers/User/userController.ts:137-169 | Neither cookie, or both, is 401. Only the refresh cookie gives a 200. Only the access cookie gives no response at all. |
| Controllers.RefreshIgnoresToken | src/controllers/Admin/adminController.ts:137-169 | Every non-empty refresh cookie gets the same reply. |
| Controllers.AccountStatusFilter | src/controllers/Admin/adminController.ts:28-37 | A privileged role sees every account status; any other sees only Active. |
| Controllers.UserStatusFilter | src/controllers/User/userController.ts:28-37 | As written, a caller sees every user status exactly when its role name is SuperSample, DeveloperSample or Admin; any other caller sees only Active. |
| Controllers.UserStatusFilterIntended | src/controllers/Admin/adminController.ts:28-37 | With the administrators' list, the user listing shows every status exactly to the three administrator roles, the same filter as for admins. |
| Controllers.AdminStatusFilter | src/controllers/Admin/adminController.ts:28-37 | A caller sees every admin status exactly when its role is SuperAdmin, DeveloperAdmin or Admin; any other caller sees only Active. |
| Controllers.ResourceStatusFilter | src/controllers/Category/categoryController.ts:21-23 | The administrator roles see Active and Inactive items; any other role sees only Active. |
| Controllers.DeletedMode | src/controllers/Artist/artistController.ts:24-29 | Roles other than SuperAdmin/DeveloperAdmin always get NO. For those two, NO gives NO, YES gives YES, and anything else or nothing gives BOTH. |
| Controllers.UserFilterRoles | src/controllers/User/userController.ts:28-37 | Of the five roles only Admin sees every user status as written; SuperAdmin sees only Active. With the administrators' list, all three administrator roles see every status, as for admins. |
| Controllers.GatedCallersListAsAnonymous | src/middlewares/authMiddleware.ts:33-42 | A caller admitted by any gate carries no role, so every list handler shows it only Active, live records and the by-id helpers get no role. |
| Controllers.ListHandler | src/controllers/Sample/sampleController.ts:12-40 | A list request rejects exactly when a positive limit meets a page below 1. |
| Controllers.OthersListOnlyActiveLive | src/controllers/Cart/cartController.ts:21-29 | A caller without an administrator role lists only Active, live items without deletion fields, whatever `deleted` says. |
| Controllers.GetByIdHandler | src/controllers/Category/categoryController.ts:49 | The by-id handler passes the caller's role unchanged, so deletion fields appear exactly for a privileged role. |
| Controllers.DuplicateNameReply | src/controllers/Category/categoryController.ts:34-37 | Adding under a taken name reaches the client as 500 "Name already exist". |
| Controllers.CodeCollisionReply | src/middlewares/errorHandler.ts:18-21 | An artist added after a `SPLENaN` code reaches the client as 400 "Duplicate Field Value Enter". |
| Controllers.ExpiredResetLinkReply | src/middlewares/errorHandler.ts:28-31 | A reset with an expired link changes nothing and reaches the client as 400 "Your link expired so resent ur link". |

## Left out

- MongoDB itself is not modelled: connections, driver failures, indexes other than the unique `code`, and query semantics beyond explicit filters. `$or` with undefined fields is modelled as "the given identifier matches".
- UserModel.Fold: lower-cases the ASCII letters only; `toLowerCase` also maps the other Unicode letters, which the model leaves as they are.
- Base.Caught, Base.CaughtNamed: `||` would drop a falsy code (`0` or `""`); no failure in the model carries one, so the code is kept as it is.
- Regular-expression search is modelled as substring search, with no case folding.
- Parsed query values are inputs. `Date.parse` of the timestamp is an `Option<int>` (none when missing or unparsable). `parseInt` of page and limit are integers with limit > 0 or -1. `totalPages` for a limit of 0 or `NaN` is not modelled.
- The driver's message and code for a negative skip are stand-ins: the class name `MongoServerError` stands for the server's numeric code. Only the fact that the listing rejects is modelled.
- The listing and lookup projections are inclusive, so Mongoose leaves every unselected field unset; the model's views carry the selected fields only.
- bcrypt is an ideal hash. Real hashing, bcrypt's 72-byte input limit and salt generation are foreign code, and salts are parameters.
- Crypto.Compare: does not model bcrypt truncating candidates beyond 72 bytes, because that limit belongs to the library, not to this service.
- JSON Web Token signing is a datatype `Token(payload, key)`, and the compact text format is a `decode` parameter. The environment's lifetimes arrive already read, as `Seconds(n)` or `Unreadable` (`TimeSpan` in jwt.dfy). The `ms` text format is not modelled, and `Seconds(n)` stands for whatever length the text gives, in seconds. jsonwebtoken reads a unit-less text such as `"3600"` as milliseconds. The configuration's default for every lifetime, `'1y'` (src/config/default.ts:125-134), is `OneYear`.
- `Math.random` (OTP codes and generated passwords), the clock and fresh object ids are parameters.
- `editUser`/`editAdmin` start `changePassword` without awaiting it. That is a race between concurrent saves, which a sequential model cannot express.
- Cookies, the logger, multer uploads, Swagger and `app.ts` are plumbing. The routers are also left out; `src/routers/v1Router.ts` never mounts the category or cart routers.
- `getUsers`/`getAdmins` in the helpers (their queries), `addUser`, `userRegistration`, `editUser`, the username/email/phone changes, `sentOTP` and the delete-all operations are not part of this model. Only the controllers' visibility derivation and reply shapes are modelled for them.
- The admin schema, the category and cart schemas, `src/classes` (`ThrowError`, `ErrorResponse`) and `src/functions/cookies.ts` are not part of this model. Admins share the user record. A `ThrowError` carries no code and is taken to keep the class name `Error` it inherits. An `ErrorResponse` has the name of a plain `Error`.
- The Mongoose version, and with it the `strictQuery` default, is not part of this model. Both readings of the undeclared `resetPasswordAccess` are modelled, as the Findings describe.
- Controllers.UpgradeAccessToken: its rejection is unreachable from the handlers, which call it only with a non-empty cookie. Its code is taken to be the error's name.
- `Number` is exact: a finite value is the literal's exact real, with no rounding to the nearest double and no overflow to `Infinity`. The phone is stored as that real.
- Mongoose casts a phone query with `Number` as the model does. A text that casts to `NaN` would raise a CastError, but the numeric tests reject such text first, so that path is not modelled.
- Numbers.ParseInt: reads base 10 only. `parseInt` without a radix reads a `0x`/`0X` prefix as base 16. The code tails the save hooks read (src/models/User/userModel.ts:137-140) are decimal renderings that start with a digit, so that branch is never taken.
- `parseInt` and `Number` skip the white space of ECMA-262 (tab, vertical tab, form feed, space, no-break space, the byte order mark, the Unicode space separators) and its line terminators.
- The artist helper was copied from the sample helper and still names samples in its lower-case messages ("Provide sampleId", "… sample was deleted"). The model reproduces these messages as they are.

## Findings

| source | as written | input that shows it | evidently intended | confidence | as-written member | corrected member |
|---|---|---|---|---|---|---|
| src/middlewares/authMiddleware.ts:216-219 | `guestAccess` reads `.payload` from the verified claims, which have none, so the role test throws | any request with `Authorization: Bearer <valid access token>` and the matching cookie | read the claims as the other gates do, judging the caller like `allRoleAccess` | not executed | Auth.GuestGate | Auth.GuestGateIntended |
| src/models/User/userModel.ts:64-72 | `failedOtpAttempt` defaults to 400 while the lockout threshold is 5 | a newly registered user sends the code just received | the counter starts at 0 | not executed | Otp.NewUserLockedOut | Otp.NewUserIntendedVerifies |
| src/helpers/User/userHelper.ts:459-461 | the mismatch branch saves the failure and neither resolves nor rejects | an admitted user within the window sends a wrong code | answer that the code was not verified | not executed | Otp.VerifyOTP | Otp.VerifyOTPIntended |
| src/controllers/User/userController.ts:28-37 | the privileged list for user statuses is SuperSample/DeveloperSample/Admin | a SuperAdmin lists users | SuperAdmin/DeveloperAdmin/Admin, as for admins | not executed | Controllers.UserStatusFilter | Controllers.UserStatusFilterIntended |
| src/helpers/User/userHelper.ts:144-150 | deleted users are visible by id only to SuperUser/DeveloperUser, roles that do not exist | a SuperAdmin asks for a deleted user by id | SuperAdmin/DeveloperAdmin | not executed | Credentials.DeletedUsersHiddenById | Credentials.DeletedUsersVisibleToSuperAdmin |
| src/helpers/Category/categoryHelper.ts:122-131 | deleted items are visible by id only to Super/Developer plus the resource name (SuperCategory, …), roles that do not exist | a SuperAdmin asks for a deleted category by id | SuperAdmin/DeveloperAdmin | not executed | Resource.DeletedItemsHiddenById | Resource.DeletedItemsVisibleToSuperAdmin |
| src/helpers/User/userHelper.ts:214-241 | login clears `passwordChanged` on a record fetched without that field, so the flag is never cleared | a user whose password was changed logs in | the flag is cleared at login | not executed | Credentials.LoginSuccess | Credentials.LoginIntended |
| src/helpers/User/userHelper.ts:1281-1333 | the status check's projection leaves out `role`, so the gates' identity has no role and every list handler treats administrators as anonymous | a SuperAdmin lists inactive categories through `adminAccess` | project the role | not executed | Controllers.GatedCallersListAsAnonymous | Credentials.CheckStatusIntended |
| src/models/User/userModel.ts:18-117 | the schema does not declare `resetPasswordAccess`, so forgot-password's save drops it (src/helpers/User/userHelper.ts:1179), and with `strictQuery` on the reset lookup drops its `resetPasswordAccess: true` condition too | a reset link used a second time before it expires | store the permission and withdraw it on reset, so a link works once | not executed | Credentials.ReplayedLinkResetsAgain | Credentials.ForgotThenReset |
| src/helpers/User/userHelper.ts:1229-1238 | with `strictQuery` off the lookup keeps the condition on a field no saved record holds | a reset with a fresh link from forgot-password | a link for a record holding the permission resets it | not executed | Credentials.UnstrippedResetDenied | Credentials.ResetSucceeds |
