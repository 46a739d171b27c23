# Media-processing platform: a Dafny model of its core

The system is a web platform for processing video and images. A user registers, or signs in with a password or a Google account, and uploads files. The user then asks the back end to convert, compress, cut, merge, rotate, watermark or resize them, and downloads the results. Every request is recorded as a processing job.

This project models the parts of the back end and front end that carry the platform's logic:

- **Jobs.** The processing-job record, with its four statuses and the status changes the handlers make (`Jobs`).
- **Processing endpoints.** The ten processing endpoints, the job-status lookup, the paginated history and the download endpoint with its MIME table and `Content-Disposition` header (`Process`, `History`, `Download`).
- **Command builder.** The FFmpeg command the media service builds for each operation: its inputs, output name, size and rotation filters, and watermark positions (`Transcoder`).
- **Uploads.** The upload middleware's type filter, stored names and size limit, and the upload endpoints (`Upload`).
- **Accounts and sessions.** Registration, login, refresh-token rotation, the current-user lookup, the Google callback and the Google verify callback, over a store of users and refresh-token rows (`Accounts`, `Auth`, `Passport`).
- **File clean-up.** The periodic sweep that removes expired files (`Cleanup`).
- **Port helper.** The id-collection step of the script that frees the server's port (`KillPort`).
- **Client side:**
  - the form and file validators (`Validation`);
  - the duration and truncation formatters (`Format`);
  - locale handling, the language switcher and the route table (`Locale`);
  - the authentication store (`AuthStore`);
  - the two HTTP clients' interceptors (`Interceptors`);
  - the download client's file-name parsing (`Disposition`).
- **Shared helpers.** JavaScript's `||` defaults, truthiness and `parseInt` (`JsValue`); decimal rendering (`Decimal`); Node's `path.join`, `basename` and `extname` (`Paths`); `encodeURIComponent` and `decodeURIComponent` (`UriComponent`); string helpers (`Text`); `Option` and `Result` (`Wrappers`).

Things the model cannot see become parameters:

- The outcome of running FFmpeg: it succeeds, or fails with a message.
- Which files exist, as a set of paths.
- The clock, as `now`.
- Fresh identifiers, as `uuid`.
- What JWT verification decodes.
- The bcrypt comparison, as a function value.
- The refresh endpoint's answer.
- Which `taskkill` calls succeed.

Database tables are sequences of rows. Row `i` of the jobs and users tables has id `i + 1`, as auto-increment assigns it.

## Model

| member | source | states |
|---|---|---|
| Jobs.Create | backend/src/models/ProcessingJob.js:4-53 | a new job takes the next id, is appended after every existing row, carries the caller's attributes, starts as `pending` unless a status is given, and has no output, error or completion time yet |
| Jobs.Save | backend/src/controllers/processController.js:33-36 | saving replaces exactly the row with the job's id, every other row is unchanged, and a consistent job keeps the table valid |
| Jobs.TransitionShape | backend/src/models/ProcessingJob.js:31-34 | the handlers only move a job out of `processing` into `completed` or `failed`; terminal states have no way out and `pending` is never re-entered |
| Jobs.Complete | backend/src/controllers/processController.js:33-36 | success records the output path and the completion time, makes the job `completed`, and keeps its id, owner, input and type |
| Jobs.Fail | backend/src/controllers/processController.js:44-46 | failure records the error's message, makes the job `failed` with no output and no completion time, and keeps its identity |
| Jobs.FindOwnedMatchesWhere | backend/src/controllers/processController.js:478-480 | the lookup by id and owner finds a job exactly when some row has that id and that owner, and the job found is that row |
| Process.ConfigFromEnv | backend/src/controllers/processController.js:10 | `UPLOAD_DIR` and `OUTPUT_DIR` fall back to `uploads` and `outputs` when unset or empty, so the directories are never empty |
| Process.ResolvePaths | backend/src/controllers/processController.js:151-154 | the ids resolve exactly when every one is a string, each to `path.join(uploadDir, id)`, in order |
| Process.Checks | backend/src/controllers/processController.js:156-344 | the existence checks cover every resolved path, in the order the endpoint makes them; a merge's message names the missing file, the watermark endpoint's says whether the input or the watermark is missing, and every other endpoint answers `File not found` |
| Process.FirstMissing | backend/src/controllers/processController.js:156-161 | no message exactly when every checked path exists; otherwise the message of a failing check at which the endpoint stops |
| Process.Handle | backend/src/controllers/processController.js:7-471 | one call of any of the ten endpoints keeps the job table valid |
| Process.HandleRejected | backend/src/controllers/processController.js:149-161 | a non-string id gives a 500 and a missing file gives the first failing check's 404; neither changes the jobs or the files |
| Process.NotFoundMessage | backend/src/controllers/processController.js:156-344 | a request whose files do not all exist answers 404 for the first missing path, with that endpoint's message for it |
| Process.HandleAccepted | backend/src/controllers/processController.js:17-48 | an accepted request appends exactly one job, owned by the caller and of the endpoint's type; FFmpeg's success makes it completed with its output recorded and returned by base name, FFmpeg's failure makes it failed with the message and answers 500 |
| Process.HandleThenStatus | backend/src/controllers/processController.js:474-494 | after an accepted call the caller finds the job settled, with the same output name or error the call returned, and any other user gets "Job not found" |
| Process.HandleOutputName | backend/src/controllers/processController.js:38-42 | a successful call returns the uuid followed by the extension the operation promises |
| Process.GetJobStatus | backend/src/controllers/processController.js:474-484 | only the owner sees a job, with its id and status; anyone else, or an unknown id, gets "Job not found" |
| History.OwnedByMembers | backend/src/controllers/processController.js:508 | the history filter keeps exactly the caller's rows |
| History.SortNewestFirst | backend/src/controllers/processController.js:509 | the listing is a permutation of the caller's rows, ordered newest first |
| History.Window | backend/src/controllers/processController.js:510-511 | `LIMIT`/`OFFSET` returns the rows from the offset on, as many as the limit allows and the listing holds |
| History.PageCount | backend/src/controllers/processController.js:531 | the page count is the least number of pages of `limit` rows that hold every job, and is `null` for a zero limit |
| History.GetHistory | backend/src/controllers/processController.js:502-538 | page 1 and 20 rows are the defaults; a negative limit or offset answers the 500 error; otherwise the total is the caller's job count and a page holds at most `limit` entries |
| History.ListingOwned | backend/src/controllers/processController.js:507-512 | the listing holds exactly the caller's jobs, newest first |
| History.HistoryPageOwnedAndOrdered | backend/src/controllers/processController.js:507-523 | every entry of a page describes one of the caller's jobs, and the page is newest first |
| History.WindowOwned | backend/src/controllers/processController.js:507-512 | every row of a `LIMIT`/`OFFSET` window of the listing is one of the caller's jobs |
| History.PageEntry | backend/src/controllers/processController.js:504-512 | with a positive limit, entry `i` of page `p` is the job at position `(p - 1) * limit + i` of the listing |
| History.EveryJobOnItsPage | backend/src/controllers/processController.js:504-531 | every job of the caller appears on page `k / limit + 1` at index `k % limit`, and that page is within the page count |
| Download.MimeType | backend/src/controllers/processController.js:561-580 | a known extension maps to its type in the table, and exactly the unknown ones map to `application/octet-stream` |
| Download.DownloadFile | backend/src/controllers/processController.js:541-590 | "Job not found" exactly when the job is unknown or another user's; "Output file not found" exactly when the caller's job has no output path, an empty one or one that does not exist; otherwise the reply sends the recorded output under its base name, with the table's type for the lower-cased extension, the `Content-Disposition` header `res.download` writes for that name, and `Content-Disposition` exposed |
| Download.DownloadOwnerOnly | backend/src/controllers/processController.js:545-551 | another user's job is reported exactly as an unknown id is |
| Download.ContentTypeIgnoresCase | backend/src/controllers/processController.js:558-559 | the content type depends only on the lower-cased extension |
| Download.KelvinSignExtension | backend/src/controllers/processController.js:558-582 | an extension spelled with KELVIN SIGN for its `k`, such as `.m\u212Av`, is lower-cased into the table and served as `video/x-matroska` |
| Download.ProcessThenDownload | backend/src/controllers/processController.js:553-590 | after a successful processing call the same user downloads the output under the name the call returned, with that name's content type; for a plain ASCII name the client reads that very name back out of the header sent |
| Download.OutputReadyAfterProcessing | backend/src/controllers/processController.js:33-42 | a successful processing call leaves its job owned by the caller with an existing output whose base name the call returned |
| Disposition.HeaderRoundTrip | frontend/src/lib/api.ts:165-170 | the client reads back every non-empty file name written as `filename*=UTF-8''` followed by its `encodeURIComponent` form, the header the download endpoint sets before `res.download` |
| Disposition.PlainFilename | frontend/src/lib/api.ts:171-176 | an unquoted `filename=` value is percent-decoded as it stands |
| Disposition.QuotedFilename | frontend/src/lib/api.ts:172-175 | a quoted `filename="…"` value loses its quotes and is percent-decoded |
| Disposition.StripQuotes | frontend/src/lib/api.ts:174 | no single or double quote is left |
| Disposition.StarValueAfter | frontend/src/lib/api.ts:167 | the first expression finds a `filename*=UTF-8''` value and takes it up to the next `;` |
| Disposition.QuotedValue | frontend/src/lib/api.ts:172 | for a quoted value the first expression finds nothing and the fallback returns the value with its quotes |
| Disposition.ExpressHeaderOfPlain | backend/src/controllers/processController.js:588 | for a plain ASCII name `res.download` sends `attachment; filename="<name>"` and no `filename*` parameter |
| Disposition.SentHeaderRoundTrip | frontend/src/lib/api.ts:165-176 | the client reads a plain ASCII name back out of the header `res.download` sends for it |
| UriComponent.DecodeEncode | frontend/src/lib/api.ts:169 | `decodeURIComponent(encodeURIComponent(s))` is `s` for every string |
| UriComponent.EncodeAlphabet | backend/src/controllers/processController.js:584 | the encoded name uses only unreserved characters, `%` and hexadecimal digits, so it contains no `;` |
| Paths.BasenameOfJoin | backend/src/controllers/processController.js:558 | the base name of a non-empty slash-free name joined onto a directory is that name |
| Paths.BasenameOfTrailingSlash | backend/src/controllers/processController.js:490 | a trailing `/` does not change the base name, as `path.basename` strips trailing separators |
| Paths.ExtnameOfStemAndExtension | backend/src/controllers/processController.js:559 | `extname` of a dot-free stem followed by an extension is that extension |
| Transcoder.OutputName | backend/src/services/ffmpegService.js:17 | output names begin with the fresh uuid |
| Transcoder.SizeSpec | backend/src/services/ffmpegService.js:59-63 | a size is given exactly when both width and height are truthy or the scale is |
| Transcoder.PositionLookup | backend/src/services/ffmpegService.js:231-243 | a declared position gives its table entry; a key that `Object.prototype` supplies, such as `constructor` or `__proto__`, gives that member's text; any other key gives `undefined` |
| Transcoder.Plan | backend/src/services/ffmpegService.js:15-437 | each operation's command writes `path.join(outputDir, name)`, reads exactly the operation's source files in order, and merges or takes screenshots only for those operations |
| Transcoder.InputsOfSteps | backend/src/services/ffmpegService.js:96-111 | the builder calls add exactly the operation's sources as inputs, in order |
| Transcoder.OutputPathShape | backend/src/services/ffmpegService.js:41-45 | the output's base name is the uuid followed by the promised extension, and `extname` of the output is that extension |
| Transcoder.SizeSpecDimensions | backend/src/services/ffmpegService.js:59-60 | numeric width and height win over the scale, and FFmpeg reads `WxH` back as those two numbers |
| Transcoder.SizeSpecScale | backend/src/services/ffmpegService.js:61-62 | without both dimensions a truthy scale becomes a percentage |
| Transcoder.HalfTurnFilter | backend/src/services/ffmpegService.js:123-130 | the `180` entry chains two transposes that turn the picture 180 degrees |
| Transcoder.QuarterTurnFilter | backend/src/services/ffmpegService.js:123-130 | `270` turns the picture 270 degrees clockwise; a key that `Object.prototype` supplies makes a filter that is no rotation; any other key except `180` turns it 90 degrees |
| Transcoder.RotateFilterAngle | backend/src/services/ffmpegService.js:116-130 | the rotation filter turns the picture clockwise by the requested angle when it is 90, 180 or 270, makes no rotation for an inherited key such as `constructor`, and turns by 90 otherwise |
| Transcoder.InputsOfImagesToVideo | backend/src/services/ffmpegService.js:379-390 | every image is added as an input once, in order, each looped for the duration |
| Upload.AcceptedIsVideoOrImage | backend/src/middleware/upload.js:26-33 | every accepted type is a video or an image type |
| Upload.AudioRejected | backend/src/middleware/upload.js:35-39 | no audio type is accepted |
| Upload.StoredName | backend/src/middleware/upload.js:18 | the stored name begins with the fresh uuid |
| Upload.StoredNameShape | backend/src/middleware/upload.js:17-20 | the stored name keeps the original extension, and nothing else of the original name, and contains no `/` |
| Upload.SizeLimit | backend/src/middleware/upload.js:47 | the configured size limit is never zero |
| Upload.SizeLimitFallback | backend/src/middleware/upload.js:47 | for every setting, one that is unset or that `parseInt` reads as NaN or zero gives 500 MiB, and any other parsed value is used as it is |
| Upload.Receive | backend/src/middleware/upload.js:43-49 | a file is stored exactly when its type is allowed and its size within the limit, under the uuid-based name; otherwise it is refused with the reason |
| Upload.UploadFile | backend/src/controllers/uploadController.js:3-26 | a missing file answers "No file uploaded"; otherwise the upload succeeds |
| Upload.Infos | backend/src/controllers/uploadController.js:34-41 | one description per file, in order |
| Upload.UploadMultipleFiles | backend/src/controllers/uploadController.js:28-51 | a missing or empty list answers "No files uploaded"; otherwise every file is described, in order |
| Upload.SingleAndMultipleAgree | backend/src/controllers/uploadController.js:34-41 | one file uploaded through either endpoint is described the same way |
| Upload.UploadedIdResolves | backend/src/controllers/uploadController.js:10 | the identifier handed to the client resolves, under the processing endpoints, to the path the middleware wrote |
| Validation.IsValidEmailMatchesPattern | frontend/src/utils/validation.ts:8-11 | the cut-point check accepts an address exactly when the anchored email pattern matches it |
| Validation.IsValidPassword | frontend/src/utils/validation.ts:16-30 | a password is valid exactly when it has at least six UTF-16 units, and an invalid one carries exactly the length message |
| Validation.PasswordLengthBounds | frontend/src/utils/validation.ts:22 | any six characters pass, and fewer than three never do |
| Validation.FileExtensionShape | frontend/src/utils/validation.ts:36 | the extension is a dot and the lower-cased text after the last dot, or the whole lower-cased name when it has no dot |
| Validation.FileExtensionAgreesWithExtname | frontend/src/utils/validation.ts:36 | for a plain name whose dot is not its first character, the client's extension is the lower-cased extension the server derives |
| Validation.IsValidFileType | frontend/src/utils/validation.ts:35-45 | a file is accepted exactly when some accepted-type list contains its extension |
| Validation.FileSizeAgreesWithServer | frontend/src/utils/validation.ts:50-52 | with the same limit, the client's size check passes exactly the allowed files the server does not refuse as too large |
| Format.DurationPartsCanonical | frontend/src/utils/format.ts:38-47 | the parts of a duration add up to it, and are written largest unit first with minutes and seconds below sixty |
| Format.CanonicalIsDurationParts | frontend/src/utils/format.ts:38-47 | every canonical list of parts is the one written for its total |
| Format.FormatDurationRoundTrip | frontend/src/utils/format.ts:38-50 | reading the formatted text back gives the number of seconds |
| Format.FormatDurationInjective | frontend/src/utils/format.ts:38-50 | different durations are written differently |
| Format.FormatDurationNonEmpty | frontend/src/utils/format.ts:47 | the output is never empty, because a zero duration is written `0s` |
| Format.FormatDurationZeroAndHour | frontend/src/utils/format.ts:45-47 | zero is written `0s` and an hour `1h` |
| Format.FormatDurationAllUnits | frontend/src/utils/format.ts:45-49 | 3661 seconds are written `1h 1m 1s` |
| Format.FormatDurationNoHours | frontend/src/utils/format.ts:45-49 | 90 seconds are written `1m 30s` |
| Format.SliceTo | frontend/src/utils/format.ts:57 | `slice(0, end)` is a prefix of the text; a negative end counts back from the end |
| Format.TruncateTextShape | frontend/src/utils/format.ts:55-58 | a text within the limit is unchanged; a longer one becomes its first `maxLength` characters followed by `...` |
| Format.TruncateTextIdempotent | frontend/src/utils/format.ts:55-58 | truncating twice with the same limit is truncating once |
| Format.TruncateTextNegative | frontend/src/utils/format.ts:57 | a negative limit keeps all but the last `-maxLength` characters, then adds `...` |
| Locale.ValidLocaleSupported | frontend/src/i18n.ts:13 | the requested locale is kept when supported and replaced by the default otherwise, so the result is always supported |
| Locale.RequestConfigNeverNotFound | frontend/src/i18n.ts:15-20 | the default is supported, so the request config never reaches the not-found page |
| Locale.StripLocaleCases | frontend/src/components/features/language/LanguageSwitcher/LanguageSwitcher.tsx:21-29 | `/zh` and `/en` become `/`, a path under either loses its prefix, and any other path is kept |
| Locale.SwitchPathShape | frontend/src/components/features/language/LanguageSwitcher/LanguageSwitcher.tsx:32-33 | the pushed path starts with the new locale and a `/` |
| Locale.SwitchTwice | frontend/src/components/features/language/LanguageSwitcher/LanguageSwitcher.tsx:19-33 | switching to one language and then another lands where switching straight to the second does |
| Locale.DetectionWithoutBoundary | frontend/src/components/features/language/LanguageSwitcher/LanguageSwitcher.tsx:17 | detection has no `/` boundary while stripping has one: `/zhx` displays zh but keeps its path |
| Locale.RouteTableWellFormed | frontend/src/constants/routes.constants.ts:5-46 | every route begins with `/`; the public and protected lists are disjoint and drawn from the route table |
| Locale.LocalizeThenStrip | frontend/src/constants/routes.constants.ts:24-26 | a route localized under a supported locale is stripped back to the route by the switcher, and the switcher detects that locale |
| Locale.EveryRouteLocalizes | frontend/src/constants/routes.constants.ts:5-26 | every declared route survives localization and stripping |
| AuthStore.SetAuth | frontend/src/stores/auth.store.ts:28-36 | signing in holds the user and both tokens and raises the flag |
| AuthStore.UpdateUser | frontend/src/stores/auth.store.ts:41-51 | without a user nothing changes; otherwise only the user changes, to the patched record |
| AuthStore.ClearAuth | frontend/src/stores/auth.store.ts:56-64 | clearing drops the user and both tokens and lowers the flag |
| AuthStore.LoadAuthFromStorage | frontend/src/stores/auth.store.ts:69-77 | the flag is raised exactly when it was raised already or a user and a non-empty access token are held; nothing else changes |
| AuthStore.ClearAuthIdempotent | frontend/src/stores/auth.store.ts:20-23 | clearing returns the initial signed-out state, and clearing twice is clearing once |
| AuthStore.TransitionsConsistent | frontend/src/stores/auth.store.ts:20-77 | every transition keeps a signed-in store holding a user and an access token |
| AuthStore.LoadAuthMonotone | frontend/src/stores/auth.store.ts:72-76 | loading never lowers the flag, and loading twice is loading once |
| AuthStore.ApplyPatch | frontend/src/stores/auth.store.ts:45 | supplied fields win and absent ones keep their value; an empty patch changes nothing and a patch applied twice is applied once |
| AuthStore.UpdateUserEmptyPatch | frontend/src/stores/auth.store.ts:41-51 | updating with an empty patch leaves the store as it was |
| AuthStore.PersistRoundTrip | frontend/src/stores/auth.store.ts:80-87 | the persisted slice restores the state it was taken from |
| AuthStore.SignOutForgets | frontend/src/stores/auth.store.ts:56-64 | after signing in and then clearing, the persisted slice holds no user and no token |
| Interceptors.BearerOnlyWithToken | frontend/src/lib/api.ts:14-25 | a request carries `Bearer <token>` exactly when an access token is stored, and is otherwise untouched; the typed client agrees whenever the request has headers |
| Interceptors.ClientWithoutHeaders | frontend/src/services/api/client.ts:21 | the typed client sends a request without headers as it is |
| Interceptors.OtherErrorsRejected | frontend/src/services/api/client.ts:38 | anything but a first 401 is rejected unchanged, with no refresh and no change to storage |
| Interceptors.NoRefreshTokenRejects | frontend/src/services/api/client.ts:42-43 | with no refresh token stored a 401 is rejected and storage is untouched |
| Interceptors.RefreshSucceeds | frontend/src/services/api/client.ts:42-53 | a successful refresh stores both new tokens, keeps every other key, and resends the request, marked as retried, with the new bearer |
| Interceptors.RefreshFails | frontend/src/services/api/client.ts:55-65 | a failed refresh removes the access token, refresh token and user, keeps every other key, rejects, and sends the page to the login path |
| Interceptors.RefreshAtMostOnce | frontend/src/services/api/client.ts:38-39 | a resent request that fails again is rejected without a second refresh |
| Interceptors.ResentCarriesNewToken | frontend/src/services/api/client.ts:49-53 | the resent request, passing through the request interceptor again, still carries the new access token |
| Interceptors.LoginPathKeepsLocale | frontend/src/services/api/client.ts:62-63 | on a localized page the login path keeps the page's first segment as the locale, supported or not |
| Interceptors.LoginPathOfRoot | frontend/src/services/api/client.ts:62 | the root page has an empty first segment and falls back to `/zh/login` |
| Interceptors.ClientsAgree | frontend/src/lib/api.ts:28-62 | the two clients differ only in where a failed refresh sends the page |
| Accounts.Expiry | backend/src/controllers/authController.js:52-53 | a stored refresh token expires after its creation time |
| Accounts.FindByEmail | backend/src/controllers/authController.js:33 | a user is found exactly when one has the email, and the one found has it |
| Accounts.FindByGoogleId | backend/src/config/passport.js:17 | a user is found exactly when one has the Google id, and the one found has it |
| Accounts.FindToken | backend/src/controllers/authController.js:138-140 | a row is found exactly when one holds the token for that user |
| Accounts.AddUser | backend/src/controllers/authController.js:42-46 | the new user takes the next id and is appended with the given fields |
| Accounts.AddUserValid | backend/src/models/User.js:11-27 | adding a user with an unused email and an unused Google id keeps emails and Google ids unique |
| Accounts.StoreToken | backend/src/models/RefreshToken.js:18-22 | storing a token that is already stored fails and adds nothing; otherwise one row with a thirty-day expiry is appended |
| Accounts.StoreTokenValid | backend/src/models/RefreshToken.js:18-22 | a stored token row for an existing user keeps the store valid |
| Accounts.DeleteToken | backend/src/controllers/authController.js:156 | deleting removes exactly that row |
| Accounts.DeleteTokenValid | backend/src/controllers/authController.js:156 | after deletion the token is no longer stored, every other row remains, and the store stays valid |
| Accounts.SaveUser | backend/src/config/passport.js:32 | saving replaces only that user's row |
| Auth.Register | backend/src/controllers/authController.js:23-73 | invalid input and a taken email change nothing; otherwise the user is added, and a session is opened exactly when the issued refresh token is new; the store stays valid |
| Auth.Login | backend/src/controllers/authController.js:76-123 | a session is opened exactly for valid input whose password matches the user's hash; wrong credentials change nothing, and login never changes the users |
| Auth.NoHashNeverLogsIn | backend/src/models/User.js:44-46 | an account without a password hash, such as a Google account, never logs in with a password |
| Auth.Refresh | backend/src/controllers/authController.js:126-173 | a missing token answers 400, an undecodable or unknown one the invalid-token answer, and a rotation hands out the newly issued pair; users are never changed and the store stays valid |
| Auth.ExpiredTokenPurged | backend/src/controllers/authController.js:147-150 | an expired stored token is deleted and refused with 403 |
| Auth.RefreshTokenUsableOnce | backend/src/controllers/authController.js:155-163 | after a rotation the presented token is gone, so presenting it again is refused |
| Auth.RotatedTokenRefreshes | backend/src/controllers/authController.js:153-168 | the token a rotation hands out is itself accepted by a later refresh before it expires |
| Auth.CurrentUser | backend/src/controllers/authController.js:176-191 | an existing user is returned with its id and email; any other id answers "User not found" |
| Auth.FailureUrlAsWritten | backend/src/controllers/authController.js:216 | the error redirect as written interpolates `FRONTEND_URL` without a fallback |
| Auth.FailureUrlUnsetEnv | backend/src/controllers/authController.js:216 | with `FRONTEND_URL` unset the error redirect is `undefined/login?error=auth_failed`, unlike the corrected one |
| Auth.FailureUrl | backend/src/controllers/authController.js:212 | the error redirect uses the same fallback as the success redirect, and agrees with the original whenever the setting is present |
| Auth.GoogleCallback | backend/src/controllers/authController.js:194-218 | a new refresh token is stored and the page is redirected with the tokens; a duplicate token leaves the store as it was and redirects to line 216's error URL, which has no fallback; the store stays valid |
| Auth.GoogleCallbackIntended | backend/src/controllers/authController.js:194-218 | the corrected callback stores and redirects as the original does, except that a duplicate token redirects to the error page under the same fallback as line 212 |
| Auth.GoogleCallbackUnsetEnv | backend/src/controllers/authController.js:216 | with `FRONTEND_URL` unset and a duplicate token, the callback as written redirects to `undefined/login?error=auth_failed`, the corrected one to the default front end |
| Auth.LoginThenRefresh | backend/src/controllers/authController.js:100-107 | a session opened by login can be refreshed with its refresh token before it expires |
| Passport.FirstPhoto | backend/src/config/passport.js:39 | the avatar is the first photo exactly when the profile has one |
| Passport.Link | backend/src/config/passport.js:26-32 | linking sets the Google id and fills the avatar only when the account has none; every other field is kept |
| Passport.Verify | backend/src/config/passport.js:14-47 | a known Google id returns its user unchanged; otherwise the email's account is linked or a new one is created, and an error changes nothing |
| Passport.VerifyValid | backend/src/config/passport.js:17-41 | the verify callback keeps emails and Google ids unique and returns a user stored under the profile's Google id |
| Passport.VerifyIdempotent | backend/src/config/passport.js:17 | signing in twice with the same profile returns the same user and changes nothing the second time |
| Cleanup.CleanupOldFiles | backend/src/utils/fileCleanup.js:5-40 | a missing directory removes nothing; otherwise the removed paths are exactly the expired regular files whose unlink succeeds |
| Cleanup.RemovedExactly | backend/src/utils/fileCleanup.js:19-36 | a path is removed exactly when it names an entry whose stat succeeded and which is a regular file older than the maximum age |
| Cleanup.KeepsFreshAndNonFiles | backend/src/utils/fileCleanup.js:28 | a file modified within the window, and anything that is not a regular file, is never removed |
| Cleanup.RetentionHours | backend/src/utils/fileCleanup.js:46 | the retention is never zero |
| Cleanup.RunCleanup | backend/src/utils/fileCleanup.js:43-58 | one run removes the expired files of both directories under the configured retention |
| Cleanup.RetentionFallback | backend/src/utils/fileCleanup.js:46 | for every setting, one that is unset or that `parseInt` reads as NaN or zero gives 24 hours, and any other parsed value is used as it is |
| KillPort.PidOfLine | backend/scripts/kill-port.js:32-33 | the id of a listing line is its last white-space-separated field, whatever trails it |
| KillPort.LinePids | backend/scripts/kill-port.js:28-33 | one id per line, each the id of its own line |
| KillPort.ListingPids | backend/scripts/kill-port.js:26-33 | a listing whose lines each end in an id followed only by white space yields exactly those ids, in order |
| KillPort.Candidates | backend/scripts/kill-port.js:34 | only non-empty ids other than `0` are kept |
| KillPort.Dedup | backend/scripts/kill-port.js:29 | the set holds no id twice |
| KillPort.DedupMembers | backend/scripts/kill-port.js:29-37 | the set keeps every id and invents none |
| KillPort.CollectPids | backend/scripts/kill-port.js:28-37 | the loop collects the usable ids once each, in order of first appearance |
| KillPort.AttemptAll | backend/scripts/kill-port.js:47-54 | every collected id gets one `taskkill`, in order, and a failure does not stop the loop |
| KillPort.KillPort | backend/scripts/kill-port.js:14-63 | an empty listing, or a lookup that failed with empty output, means the port is free; no usable id is reported as such; otherwise every distinct usable id is attempted |
| JsValue.OrLaws | backend/src/controllers/processController.js:10 | `a || b` is truthy exactly when one side is; a falsy left side yields the right one, and the operator is associative and idempotent |
| JsValue.EnvOrIsOr | backend/src/controllers/authController.js:212 | an environment default is `||` on the setting: unset and empty fall back, and any other text is used |
| JsValue.PropertyLookup | backend/src/services/ffmpegService.js:123-130 | an own key of an object literal gives its own value; otherwise an `Object.prototype` member gives its text, and any other key nothing |
| JsValue.ParseIntOfIntToString | backend/src/controllers/processController.js:510-511 | `parseInt` reads every rendered integer back as itself |
| JsValue.ParseIntOfDigits | backend/src/utils/fileCleanup.js:46 | a run of decimal digits parses to its value |
| JsValue.ParseIntNotANumber | backend/src/utils/fileCleanup.js:46 | text that does not start with white space, a sign or a digit is NaN |
| Decimal.ParseNatToString | backend/src/controllers/processController.js:529-530 | rendering a natural number in decimal and reading it back gives it back |
| Decimal.NatToStringInjective | backend/src/controllers/processController.js:529-530 | different numbers render differently |

## Left out

- `changeSpeed` in the media service: it builds an `atempo` chain from floating-point arithmetic, which the model does not cover.
- `formatFileSize` and `formatDate` in `format.ts`: they rest on floating-point rounding and locale-dependent date formatting.
- Running FFmpeg, reading directories and file metadata, deleting files, the database, signing and verifying JWTs, and bcrypt. Each is a parameter of the operation that uses it: a tool outcome, a set of existing paths, a listing with its stat results, the table rows, a decoded user id, a comparison function.
- Timers and scheduling: the clean-up's `setInterval` and its first run, and token expiry timestamps, are modelled through a `now` argument.
- Express, Next.js and axios wiring: routing, authentication middleware, CORS, multer's storage engine, the response objects, and the UI components around the language switcher. Only the logic they call is modelled.
- The shell in `kill-port.js`: running `netstat` and `taskkill`, and the console messages. The lookup's result and the set of ids `taskkill` can end are parameters.
- Floating-point numbers: request values are integers or strings (`JsValue.Param`), and durations are whole non-negative seconds.
- Format.FormatDurationRoundTrip: covers whole non-negative seconds only; fractional and negative durations are not modelled.
- Format.TruncateTextShape: counts Unicode scalar values where JavaScript counts UTF-16 code units, which differs for characters outside the Basic Multilingual Plane.
- Accounts.Expiry: states only that a token expires after its creation; the thirty-day period is modelled as 30 × 86 400 000 ms with no calendar arithmetic.
- Download.ContentTypeIgnoresCase: `toLowerCase` is modelled on the characters whose lower case is ASCII, the capital letters and KELVIN SIGN; every other character keeps its case, so the lower-cased text itself can differ from JavaScript's, though never in whether it equals one of the table's ASCII extensions.
- AuthStore.UpdateUser: a patch key that is present but set to `undefined` is modelled as absent, though the spread in the source would copy the `undefined`.
- Interceptors.BearerOnlyWithToken: the untyped client writes into `config.headers` without a guard, so the model requires a request with headers; axios always supplies one.
- Accounts.FindByEmail: emails are compared by exact string equality. The database's `utf8mb4_unicode_ci` collation also treats case and accent variants as equal, so with `jose@x.com` stored the source refuses to register `Jos\u00E9@x.com` and links a Google profile carrying it, where the model adds a second user (this carries over to Accounts.EmailsUnique, Auth.Register and Passport.Verify).
- Cleanup.CleanupOldFiles: the model settles the entries one after another in listing order, while the source's `stat` and `unlink` callbacks complete in no fixed order; only the set of removed files is promised. Modification times are whole milliseconds, where `stats.mtimeMs` is fractional, so a file within a millisecond of the limit may be judged differently.
- Paths.BasenameOfJoin: `path.join` is concatenation with one `/`, with no normalisation of `.`, `..` or repeated slashes.
- Paths.Basename: models the POSIX `path.basename`, trailing slashes included; Windows separators and drive letters are not modelled.
- Validation.FileExtensionShape: `toLowerCase` is modelled on the capital letters and KELVIN SIGN only, so an extension such as `.\u00C9X` is lower-cased to `.\u00C9x` where JavaScript gives `.\u00E9x`; acceptance against type lists written in ASCII, as the application's are, is unaffected.
- UriComponent.DecodeEncode: strings are sequences of Unicode scalar values, so the lone surrogates on which `encodeURIComponent` throws cannot occur.
- Disposition.SentHeaderRoundTrip: the client's read-back of the header `res.download` sends is proved for plain ASCII names only; names with quotes, backslashes, `%`, `*`, `'` or non-ASCII characters are sent through `filename*=` and an ISO-8859-1 fallback whose read-back is not proved.
- History.SortNewestFirst: jobs created at the same instant are ordered by id; SQL leaves their order open.
- History.GetHistory: the page, limit and offset are integers, and the driver's behaviour on non-numeric query values is not modelled.

## Findings

| source | as written | input that shows it | evidently intended | confidence | as-written member | corrected member |
|---|---|---|---|---|---|---|
| backend/src/controllers/authController.js:216 | the error redirect interpolates `process.env.FRONTEND_URL` with no fallback | `FRONTEND_URL` unset: the browser is sent to `undefined/login?error=auth_failed` | the fallback `http://localhost:3000` that the success redirect uses at line 212 | not executed | Auth.GoogleCallback, Auth.FailureUrlAsWritten, Auth.FailureUrlUnsetEnv, Auth.GoogleCallbackUnsetEnv | Auth.GoogleCallbackIntended, Auth.FailureUrl |
