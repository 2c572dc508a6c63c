# AtomClass server core, modelled in Dafny

AtomClass is an online-course server: teachers publish courses made of video lessons,
students enrol, watch the lessons through signed Cloudflare Stream URLs and have their
progress tracked. This project models the decision logic at the heart of that server and
proves its properties:

- **Device admission** (`device_registry.dfy`, module `UserDeviceService`): the per-user
  device cap, the derived device id and the device list kept on the user row through
  login, logout, removal and deactivation. The user is a class whose `devices` list the
  methods change in place.
- **Signed playback tokens** (`stream_token.dfy`, `base64.dfy`): the entitlement check
  against the enrollment table, the expiry arithmetic and the JWS Compact Serialization
  of the token (section 7.1 of RFC 7515, RS256 from section 3.3 of RFC 7518). The
  base64url text is the unpadded encoding of section 5 of RFC 4648, built by stripping
  and re-mapping the standard encoding. That text is proved to decode back to its bytes.
- **One-time codes** (`otp.dfy`): code format, record creation, the ordered validation
  cascade, the resend cooldown and the expiry test.
- **Cognito groups** (`cognito_groups.dfy`): normalisation of group names, reading the
  `cognito:groups` claim and the de-duplicated list.
- **Course video structure** (`course_video_sync.dfy`, `stream_uploader.dfy`): the
  status mapping, lesson ids and indexes assigned by the full sync and by a single
  added video, grouping lessons into sorted chapters, slugs and the folder metadata, the
  upload-path choice by size, the bounded polling loop, the per-course statistics and
  the upload result map.
- **Controllers** (`stream_controller.dfy`, `course_controller.dfy`): the order of the
  checks on a token request, the lesson-progress update with completion counted once,
  and the course listing's page window and sort whitelist. Also course creation, update
  and archive, and the in-place operations on a course's lessons and reviews with the
  statistics over them.

`js_strings.dfy` gives the JavaScript string operations these rely on (`trim`, `\s`,
ASCII case mapping, integer `toString`, `padStart`, `parseInt` and global run
replacement). `course_entities.dfy` holds the shared entity shapes: the `Course` and
`Enrollment` classes and the lesson, review and progress records. `wrappers.dfy` holds
`Option` and `Result`.

The clock, random draws (`crypto.randomInt`, `crypto.randomUUID`) and environment
settings are parameters. So are SHA-256, RSA signing, `JSON.stringify` and the
Cloudflare upload, status and transfer calls: each is a function parameter whose
result, or error, the model takes as given. A repository read is the loaded object, or
`null` when there is none; a save is the change to that object's fields.

## Model

| member | source | states |
|---|---|---|
| JsStrings.TrimStart | src/utils/cognitoGroups.ts:3 | the result is a suffix of the input that does not start with white space, and only white space was dropped |
| JsStrings.TrimEnd | src/utils/cognitoGroups.ts:3 | the result is a prefix of the input that does not end with white space, and only white space was dropped |
| JsStrings.Trim | src/services/userDeviceService.ts:47 | `trim()`: neither end of the result is white space |
| JsStrings.TrimEmptyIffBlank | src/utils/cognitoGroups.ts:20-24 | `trim()` gives the empty string exactly for strings made only of white space |
| JsStrings.TrimStartSplit | src/utils/cognitoGroups.ts:3 | leading white space is removed only up to the first other character; everything after it is kept |
| JsStrings.TrimEndSplit | src/utils/cognitoGroups.ts:3 | trailing white space is removed only back to the last other character; everything before it is kept |
| JsStrings.TrimSplit | src/utils/cognitoGroups.ts:3 | around a character that is not white space, `trim()` trims the left part's start and the right part's end only |
| JsStrings.TrimOfNoSpace | src/utils/cognitoGroups.ts:3 | trimming a string without white space leaves it unchanged |
| JsStrings.ToUpper | src/utils/cognitoGroups.ts:6 | `toUpperCase()` maps every character, keeping the length |
| JsStrings.ToLower | src/utils/cloudflare-stream-uploader.ts:596 | `toLowerCase()` maps every character, keeping the length |
| JsStrings.NatToString | src/utils/otp.ts:6 | `toString()` of a non-negative integer: decimal digits without a leading zero |
| JsStrings.NatToStringValue | src/utils/otp.ts:6 | the digits `toString()` writes have exactly the number's value |
| JsStrings.NatToStringInjective | src/utils/otp.ts:6 | distinct numbers render to distinct strings |
| JsStrings.IntToString | src/services/courseVideoSyncService.ts:51 | `toString()` of any integer starts with '-' exactly for negative numbers |
| JsStrings.PadStart | src/utils/otp.ts:6 | `padStart`: the input ends the result, preceded only by the fill character, up to the width |
| JsStrings.DigitPrefix | src/services/userDeviceService.ts:20 | the longest run of decimal digits at the start of the text |
| JsStrings.ParseIntOfIntToString | src/services/userDeviceService.ts:20 | `parseInt(n.toString(), 10)` gives back `n` |
| JsStrings.ParseIntOfDigits | src/services/userDeviceService.ts:20 | a string of digits parses to its decimal value |
| JsStrings.ReplaceRuns | src/utils/cognitoGroups.ts:4-5 | `replace(/P+/g, c)`: every character of the result is the replacement or a kept input character outside the class; a non-empty input gives a non-empty result |
| JsStrings.ReplaceRunsKeepsOthers | src/utils/cognitoGroups.ts:4-5 | replacing runs keeps, in order, every character that is neither in the class nor the replacement character |
| JsStrings.DropRunSplit | src/utils/cognitoGroups.ts:4-5 | a leading run ends at the first character outside the class; the rest of the string follows unchanged |
| JsStrings.ReplaceRunsSplit | src/utils/cognitoGroups.ts:4-5 | a character outside the class is kept in place, and the text before and after it is replaced independently |
| JsStrings.ReplaceRunsOfRun | src/utils/cognitoGroups.ts:4-5 | a whole non-empty run of the class, however long, becomes exactly one replacement character |
| JsStrings.ReplaceRunsNoMatch | src/utils/cognitoGroups.ts:4-5 | a string with no run to replace is left unchanged |
| JsStrings.ReplaceRunsNoDoubled | src/utils/cloudflare-stream-uploader.ts:599 | when the replacement belongs to the class, it is never followed by another member of the class |
| JsStrings.ReplaceRunsOfSingles | src/utils/cloudflare-stream-uploader.ts:599 | a string whose class members are already single replacements is left unchanged |
| JsStrings.DropRun | src/utils/cloudflare-stream-uploader.ts:600 | drops exactly the leading run of class members |
| JsStrings.DropRunEnd | src/utils/cloudflare-stream-uploader.ts:600 | drops exactly the trailing run of class members |
| JsStrings.KeepOnly | src/utils/cloudflare-stream-uploader.ts:598 | `replace(/[^P]/g, '')`: keeps only class members, all of them when every character is one |
| CognitoGroups.NormalizeGroupName | src/utils/cognitoGroups.ts:1-7 | the normalised name has no white space, no hyphen and no lower-case letter, is never longer than the input, and is non-empty for a non-blank group |
| CognitoGroups.Underscored | src/utils/cognitoGroups.ts:4-5 | after both replacements no white space and no hyphen remains; the result is never longer than the input and is non-empty for a non-empty input |
| CognitoGroups.UnderscoredSplit | src/utils/cognitoGroups.ts:4-5 | a character that is neither white space nor a hyphen ('_' included) is kept in place, and each side is replaced on its own |
| CognitoGroups.UnderscoredSpaceRun | src/utils/cognitoGroups.ts:4 | a white-space run of any length becomes exactly one '_' |
| CognitoGroups.UnderscoredHyphenRun | src/utils/cognitoGroups.ts:5 | a hyphen run of any length becomes exactly one '_' |
| CognitoGroups.NormalizeSplit | src/utils/cognitoGroups.ts:1-7 | around a character that is neither white space nor a hyphen, normalisation trims only the outer ends, replaces each side's runs independently and upper-cases the character in place |
| CognitoGroups.NormalizeIdempotent | src/utils/cognitoGroups.ts:1-7 | normalising an already normalised name leaves it unchanged |
| CognitoGroups.NonBlankStrings | src/utils/cognitoGroups.ts:18-22 | the array filter keeps only non-blank string elements of the claim, each taken from the array |
| CognitoGroups.NonBlankStringsAppend | src/utils/cognitoGroups.ts:18-22 | the filter distributes over concatenation, so kept groups stay in array order |
| CognitoGroups.ReadCognitoGroups | src/utils/cognitoGroups.ts:9-29 | a missing or falsy claim gives no groups; an array gives its non-blank strings; a string gives itself unless blank; any other value gives none; no returned group is blank |
| CognitoGroups.Dedupe | src/utils/cognitoGroups.ts:36-38 | `Array.from(new Set(xs))`: no duplicates, the same members as the input, in order of first occurrence |
| CognitoGroups.NormalizeAllMembers | src/utils/cognitoGroups.ts:37 | the mapped list holds exactly the normalised names of the read groups, all non-empty |
| CognitoGroups.GetNormalizedCognitoGroups | src/utils/cognitoGroups.ts:31-39 | the result is duplicate-free, has no empty name, is no longer than the read list, and holds exactly the normalised names of the groups the payload carries |
| Otp.GenerateOtp | src/utils/otp.ts:5-7 | a code is six decimal digits whose value is exactly the random draw |
| Otp.GenerateOtpInjective | src/utils/otp.ts:5-7 | different draws give different codes |
| Otp.CreateOtpData | src/utils/otp.ts:9-23 | a new record has a six-digit code of the draw, expires `expiryMinutes` minutes after `now`, was sent at `now`, has zero attempts, is unverified and carries its type |
| Otp.IsOtpExpired | src/utils/otp.ts:76-87 | a record is live exactly when it exists, its expiry reads as a date and `now` is not past it |
| Otp.ValidateOtp | src/utils/otp.ts:25-60 | each refusal reason holds exactly when all earlier checks pass and its own fails, in the order missing, already used, five or more attempts, expired, wrong code |
| Otp.ValidateOtpAcceptsIff | src/utils/otp.ts:25-60 | a code is accepted iff the record exists, is unused, has fewer than five attempts, is unexpired and holds that code |
| Otp.FreshOtpLifecycle | src/utils/otp.ts:9-60 | a freshly created record accepts its own code up to its deadline, calls any other code a mismatch there, and reports expiry after it |
| Otp.CanResendOtp | src/utils/otp.ts:62-74 | without a readable last-send time a resend is always allowed |
| Otp.CanResendWholeMinutes | src/utils/otp.ts:66-73 | for whole-minute cooldowns the check is `now - lastSent >= cooldown * 60000` |
| Otp.CanResendMonotone | src/utils/otp.ts:62-74 | once a resend is allowed, it stays allowed at every later time |
| UserDeviceService.ResolveMaxDevices | src/services/userDeviceService.ts:12-26 | the cap is always at least 1: a missing or empty setting, an unparseable one or a non-positive one gives 5, a positive integer gives itself |
| UserDeviceService.ResolveMaxDevicesOfDecimal | src/services/userDeviceService.ts:14-26 | a positive integer written in decimal is read back as the cap |
| UserDeviceService.Truncate | src/services/userDeviceService.ts:28-34 | no value for a missing or empty string; otherwise a prefix of the input no longer than the limit, the whole input when it fits |
| UserDeviceService.DeriveDeviceId | src/services/userDeviceService.ts:38-61 | the id has 1 to 190 characters; a non-blank supplied id gives its trimmed prefix; otherwise the SHA-256 hex of `userAgent|ip` with the agent defaulting to "unknown" |
| UserDeviceService.IndexOfDevice | src/services/userDeviceService.ts:124 | `findIndex`: none iff no entry has the id; otherwise the first entry with it |
| UserDeviceService.ActiveCount | src/services/userDeviceService.ts:89 | the number of active entries never exceeds the list's length |
| UserDeviceService.Admission | src/services/userDeviceService.ts:82-96 | a listed device is returned whatever its state; an unlisted one is refused with the cap iff the active count has reached the cap, and otherwise nothing is returned |
| UserDeviceService.AfterLogin | src/services/userDeviceService.ts:121-150 | an unknown device is appended active at `now` with the truncated name, user agent and IP given; a known one is refreshed in place: active, seen now, user agent and IP overwritten with the truncated values given, the name replaced when one is given and otherwise kept (truncated). Every other entry stays |
| UserDeviceService.AfterLoginIndex | src/services/userDeviceService.ts:128-148 | after a login the device's first entry is at its old position, or last when it was new |
| UserDeviceService.AfterLogout | src/services/userDeviceService.ts:172-184 | an unknown device changes nothing; a known one becomes inactive, seen now, and every other entry stays |
| UserDeviceService.WithoutDevice | src/services/userDeviceService.ts:235-242 | exactly the entries with other ids remain; the length is unchanged iff the device was not listed |
| UserDeviceService.WithoutDeviceAppend | src/services/userDeviceService.ts:236 | removal distributes over concatenation, so the remaining entries keep their order |
| UserDeviceService.AllDeactivated | src/services/userDeviceService.ts:258-272 | every active entry is switched off and stamped with `now`; inactive entries are untouched |
| UserDeviceService.ActiveCountUpdate | src/services/userDeviceService.ts:139-147 | replacing one entry changes the active count only by that entry's change |
| UserDeviceService.AdmittedNewDeviceRespectsCap | src/services/userDeviceService.ts:85-96 | a device admitted without being listed brings the active count to at most the cap after its login |
| UserDeviceService.AfterLoginActiveCount | src/services/userDeviceService.ts:121-150 | a login raises the active count by one unless the device was already active |
| UserDeviceService.ReactivationCanExceedCap | src/services/userDeviceService.ts:85-87 | a listed inactive device is admitted regardless of the count, so six devices can end up active under a cap of five |
| UserDeviceService.AfterLoginKeepsIdsUnique | src/services/userDeviceService.ts:124-148 | logging in never creates a second entry for a device id |
| UserDeviceService.LoginAgainAddsNothing | src/services/userDeviceService.ts:124-148 | a second login from the same device, with or without a logout between, adds no entry |
| UserDeviceService.AfterLogoutActiveCount | src/services/userDeviceService.ts:172-184 | logout keeps ids unique and lowers the active count by one exactly when the device was active |
| UserDeviceService.AllDeactivatedNoneActive | src/services/userDeviceService.ts:258-272 | after deactivating all devices none is active and every entry keeps its id |
| UserDeviceService.WithoutDeviceCount | src/services/userDeviceService.ts:236 | removal drops exactly the entries with the id, no more |
| UserDeviceService.EnsureDeviceCanLogin | src/services/userDeviceService.ts:64-97 | a missing user gives nothing; otherwise the result is the admission decision under the configured cap, and nothing is changed |
| UserDeviceService.RecordSuccessfulLogin | src/services/userDeviceService.ts:99-154 | a missing user is the error "User not found"; otherwise the list becomes the after-login list and the returned device is the list's first entry for the device id, active, seen now |
| UserDeviceService.RecordLogout | src/services/userDeviceService.ts:156-188 | a device is returned iff the user exists and lists it, inactive and seen now; the list becomes the after-logout list |
| UserDeviceService.GetActiveDeviceCount | src/services/userDeviceService.ts:190-203 | 0 for a missing user, otherwise the number of active entries |
| UserDeviceService.ListUserDevices | src/services/userDeviceService.ts:205-217 | the stored list, or an empty one for a missing user |
| UserDeviceService.RemoveDevice | src/services/userDeviceService.ts:219-246 | true iff the user exists and lists the device; the list then holds only the entries with other ids |
| UserDeviceService.DeactivateAllDevices | src/services/userDeviceService.ts:248-279 | returns how many entries were active, and the list becomes the all-deactivated list |
| Base64.RemoveChar | src/services/cloudFlareStreamTokenService.ts:202 | `replace(/=/g, '')`: the character no longer occurs and nothing is added |
| Base64.ReplaceChar | src/services/cloudFlareStreamTokenService.ts:203-204 | a global one-character replacement changes exactly the occurrences of that character |
| Base64.ArrayBufferToBase64Url | src/services/cloudFlareStreamTokenService.ts:199-205 | the result has no '=', '+' or '/', is the unpadded base64url encoding of section 5 of RFC 4648, and has ceil(4n/3) characters for n bytes |
| Base64.StripAndRemapIsUrlBase64 | src/services/cloudFlareStreamTokenService.ts:199-205 | stripping the padding of the standard encoding and remapping '+' and '/' gives exactly the section 5 encoding |
| Base64.StandardBase64Length | src/services/cloudFlareStreamTokenService.ts:201 | `toString('base64')` has four characters for every started group of three bytes |
| Base64.UrlDecodeEncode | src/services/cloudFlareStreamTokenService.ts:199-211 | decoding the base64url text of any byte string gives back exactly those bytes |
| StreamToken.CreateTokenService | src/services/cloudFlareStreamTokenService.ts:23-31 | the service exists iff both credentials are set and non-empty; otherwise the credentials error |
| StreamToken.FindActive | src/services/cloudFlareStreamTokenService.ts:38-45 | the first ACTIVE enrollment of the user in the course, none iff there is no such row |
| StreamToken.VerifyAccess | src/services/cloudFlareStreamTokenService.ts:36-66 | a database error denies access; access is granted only when an ACTIVE, unexpired enrollment for the pair exists |
| StreamToken.VerifyAccessIff | src/services/cloudFlareStreamTokenService.ts:36-66 | with one enrollment per user and course, access is granted iff an ACTIVE enrollment for the pair exists and has not expired |
| StreamToken.ExpiryOf | src/services/cloudFlareStreamTokenService.ts:92 | `exp` lies after `now` and no later than the lifetime (two hours by default) after it |
| StreamToken.ObjectToBase64Url | src/services/cloudFlareStreamTokenService.ts:207-211 | the text decodes back to the object's JSON bytes and contains no '.' |
| StreamToken.GenerateSignedToken | src/services/cloudFlareStreamTokenService.ts:71-133 | no access gives the access error; a token is issued iff access is granted and signing succeeds; its three '.'-separated segments are the encoded header, claims and signature |
| StreamToken.SegmentsOfThree | src/services/cloudFlareStreamTokenService.ts:107-129 | three dot-free parts joined with '.' split back into exactly those parts |
| StreamToken.TokenSegmentsDecode | src/services/cloudFlareStreamTokenService.ts:95-129 | an issued token has three segments decoding to the RS256 header with the key id, the claims (video uid, key id, expiry) and the signature over the signing input |
| StreamToken.TokenMapOf | src/services/cloudFlareStreamTokenService.ts:156-176 | every key of the token map is the id of a lesson with a video uid that is READY, and there are no more keys than lessons |
| StreamToken.GenerateCourseVideoTokens | src/services/cloudFlareStreamTokenService.ts:139-177 | no access gives the access error, a missing course "Course not found", otherwise the map built by visiting the lessons in order and skipping failed tokens |
| StreamToken.TokenMapKeysEligible | src/services/cloudFlareStreamTokenService.ts:159-173 | a lesson that got a token has a video uid and the READY status |
| StreamToken.TokenMapComplete | src/services/cloudFlareStreamTokenService.ts:159-173 | when signing never fails, every eligible lesson gets a token |
| StreamUploader.SkipDashes | src/utils/cloudflare-stream-uploader.ts:600 | the end of the leading run of '-' from a position |
| StreamUploader.SkipDashesBack | src/utils/cloudflare-stream-uploader.ts:600 | the start of the trailing run of '-' before a position |
| StreamUploader.Slugify | src/utils/cloudflare-stream-uploader.ts:594-601 | every slug is made of `[a-z0-9-]`, neither starts nor ends with '-' and never holds "--" |
| StreamUploader.SlugBodyShape | src/utils/cloudflare-stream-uploader.ts:598-599 | after filtering and collapsing separator runs, only slug characters remain and no '-' follows another |
| StreamUploader.StripDashesIsSlug | src/utils/cloudflare-stream-uploader.ts:600 | stripping the dashes at both ends of such a body leaves a slug |
| StreamUploader.SlugifyOfSlug | src/utils/cloudflare-stream-uploader.ts:594-601 | a slug is its own slug |
| StreamUploader.SlugifyIdempotent | src/utils/cloudflare-stream-uploader.ts:594-601 | slugifying twice is slugifying once |
| StreamUploader.Basename | src/utils/cloudflare-stream-uploader.ts:137 | `path.basename` contains no '/' |
| StreamUploader.LastSegment | src/utils/cloudflare-stream-uploader.ts:137 | the last segment is a '/'-free suffix of the path, no longer than it |
| StreamUploader.MetadataNamesAndSlugs | src/utils/cloudflare-stream-uploader.ts:106-139 | the metadata names the lesson inside its chapter folder, which starts with the course title and "/Chapter-", and carries well-formed slugs of the three titles |
| StreamUploader.MetadataNumbersReadBack | src/utils/cloudflare-stream-uploader.ts:122-138 | the chapter index, lesson index and file size strings parse back to the numbers they came from |
| StreamUploader.ChooseUploadPath | src/utils/cloudflare-stream-uploader.ts:143-147 | the resumable upload is used exactly for files above 200 MiB |
| StreamUploader.PollFromOutcome | src/utils/cloudflare-stream-uploader.ts:267-290 | polling succeeds only with a 'ready' read preceded by reads still processing; when every allowed read returned a video, a timeout means each of them was still processing |
| StreamUploader.PollReadsOnlyAllowedAttempts | src/utils/cloudflare-stream-uploader.ts:272 | answers after `maxAttempts` reads cannot change the outcome |
| StreamUploader.WaitForVideoReady | src/utils/cloudflare-stream-uploader.ts:267-290 | the loop's result is the polling outcome: first 'ready' wins, 'error' fails with its reason, a failed read propagates, else "Video processing timeout" |
| StreamUploader.UploadLargeVideo | src/utils/cloudflare-stream-uploader.ts:202-262 | a failed session creation gives its error; otherwise a failed transfer gives its error, else the result of polling the new video |
| StreamUploader.UploadVideoWithFolders | src/utils/cloudflare-stream-uploader.ts:79-154 | a missing file is refused; files up to 200 MiB go through the basic upload, larger ones through the session, transfer and polling path, with the folder metadata and signed URLs by default |
| StreamUploader.CourseVideos | src/utils/cloudflare-stream-uploader.ts:410-418 | exactly the listed videos whose metadata names the course |
| StreamUploader.CountState | src/utils/cloudflare-stream-uploader.ts:576-587 | a tally never exceeds the number of videos |
| StreamUploader.StateTalliesPartition | src/utils/cloudflare-stream-uploader.ts:576-587 | the ready, processing, error and other tallies add up to the number of videos |
| StreamUploader.GetCourseStatistics | src/utils/cloudflare-stream-uploader.ts:553-591 | the counters built by the loop are the course's video count, the per-state tallies and the summed sizes and durations, and the three tallies never exceed the count |
| StreamUploader.ChapterUploads | src/utils/cloudflare-stream-uploader.ts:345-358 | one upload per lesson of the chapter |
| StreamUploader.CourseUploadsLength | src/utils/cloudflare-stream-uploader.ts:337-358 | the course's uploads are exactly as many as its lessons |
| StreamUploader.UploadResults | src/utils/cloudflare-stream-uploader.ts:345-373 | every key of the result map is the lesson id of a successful upload, and there are no more keys than uploads |
| StreamUploader.UploadResultsSnoc | src/utils/cloudflare-stream-uploader.ts:345-373 | one more upload adds its result under its lesson id when it succeeds and nothing otherwise |
| StreamUploader.UploadResultsComplete | src/utils/cloudflare-stream-uploader.ts:345-373 | every lesson whose upload succeeds has an entry |
| StreamUploader.UploadResultsLastWins | src/utils/cloudflare-stream-uploader.ts:345-373 | an entry holds the result of the last successful upload under its lesson id |
| StreamUploader.UploadCourseVideos | src/utils/cloudflare-stream-uploader.ts:315-383 | the nested loops build the result map of all lesson uploads, chapter by chapter, with no more entries than lessons |
| StreamController.GetVideoToken | src/controllers/cloudFlareStreamController.ts:19-137 | the request is refused in this order: no user 401, unknown course 404, unknown lesson 404, no video uid 404, a status other than READY 400 with the lowered status (500 when the status is absent); a token is granted only for a READY lesson with a uid, an entitled user and working settings, expires in 7200 s and is the service's signed token for that uid with a 2-hour life; the refusal carries `needsPurchase` exactly when it is the 403 for an access-denied token |
| StreamController.GrantedIffEntitled | src/controllers/cloudFlareStreamController.ts:86-129 | past the gates, with settings present and a signer that does not fail, the token is granted exactly when the user is entitled, and refused with 403 and `needsPurchase` otherwise |
| StreamController.WatchedLesson | src/controllers/cloudFlareStreamController.ts:316-328 | a report adds its watch time (absent = 0), counts one more view, overwrites the last position (absent = 0), keeps the old progress when the new one is 0 or absent, and completes the lesson, with its date and COMPLETED status, only when it was not completed and the progress is at least 90 |
| StreamController.IndexOfLesson | src/controllers/cloudFlareStreamController.ts:296-298 | `find` by courseDataId: none exactly when no entry has the lesson id, else the first entry that has it |
| StreamController.ProgressAfter | src/controllers/cloudFlareStreamController.ts:296-328 | an unseen lesson gets one new entry, started IN_PROGRESS with zero counters and then updated by the report, at the end of the list; otherwise only the first entry for the lesson is updated and the length is kept |
| StreamController.CompletedCount | src/controllers/cloudFlareStreamController.ts:327 | the number of completed entries never exceeds the number of entries |
| StreamController.TalliesAppend | src/controllers/cloudFlareStreamController.ts:312 | appending an entry adds its completion and its watch time to the tallies |
| StreamController.TalliesUpdate | src/controllers/cloudFlareStreamController.ts:316-328 | replacing one entry moves the tallies by the difference between the new and old entry |
| StreamController.ProgressAfterTallies | src/controllers/cloudFlareStreamController.ts:296-335 | a report keeps one entry per lesson, raises the completed count by one exactly when it newly completes the lesson, and raises the watch total by its watch time |
| StreamController.TalliedAfterReport | src/controllers/cloudFlareStreamController.ts:316-335 | when the enrollment's completedLessons and totalWatchTimeSec agree with its progress list, they still agree after the counters move as the controller moves them |
| StreamController.CompletionCountedOnce | src/controllers/cloudFlareStreamController.ts:323-328 | after a completing report, no later report on the same lesson completes it again |
| StreamController.TrackVideoProgress | src/controllers/cloudFlareStreamController.ts:268-364 | no user gives 401 and no enrollment 403, both changing nothing; otherwise the progress list becomes the updated list, completedLessons rises by one exactly on a first completion, the watch total rises by the report's time, the enrollment completes once completedLessons reaches totalLessons (or 1 when that is 0) and only when it was not completed before, the reply's lesson is the list's first entry for the lesson id, and counters that agreed with the list still agree |
| StreamController.ProgressAfterIndex | src/controllers/cloudFlareStreamController.ts:296-313 | after a report the lesson's first entry is at its old position, or last when it was new |
| StreamController.RecordProgress | src/controllers/cloudFlareStreamController.ts:295-341 | on a found enrollment the progress list becomes the updated list, completedLessons rises by one exactly on a first completion, the watch total rises by the report's time, totalLessons and expiresAt stay, the enrollment completes once completedLessons reaches totalLessons (or 1 when that is 0) and only if not completed before, the returned entry is the list's first entry for the lesson id, and counters that agreed with the list still agree |
| StreamController.UpdateLessonEntry | src/controllers/cloudFlareStreamController.ts:295-328 | the lesson list after the report is the reference update (the lesson's entry found by id or a fresh one appended, then watched), the returned entry is that list's first entry for the lesson id, and the completion flag is set exactly on a first completion |
| CourseVideoSync.MapVideoStatus | src/services/courseVideoSyncService.ts:250-262 | READY exactly for 'ready', FAILED exactly for 'error', UPLOADING for every other or absent state |
| CourseVideoSync.DashIndex | src/services/courseVideoSyncService.ts:51 | the position of the first '-' lies within the string |
| CourseVideoSync.SplitAtDash | src/services/courseVideoSyncService.ts:51 | two digit strings joined by '-' to a tail split back into the same parts |
| CourseVideoSync.LessonIdTail | src/services/courseVideoSyncService.ts:51 | a lesson id is "lesson-" followed by the chapter and lesson numbers joined by '-' |
| CourseVideoSync.LessonIdInjective | src/services/courseVideoSyncService.ts:51 | distinct chapter/lesson positions get distinct lesson ids |
| CourseVideoSync.ChapterSlots | src/services/courseVideoSyncService.ts:49 | the inner loop visits lessons 0 to count-1 of its chapter, in order |
| CourseVideoSync.SlotsUpToShape | src/services/courseVideoSyncService.ts:43-49 | the nested loops visit one valid position per lesson, strictly in chapter-then-lesson order, covering every lesson of the chapters visited |
| CourseVideoSync.SlotsUpToPrefix | src/services/courseVideoSyncService.ts:43-49 | the positions of fewer outer rounds come first |
| CourseVideoSync.Uploaded | src/services/courseVideoSyncService.ts:57-68 | one uploader result per visited position |
| CourseVideoSync.UploadedSnoc | src/services/courseVideoSyncService.ts:57-68 | one more position adds its own uploader result |
| CourseVideoSync.UploadedPrefix | src/services/courseVideoSyncService.ts:57-68 | the results of a prefix of the positions are the prefix of the results |
| CourseVideoSync.SyncSucceedsStep | src/services/courseVideoSyncService.ts:98-110 | one more position succeeds exactly when the list so far did and its upload does |
| CourseVideoSync.SyncSucceedsIff | src/services/courseVideoSyncService.ts:55-110 | the sync succeeds exactly when every upload succeeds |
| CourseVideoSync.SyncEntriesAt | src/services/courseVideoSyncService.ts:71-99 | a successful sync holds one entry per lesson, in visiting order, with the lesson id, its chapter's title and index, the uploaded uid and mapped status, links defaulting to [], no questions, and the running lesson index |
| CourseVideoSync.SyncFirstFailure | src/services/courseVideoSyncService.ts:107-110 | a failed sync reports the error of the first failed upload, every earlier one having succeeded |
| CourseVideoSync.SyncFailureFinal | src/services/courseVideoSyncService.ts:107-110 | after a failed upload the remaining positions change nothing |
| CourseVideoSync.SyncedIdsUnique | src/services/courseVideoSyncService.ts:51-72 | the lessons of a successful full sync all have different ids |
| CourseVideoSync.SlotsValid | src/services/courseVideoSyncService.ts:43-49 | every visited position names an existing lesson |
| CourseVideoSync.ChapterSlotsSnoc | src/services/courseVideoSyncService.ts:49 | one more inner round appends one position |
| CourseVideoSync.ChapterVisitValid | src/services/courseVideoSyncService.ts:49 | the positions of a chapter visited so far are valid |
| CourseVideoSync.SyncStep | src/services/courseVideoSyncService.ts:57-99 | the next upload either fails the sync with its error or appends its entry numbered after the entries so far |
| CourseVideoSync.SyncWithFailureFinal | src/services/courseVideoSyncService.ts:107-110 | a failed upload decides the outcome of every longer run |
| CourseVideoSync.ChapterFailureFinal | src/services/courseVideoSyncService.ts:107-110 | a failed upload decides the outcome of the whole chapter |
| CourseVideoSync.UploadChapterLessons | src/services/courseVideoSyncService.ts:49-111 | the inner loop's result is the sync of the positions visited so far plus every lesson of the chapter |
| CourseVideoSync.UploadAllChapters | src/services/courseVideoSyncService.ts:40-112 | the nested loops' result is the sync of every lesson of the request |
| CourseVideoSync.UploadAndSyncCourseVideos | src/services/courseVideoSyncService.ts:25-121 | a missing course fails with "Course not found"; otherwise only the lesson list may change: it becomes the synced list when every upload succeeds, and stays as it was, with the first upload error reported, otherwise |
| CourseVideoSync.ChapterMembersIn | src/services/courseVideoSyncService.ts:146-148 | the lessons of a chapter are lessons of the course with that section index, no more of them than the course has |
| CourseVideoSync.ChapterMembersNonEmpty | src/services/courseVideoSyncService.ts:146-152 | one lesson with the section index anywhere makes the chapter non-empty |
| CourseVideoSync.ChapterMembersGrow | src/services/courseVideoSyncService.ts:146-148 | a chapter only gains lessons as the list grows |
| CourseVideoSync.AddedLesson | src/services/courseVideoSyncService.ts:146-193 | an empty chapter fails with "Chapter not found"; a chapter whose first lesson has no title fails with the TypeError `slugify` raises on it, before any upload; otherwise the upload decides: its error is reported, or the new lesson takes the chapter's (defined) title from its first lesson, the next lesson number in the chapter for its id, the next position in the course, the uploaded uid, and no questions |
| CourseVideoSync.AddVideoToChapter | src/services/courseVideoSyncService.ts:126-200 | a missing course fails with "Course not found"; otherwise the new lesson is appended when it could be built and nothing else changes, and on failure nothing changes |
| CourseVideoSync.AddedJoinsChapter | src/services/courseVideoSyncService.ts:196 | the appended lesson joins the end of its chapter and leaves every other chapter as it was |
| CourseVideoSync.WellNumberedIdsUnique | src/services/courseVideoSyncService.ts:51 | when every lesson's id names its chapter and its place in it, no two lessons share an id |
| CourseVideoSync.AddKeepsWellNumbered | src/services/courseVideoSyncService.ts:154-196 | adding a video keeps the lesson list well numbered, so ids stay unique |
| CourseVideoSync.GroupedBy | src/services/courseVideoSyncService.ts:245 | one chapter per key, in the order of the keys |
| CourseVideoSync.FirstSeenKeysSpec | src/services/courseVideoSyncService.ts:215-226 | each chapter key is inserted once, and the keys are exactly those of the lessons (`sectionIndex`, or 0) |
| CourseVideoSync.UnseenKeyEmpty | src/services/courseVideoSyncService.ts:217-238 | a key no lesson has collects no lessons |
| CourseVideoSync.ChapterOfSnoc | src/services/courseVideoSyncService.ts:220-237 | one more lesson creates its chapter, titled by its section, or joins the end of it, leaving the other chapters unchanged |
| CourseVideoSync.InsertByIndex | src/services/courseVideoSyncService.ts:245 | insertion keeps the same chapters plus the new one |
| CourseVideoSync.SortByIndex | src/services/courseVideoSyncService.ts:245 | the sort is a permutation of the chapters |
| CourseVideoSync.InsertKeepsOrder | src/services/courseVideoSyncService.ts:245 | inserting a chapter with a new index into a strictly ordered list keeps it strictly ordered |
| CourseVideoSync.SortByIndexSorted | src/services/courseVideoSyncService.ts:245 | chapters with distinct indexes come out strictly increasing by index |
| CourseVideoSync.InsertKeepsTotal | src/services/courseVideoSyncService.ts:245 | insertion adds the new chapter's lessons to the total |
| CourseVideoSync.SortKeepsTotal | src/services/courseVideoSyncService.ts:245 | sorting keeps the total number of lessons |
| CourseVideoSync.GroupedTotal | src/services/courseVideoSyncService.ts:215-238 | the grouped chapters hold as many lessons as the keys collect |
| CourseVideoSync.KeyTotalAppend | src/services/courseVideoSyncService.ts:215-238 | one more key adds its lessons to the total |
| CourseVideoSync.KeyTotalSnoc | src/services/courseVideoSyncService.ts:215-238 | one more lesson adds one to the total exactly when its key is among the keys |
| CourseVideoSync.KeyTotalIsLessonCount | src/services/courseVideoSyncService.ts:215-238 | over the keys seen, every lesson is counted once |
| CourseVideoSync.SortByIndexMembers | src/services/courseVideoSyncService.ts:245 | sorting keeps exactly the chapters it was given |
| CourseVideoSync.StructureSorted | src/services/courseVideoSyncService.ts:243-245 | the chapters are strictly increasing by index and totalChapters is their number |
| CourseVideoSync.StructureChapterIndexes | src/services/courseVideoSyncService.ts:215-245 | the chapter indexes are exactly the lessons' keys |
| CourseVideoSync.StructureChapterLessons | src/services/courseVideoSyncService.ts:228-237 | each chapter holds exactly the lessons with its key, in course order |
| CourseVideoSync.StructureCoversLessons | src/services/courseVideoSyncService.ts:244 | together the chapters hold every lesson, and totalLessons is the course's lesson count |
| CourseVideoSync.GroupStep | src/services/courseVideoSyncService.ts:217-238 | one round of the loop keeps the map equal to the grouping of the lessons seen, with keys in first-seen order |
| CourseVideoSync.ValuesInOrder | src/services/courseVideoSyncService.ts:245 | the map's values in key-insertion order |
| CourseVideoSync.GroupingValues | src/services/courseVideoSyncService.ts:245 | the values of the loop's map, in insertion order, are the chapters grouped by first-seen key |
| CourseVideoSync.GetCourseStructure | src/services/courseVideoSyncService.ts:205-247 | a missing course fails with "Course not found"; otherwise the loop's result is the course's structure, whose properties are the lemmas above |
| CourseController.CeilDiv | src/controllers/courseController.ts:164 | `Math.ceil(a / b)`: the least multiple bound for a positive divisor, and the matching bound for a negative one |
| CourseController.PaginationOf | src/controllers/courseController.ts:101-103 | page and limit default to 1 and 10; totalPages is absent exactly for a zero limit, and otherwise the least page count whose pages hold every matching course |
| CourseController.PageOf | src/controllers/courseController.ts:114-115 | skip = (page-1)·limit and take = limit: the page holds up to `limit` rows, the ones right after the skipped rows, and none when the skip passes the end |
| CourseController.PagesUpToPrefix | src/controllers/courseController.ts:114-115 | the first n pages read in order are the first n·limit rows |
| CourseController.PagesCoverRows | src/controllers/courseController.ts:114-115 | pages 1 to totalPages read in order are exactly the matching rows, none lost or repeated |
| CourseController.PageNonEmptyIff | src/controllers/courseController.ts:114-115 | a page holds rows exactly when its number is at most totalPages |
| CourseController.NextPageAdjacent | src/controllers/courseController.ts:114 | the next page starts where this one's window ends |
| CourseController.SortField | src/controllers/courseController.ts:151-152 | the sort column is always whitelisted: the requested one when allowed, createdAt otherwise |
| CourseController.SortDirection | src/controllers/courseController.ts:153 | ascending exactly for "ASC"; descending for anything else or nothing |
| CourseController.GetAllCourses | src/controllers/courseController.ts:98-166 | the reply's pagination is the pagination of the match count, its data the requested page of the matching rows, non-empty exactly when the page is at most totalPages |
| CourseController.CreateCourse | src/controllers/courseController.ts:12-96 | a missing name, description, categories, tags, level or demoUrl gives 400 before anything else; an unknown teacher gives 404; otherwise the course takes the request's fields, status DRAFT by default, no reviews, empty lists by default, a teacher exactly when one was given, and a publication time, `now`, exactly when PUBLISHED |
| CourseController.CreatedIsDated | src/controllers/courseController.ts:77-78 | every created course that is PUBLISHED has a publication time |
| CourseController.PublishedAtAfter | src/controllers/courseController.ts:248-252 | the publication time is stamped with `now` on a move into PUBLISHED, and otherwise only a given value replaces it |
| CourseController.UpdateKeepsDated | src/controllers/courseController.ts:248-252 | an update keeps a PUBLISHED course dated |
| CourseController.UpdateCourse | src/controllers/courseController.ts:209-268 | a missing course gives 404 and an unknown teacher 404 with nothing changed; otherwise the given fields overwrite the course's, the publication time follows PublishedAtAfter, and a dated published course stays dated |
| CourseController.DeleteCourse | src/controllers/courseController.ts:270-298 | a missing course gives 404; otherwise the status becomes ARCHIVED and nothing else changes |
| CourseController.AddCourseContent | src/controllers/courseController.ts:328-371 | a missing course gives 404; otherwise exactly one entry is appended at the end, with the fresh id, both times `now` and questions and links defaulting to [], and nothing else changes |
| CourseController.AddKeepsIdsUnique | src/controllers/courseController.ts:344-355 | appending an entry with a fresh id keeps the lesson ids unique |
| CourseController.AddedContentFound | src/controllers/courseController.ts:387 | the appended entry is the one a later lookup by its id finds |
| CourseController.MergeContent | src/controllers/courseController.ts:396-400 | the merge always refreshes updatedAt, and fields the patch leaves out keep their values |
| CourseController.MergeIdempotent | src/controllers/courseController.ts:396-400 | merging the same patch twice equals merging it once at the later time |
| CourseController.MergeEmptyPatch | src/controllers/courseController.ts:396-400 | an empty patch only refreshes updatedAt |
| CourseController.UpdatedContent | src/controllers/courseController.ts:387-400 | 404 exactly when no entry has the id; otherwise the first entry with it is merged, and the length and every other entry are unchanged |
| CourseController.UpdateFindsSameEntry | src/controllers/courseController.ts:387-400 | an update that keeps the id leaves the entry where the next lookup by that id finds it |
| CourseController.UpdateIdempotent | src/controllers/courseController.ts:387-400 | repeating an update with the same patch equals doing it once, later |
| CourseController.UpdateCourseContent | src/controllers/courseController.ts:373-417 | a missing course gives 404; otherwise the lesson list becomes the updated list, or stays as it was with the 404 when no entry has the id, and nothing else changes |
| CourseController.IndexOfReview | src/controllers/courseController.ts:533 | `findIndex` by id: none exactly when no review has the id, else the first review with it |
| CourseController.ReviewAdded | src/controllers/courseController.ts:470-497 | 400 exactly when the rating or comment is missing or falsy; otherwise one review, with the fresh id, the rating and comment, no replies and time `now`, is appended after the existing ones |
| CourseController.AddReview | src/controllers/courseController.ts:465-517 | the field check comes before the course lookup, so a bad request gives 400 even for a missing course; otherwise a missing course gives 404 and the reviews become the appended list, nothing else changing |
| CourseController.WithReply | src/controllers/courseController.ts:542-549 | the reply is appended after the review's replies and the review's update time becomes the reply's; the rest of the review is kept |
| CourseController.RepliedReviews | src/controllers/courseController.ts:533-549 | 404 exactly when no review has the id; otherwise one reply is appended to the first review with it, whose update time becomes `now`, and every other review is unchanged |
| CourseController.AddReviewReply | src/controllers/courseController.ts:519-566 | a missing course gives 404; otherwise the reviews become the replied list, or stay as they were with the 404, and nothing else changes |
| CourseController.ReplyTotalUpdate | src/controllers/courseController.ts:542 | replacing one review moves the reply total by the difference of the reply counts |
| CourseController.ReplyAddsOne | src/controllers/courseController.ts:533-549 | a reply adds exactly one reply to the course and no review |
| CourseController.GetCourseStats | src/controllers/courseController.ts:568-602 | a missing course gives 404, and only then; otherwise totalLessons and totalReviews are the lesson and review counts |
| CourseController.TotalsAppend | src/controllers/courseController.ts:586-587 | the question and video-length reductions add up over a concatenation |
| CourseController.StatsAfterAdd | src/controllers/courseController.ts:581-588 | adding content adds one lesson, its questions and its video length (missing counts 0) |
| CourseController.TotalsUpdate | src/controllers/courseController.ts:586-587 | replacing one entry moves the totals by the difference between the two entries |
| CourseController.StatsAfterUpdate | src/controllers/courseController.ts:581-588 | an update that leaves questions and video length out leaves the statistics unchanged |
| CourseController.StatsAfterReply | src/controllers/courseController.ts:581-588 | a reply changes no statistic |
| CourseModel.IndexOfId | src/controllers/courseController.ts:387 | `findIndex`/`find` by id: none exactly when no entry has the id, else the first entry with it |

## Left out

- HTTP and Express plumbing: response bodies beyond the status and message of each decision, routes, middleware and logging.
- Persistence: a TypeORM read is the loaded object (or `null`) and a save is the change to its fields. `findOne` filters in SQL are not modelled, nor are failures of the database other than the one `verifyAccess` turns into a denial.
- SHA-256, RSA-SHA256 signing, JWK-to-PEM conversion and `JSON.stringify` are function parameters; their own correctness is not modelled.
- The Cloudflare HTTP calls are function parameters (`getVideoDetails`, the basic and tus uploads, session creation). `listVideosByFolder`, `updateVideoMetadata`, `deleteVideo` and `updateSignedUrlsRequirement` are single HTTP calls with no logic of their own and are not modelled.
- `getAllVideos`: the cursor loop's termination depends on the server's replies. The model takes the full video list as given.
- `sleep` delays, the pause between polls and uploads, and console output are not modelled. The model is sequential, so the gap between `ensureDeviceCanLogin` and `recordSuccessfulLogin` is not modelled.
- `CloudflareStreamTokenService.updateLastAccessed` (src/services/cloudFlareStreamTokenService.ts:182-196) only writes a timestamp to the enrollment row and is not modelled; `getVideoToken` calls it after the token is made.
- `getVideoToken` builds the stream, HLS, DASH and thumbnail URLs from the token and `CF_CUSTOMER_CODE`. That string building is not modelled; the reply keeps the token, its lifetime and the video uid.
- Floating point is not modelled: the review rating average in `addReview` (src/controllers/courseController.ts:499-500), the enrollment's overall progress percentage (src/controllers/cloudFlareStreamController.ts:332-334) and the MB size formatting in the uploader.
- `getCourseStats` also reports `averageRating` and `totalPurchased`, which are stored columns and not modelled.
- `getAllCourses`: the status, category, level, price and search filters run in SQL. The model takes the matching rows as given, already filtered and ordered by the chosen column and direction.
- `GetAllCourses`: requires page ≥ 1 and limit ≥ 1. For other values the rows returned are the database's `skip`/`take` behaviour, which is not modelled. `PaginationOf` still covers every integer limit.
- Query parameters are integers in the model. `Number()` parsing of non-numeric text (NaN) is not modelled.
- `getCourseById`, `hardDeleteCourse` and `deleteCourseContent` are a lookup, a row delete and raw SQL. None is modelled.
- `UpdateCourse`: only the name, status, publication time, teacher, lessons and reviews columns are modelled. `Object.assign` copies the other columns in the same way. An explicit `null` in a request body is treated as an absent field.
- `UpdateCourseContent`: an explicit `null` in the patch is treated as an absent field.
- `AddCourseContent`: the `Array.isArray` guard that replaces a non-array `courseData` with `[]` is not modelled, because the lesson list is always a sequence here.
- Numbers that JavaScript holds as floating point are integers here: `watchTimeSec`, `lastPositionSec` and `progress` in a progress report (src/controllers/cloudFlareStreamController.ts:315-322), so a fractional progress such as 89.5 against the 90 threshold cannot be expressed. The same holds for the video duration and size totals (src/utils/cloudflare-stream-uploader.ts:573-574), `videoLength` (src/controllers/courseController.ts:587), review ratings and course prices.
- String lengths count Unicode scalar values, whereas JavaScript's `length` and `slice` count UTF-16 code units. `Truncate`, `DeriveDeviceId`'s 190-character cut (src/services/userDeviceService.ts:28-34, 49, 60) and the other length limits agree with the source only on text without characters outside the Basic Multilingual Plane.
- `AddReview`: the review's `user` object, stored beside `userId`, is not modelled.
- The `Course` entity definition is not part of this model. Its class mirrors the columns the controllers and services read and write.
- Lesson thumbnails, playback ids, HLS URLs and the stored Stream metadata object copied into a lesson entry are not modelled.
- Case mapping covers ASCII letters only. Non-ASCII letters keep their case in `toUpperCase`/`toLowerCase`, and there is no Unicode normalisation.
- `AddedLesson`: when the chapter's first lesson has no section title and the video file is also missing, the source reports "Video file not found", because that check runs before `slugify`. The model reports the TypeError in both cases. For a title stored as `null` rather than left undefined, the real TypeError message names `null`.
- `UploadLargeVideo`: a session request that the HTTP client rejects outright propagates the client's own error, without the "Failed to create upload session" prefix. The model's `createSession` failures stand only for a reply with `success: false`.
- OTP date fields that hold `Date` objects are assumed to be valid dates. A string date carries its parse result as given.
- `TrackVideoProgress`: the enrollment lookup by user and course is the `enrollment` argument. `progress >= 90` on a missing value compares false, as JavaScript's `undefined >= 90` does.
