# Face and location attendance: a Dafny model

This project models the decision logic of an Express/MySQL attendance service in Dafny and proves
properties of it. Users mark attendance in two ways:

- with a photo, which is matched against a gallery of reference faces;
- with a JSON request, which may carry a location.

Admins list and count the records.

The project has one module per source file:

- `FaceRecognition` (`face_recognition.dfy`)
  - Which files of the `Images` directory are reference images.
  - How a file name becomes a label.
  - How the gallery is built one file at a time.
  - The load-once model flag.
  - The five outcomes of one verification.
  - The module-level state is a class, `FaceRecognizer`, whose methods update `modelLoaded` and `gallery`.
  - `canvas.loadImage`, face-api.js's detection chain and `FaceMatcher.findBestMatch` are oracles: total functions that are fields of an `Oracles` value and work on abstract images, descriptors and distances.
- `FaceAttendanceRoutes` (`face_routes.dfy`)
  - The multer upload filter and size limit.
  - The four face routes, each as a function from its inputs to its one response.
- `Auth` (`auth.dfy`)
  - `authenticateToken` as a function that returns the reply, the `req.user` it sets and whether it cleared the `jwt` cookie.
  - `isAdmin`.
  - `jwt.verify` and the USER lookup are parameters.
- `LegacyMiddleware` (`legacy_middleware.dfy`)
  - The older `verifyauth` middleware as a sequence of statements that appends its effects (redirect, clear cookie, `next`) to a log. Express's `res` is given a headers-sent state: a header-setting call after the response has gone out throws ERR_HTTP_HEADERS_SENT, and the throw is the log's last entry.
- `AttendanceController` (`attendance_controller.dfy`)
  - The `attendance`, `locations` and `USER` tables as sequences of rows in a class, `AttendanceDb`, with AUTO_INCREMENT counters.
  - `markAttendance` is a method on that class, proved against the pure function `Mark`.
  - The two listings are the rows their joins select, in their ORDER BY order.
- `AttendanceRoutes` (`attendance_routes.dfy`)
  - The middleware chain in front of each route.
  - `/stats` and `/recent`.
- `Api` (`api.dfy`)
  - `POST /signup` as a method on a `User` table class, proved against the function `SignupEffect`.
  - `POST /login`.
- `Strings` (`strings.dfy`) and `Wrappers` (`wrappers.dfy`) hold shared helpers:
  - string prefixes and suffixes;
  - `split` and `join`;
  - ASCII case folding;
  - JavaScript's `parseInt`;
  - `Option`.

Conventions used throughout:

- Every database query either fails or does what MySQL does. Which queries fail is a parameter (`Faults`, `SignupFaults` or a boolean).
- Dates, times and `NOW()` are natural numbers passed in by the caller.
- A JavaScript value that may be `undefined` or SQL NULL is an `Option`.
- JavaScript truthiness is written out: an empty string, the number `0` and an absent value are falsy.

## Model

| member | source | states |
|---|---|---|
| FaceRecognition.ReferenceFiles | faceRecognition.js:49-50 | A directory entry is kept exactly when its name ends in `.jpg`, `.jpeg` or `.png` in any letter case; nothing else is kept. A one-entry listing is kept whole or dropped. |
| FaceRecognition.ReferenceFilesAppend | faceRecognition.js:49-50 | The filter keeps listing order and multiplicity: filtering a concatenation gives the concatenation of the filtered parts. |
| FaceRecognition.LastDot | faceRecognition.js:61 | The index found holds a '.' and no '.' follows it; no index is found only when the name has no '.'. |
| FaceRecognition.ExtName | faceRecognition.js:61 | `path.parse(...).ext` is empty or starts with '.', and it is a suffix of the name. |
| FaceRecognition.Stem | faceRecognition.js:61 | `path.parse(...).name` followed by the extension gives back the file name. |
| FaceRecognition.LastDotAt | faceRecognition.js:61 | A dot with no dot after it is the last dot. |
| FaceRecognition.ExtensionIsLastDot | faceRecognition.js:49-61 | A case-insensitive `.xyz` suffix with no inner dot starts at the name's last dot. |
| FaceRecognition.ImageSuffixIsExtension | faceRecognition.js:49-61 | For an accepted file, path.parse takes the matched image suffix as the extension, except when the name is nothing but that suffix. |
| FaceRecognition.MatchedSuffixIsImageExtension | faceRecognition.js:49-50 | The matched suffix is itself one of the three extensions in some letter case. |
| FaceRecognition.StemOfReferenceImage | faceRecognition.js:49-61 | An accepted file's label is its name without the image extension. A name that is only the extension (".png") is kept whole. |
| FaceRecognition.UnknownJpgIsAReferenceImage | faceRecognition.js:49-61 | "unknown.jpg" is accepted, and its label is the matcher's sentinel label "unknown". |
| FaceRecognition.EntryOf | faceRecognition.js:64-82 | A file contributes an entry exactly when its image decodes and detection finds a face in it. The entry is labelled with the file's stem, and its one descriptor is the one detection returned. |
| FaceRecognition.Gallery | faceRecognition.js:60-83 | The loop's gallery has at most one entry per file, each with exactly one descriptor. Order and content are stated by GalleryAppend, GalleryEntriesComeFromFiles and FilesWithFacesAreInGallery. |
| FaceRecognition.GalleryOf | faceRecognition.js:41-92 | A missing or unreadable directory gives an empty gallery; a listing gives at most one entry per directory entry. EmptyGalleries and GalleryEntriesWellFormed state the rest. |
| FaceRecognition.GalleryAppend | faceRecognition.js:60-83 | The loop preserves order: the gallery of two concatenated file lists is the concatenation of their galleries. |
| FaceRecognition.SkippedFileLeavesGallery | faceRecognition.js:71-82 | A file with no face, or whose load or detection throws, leaves no trace, and the files after it are still processed. |
| FaceRecognition.GalleryEntriesComeFromFiles | faceRecognition.js:60-83 | Every gallery entry is the entry of one of the accepted files. |
| FaceRecognition.FilesWithFacesAreInGallery | faceRecognition.js:60-83 | Every accepted file that yields an entry has that entry in the gallery. |
| FaceRecognition.GalleryLength | faceRecognition.js:60-83 | The gallery has at most one entry per accepted file. |
| FaceRecognition.GalleryEntriesWellFormed | faceRecognition.js:58-86 | Every entry loadReferenceImages returns has one descriptor and is labelled with the stem of an accepted entry of the listing. |
| FaceRecognition.EmptyGalleries | faceRecognition.js:43-91 | A missing directory, an unreadable one, and a listing with no image files all give an empty gallery. |
| FaceRecognition.LoadReferenceImages | faceRecognition.js:41-92 | The loop returns the gallery of the accepted files in listing order. The directory is created exactly when it was missing. |
| FaceRecognition.GalleryStep | faceRecognition.js:60-83 | One loop iteration appends the current file's entry, or nothing. |
| FaceRecognition.Labels | faceRecognition.js:206 | The labels, one per entry, in gallery order. |
| FaceRecognition.Classify | faceRecognition.js:119-172 | verifyFace's case split. An empty gallery gives "no reference data" before any image is decoded. A decoded image with no face gives "no face". A face gives "recognised" or "not recognised" depending on whether the matcher's label is the sentinel, with the matcher's distance and, when recognised, its label. A throw gives "failed" with the thrown message. |
| FaceRecognition.ToVerdict | faceRecognition.js:119-179 | `success` is true exactly when the face was recognised. `recognized` is present only after a match. `name` is present only when recognised. Both match branches carry a confidence from the same distance. `error` is present exactly when not recognised: "No reference faces loaded…", "No face detected in image", "Face not recognized" or the caught exception's message. |
| FaceRecognition.EmptyGalleryDecodesNothing | faceRecognition.js:119-124 | With an empty gallery the outcome does not depend on any foreign call. |
| FaceRecognition.UnknownStemNeverRecognized | faceRecognition.js:156-165 | A reference file whose stem is "unknown" is never reported as recognised. |
| FaceRecognition.RecognizedNameIsEnrolled | faceRecognition.js:156-172 | Under the stated assumption about findBestMatch, a recognised name is the stem of an accepted file whose detection found a face, and it is not "unknown". |
| FaceRecognition.FaceRecognizer.constructor | faceRecognition.js:14-15 | Models not loaded, empty gallery. |
| FaceRecognition.FaceRecognizer.LoadModels | faceRecognition.js:20-36 | Does nothing once the flag is set. Otherwise the flag becomes true exactly when all three loads succeed. A failure throws the fixed "models not found" message and leaves the flag false. |
| FaceRecognition.FaceRecognizer.Initialize | faceRecognition.js:97-105 | Returns true exactly when the models are or become loaded, and then the gallery is rebuilt from the directory. Returns false when loading fails, and then the gallery is unchanged. |
| FaceRecognition.FaceRecognizer.VerifyFace | faceRecognition.js:113-181 | Loads the models if needed; a load failure becomes the verdict's error. Otherwise the verdict is that of Classify on the current gallery. The gallery is not changed. |
| FaceRecognition.FaceRecognizer.ReloadTraining | faceRecognition.js:186-193 | The gallery is replaced by a fresh scan, and `facesLoaded` equals its new length. |
| FaceRecognition.FaceRecognizer.GetLoadedFaces | faceRecognition.js:206 | The labels of the gallery, one per entry, in order. |
| FaceAttendanceRoutes.AcceptUpload | routes/faceAttendance.js:7-17 | An upload is accepted exactly when its mimetype starts with `image/` and it is at most 5×1024×1024 bytes. The mimetype filter is checked first, and each rejection carries its error. |
| FaceAttendanceRoutes.ErrorOrDefault | routes/faceAttendance.js:53 | `result.error` when it is truthy, otherwise "Face not recognized". |
| FaceAttendanceRoutes.MarkAttendanceWithFace | routes/faceAttendance.js:24-64 | No file gives 400 "No image provided". A throw gives 500 "Face verification failed". 200 with name, confidence and timestamp is returned exactly when `success` and `recognized` are both true; otherwise 401 with the verdict's error or the default. |
| FaceAttendanceRoutes.VerifyFaceRoute | routes/faceAttendance.js:70-89 | No file gives 400. Otherwise the verdict is sent unchanged with status 200, or 500 on a throw. |
| FaceAttendanceRoutes.ReloadFaces | routes/faceAttendance.js:95-105 | The reload result is sent unchanged, or 500 with the thrown message. |
| FaceAttendanceRoutes.LoadedFaces | routes/faceAttendance.js:111-125 | `count` equals the length of `faces`; a throw gives 500 with its message. |
| FaceAttendanceRoutes.NoFileNeverVerifies | routes/faceAttendance.js:26-77 | Without a file, neither verifying route depends on the verifier. |
| FaceAttendanceRoutes.MarkStatusByOutcome | routes/faceAttendance.js:36-55 | Composed with verifyFace: 200 with the matched name exactly when recognised; otherwise 401 with verifyFace's error for each of the other outcomes. |
| FaceAttendanceRoutes.LoadedFacesCount | routes/faceAttendance.js:113-118 | Served from the recogniser, the count equals the gallery size. |
| Auth.HeaderToken | middleware/auth.js:7-8 | No header gives no token. An empty header stays the empty string, which SelectToken treats as no token. A non-empty header gives the second space-separated piece, present exactly when the header has at least two pieces. |
| Auth.SchemeIsIgnored | middleware/auth.js:8 | Any first word followed by a space and a token gives that token, whatever follows; the scheme name is never checked. |
| Auth.HeaderTokenHasNoSpace | middleware/auth.js:8 | A header token never contains a space. |
| Auth.SelectToken | middleware/auth.js:11-20 | A token is chosen exactly when the cookie or the header token is truthy. The cookie wins when it is truthy. |
| Auth.LookupId | middleware/auth.js:38 | The id looked up is `_id` if truthy, else `userId` if truthy, else `id`. |
| Auth.AuthenticateToken | middleware/auth.js:5-69 | No token: 401, or a redirect off `/api/`, with no cookie cleared. A throwing verify: 403 or redirect, with the cookie cleared. A failed or empty lookup: 401 or redirect, with the cookie cleared. Otherwise `next`, with `req.user` taken from the first row. |
| Auth.AuthenticateTokenShape | middleware/auth.js:20-68 | `next` runs exactly when a token was found, verified and its user row exists, and only then is `req.user` set. The cookie is cleared exactly when a presented token is refused. Refusals are JSON exactly on `/api/` paths and otherwise redirect to `/login`. |
| Auth.CookieTakesPriority | middleware/auth.js:11-12 | With a truthy cookie token, the Authorization header has no influence. |
| Auth.BearerHeaderIsUsed | middleware/auth.js:7-12 | A request that has only `Authorization: <word> <token>` is judged exactly as if it carried that token in the cookie. |
| Auth.IsAdmin | middleware/auth.js:72-78 | `next` exactly when `req.user` exists with role `admin`; otherwise 403 "Access denied. Admin rights required." |
| LegacyMiddleware.Perform | middleware/middleware.js:4-18 | Express's `res`: it performs at most the calls attempted, and a thrown ERR_HTTP_HEADERS_SENT is the last entry and occurs once. PerformSendsAtMostOnce and PerformWithoutLateCalls state the rest. |
| LegacyMiddleware.AsWrittenAttempts | middleware/middleware.js:4-18 | The code attempts `next` exactly when verification returns a truthy payload, clears the `ayush` cookie exactly when verification throws, and never raises the headers-sent error itself. |
| LegacyMiddleware.AsWrittenLog | middleware/middleware.js:4-18 | `next` is called exactly when verification returns a truthy payload. The `jwt` cookie is never cleared. At most one response is sent. ERR_HTTP_HEADERS_SENT escapes exactly when the cookie is missing and verification throws. With a cookie and a falsy payload, nothing happens at all. |
| LegacyMiddleware.VerifyAuth | middleware/middleware.js:4-18 | The statement sequence, with its headers-sent flag, produces exactly the log of AsWrittenLog. |
| LegacyMiddleware.ResponsesAppend | middleware/middleware.js:4-18 | Responses in a concatenated log add up. |
| LegacyMiddleware.PerformSendsAtMostOnce | middleware/middleware.js:4-18 | Whatever calls a handler attempts, `res` sends at most one response, and none once one has gone out. |
| LegacyMiddleware.PerformWithoutLateCalls | middleware/middleware.js:4-18 | When no header-setting call follows a redirect, every attempted call is performed and nothing throws. |
| LegacyMiddleware.AsWrittenLogCases | middleware/middleware.js:4-18 | The log of each of the six cases (cookie present or missing; truthy, falsy or throwing verification), written out. |
| LegacyMiddleware.MissingCookieThrowsAfterRedirect | middleware/middleware.js:5-16 | With no `jwt` cookie, jsonwebtoken throws on the undefined token. The log is the redirect of line 7, then the ERR_HTTP_HEADERS_SENT that `clearCookie` raises in the catch block: one response, and an exception out of the middleware. |
| LegacyMiddleware.ReturningLog | middleware/middleware.js:4-18 | With the `return` added, a missing cookie only redirects. With a cookie, it behaves as written. |
| LegacyMiddleware.AtMostOneResponse | middleware/middleware.js:4-18 | With the `return` added, `res` performs every call and nothing throws. Every request gets at most one response, and `next` never follows a response. |
| LegacyMiddleware.VerifyAuthReturning | middleware/middleware.js:4-18 | The corrected statement sequence produces exactly the log of ReturningLog. |
| AttendanceController.SetAttended | controller/attendanceController.js:44-59 | Exactly the USER rows with the id get `has_attended` set; nothing else changes. |
| AttendanceController.Mark | controller/attendanceController.js:5-65 | The reply is 200, 400 or 500. It is 200 exactly when one attendance row is added. Any other reply leaves the attendance and USER tables unchanged. MarkResponses, MarkLocation, MarkKeepsOncePerDay and MarkTwice state the rest. |
| AttendanceController.MarkResponses | controller/attendanceController.js:5-65 | 200 with the new id exactly when no check, location or insert query fails and the user has no row for the date. A failed check gives 500 with no change. A repeated mark gives 400 with no change. A failed location insert gives 500 "Error saving location" and changes nothing. A failed attendance insert gives 500 "Error marking attendance" and keeps only the location row inserted before it, which exists exactly when both coordinates are truthy; otherwise `locations` is untouched. Any failure leaves `attendance` and USER unchanged. |
| AttendanceController.MarkLocation | controller/attendanceController.js:25-52 | On success exactly one attendance row is appended, for the user, date and time. When both coordinates are truthy, exactly one location row with them is appended and the new row points at it. Otherwise `locations` is untouched and the row has no location. |
| AttendanceController.MarkSetsAttended | controller/attendanceController.js:44-59 | After a success, unless the update failed, `has_attended` is set for exactly the caller's USER rows. |
| AttendanceController.MarkKeepsValid | controller/attendanceController.js:26-51 | The AUTO_INCREMENT counters stay ahead of every stored id, so the reported `attendanceId` is new. USER stays keyed by id. |
| AttendanceController.MarkKeepsOncePerDay | controller/attendanceController.js:13-22 | Marking never creates a second row for the same user and date. |
| AttendanceController.MarkTwice | controller/attendanceController.js:13-22 | After a successful mark, a second mark by the same user on the same day is refused with 400 and changes nothing. |
| AttendanceController.AttendanceDb.constructor | model/models.js:10-14 | Given a USER table keyed by id: empty attendance and location tables, counters at 1, and the invariant established. |
| AttendanceController.AttendanceDb.MarkAttendance | controller/attendanceController.js:5-65 | Each callback in turn. The new tables and the response are exactly those of Mark, and the id and once-per-day invariants are kept. |
| AttendanceController.Filter | controller/attendanceController.js:75-101 | A WHERE or JOIN condition keeps each matching row as often as it is stored, and drops the others. |
| AttendanceController.Insert | controller/attendanceController.js:78 | Inserting into a list sorted by date desc and time desc keeps it sorted, and adds exactly that row. |
| AttendanceController.SortByRecency | controller/attendanceController.js:78-103 | The ORDER BY: sorted by date descending, then time descending, and a permutation of its input. |
| AttendanceController.UserOf | controller/attendanceController.js:75-101 | The USER row an attendance row joins with has its id; none exists only when no USER row has that id. |
| AttendanceController.UserOfIsTheRow | controller/attendanceController.js:75-101 | With USER keyed by id, the JOIN pairs a row with the one USER row of its id. |
| AttendanceController.LocationOf | controller/attendanceController.js:76-102 | The LEFT JOIN: a NULL `location_id` or a missing location row gives no coordinates. |
| AttendanceController.Records | controller/attendanceController.js:99 | One record per joined row, in order. Each record holds its row, the name and email of the row's USER row, and the latitude and longitude of its location row, or none. |
| AttendanceController.SortedJoinHasUsers | controller/attendanceController.js:75-101 | Every listed row has its USER row. |
| AttendanceController.MyRowsAreTheCallers | controller/attendanceController.js:72-79 | getMyAttendance lists exactly the caller's rows that have a USER row, each as often as stored, most recent first. |
| AttendanceController.AllRowsAreJoined | controller/attendanceController.js:98-104 | getAllAttendance lists every stored row that has a USER row, each as often as stored, most recent first. |
| AttendanceController.GetMyAttendance | controller/attendanceController.js:68-88 | 500 "Error fetching attendance records" on a query error. Otherwise 200 and one record per listed row, each for the caller, with the caller's name and the row's coordinates. |
| AttendanceController.GetAllAttendance | controller/attendanceController.js:91-113 | 403 "Unauthorized" for any role other than `admin`. Then 500 on a query error. Otherwise 200 and one record per listed row, in order, each holding that row, the name and email of its USER row and the coordinates of its location row. |
| AttendanceRoutes.Guard | routes/attendance.js:8-49 | Every route runs authenticateToken. `/all`, `/stats` and `/recent` then run isAdmin. The handler runs exactly when every middleware calls `next`, with the `req.user` authenticateToken set. |
| AttendanceRoutes.AdminRoutesAdmitOnlyAdmins | routes/attendance.js:8-49 | An admin route's handler runs only for role `admin`. `/mark` and `/my` run for any authenticated user. |
| AttendanceRoutes.RefusalsOnTheseRoutes | routes/attendance.js:8-49 | Inside the router `req.path` is the route path, which never starts with `/api/`. So authenticateToken's refusals here are redirects to `/login`, and isAdmin's 403 is the only JSON refusal. |
| AttendanceRoutes.AllNeverUnauthorized | routes/attendance.js:14 | Behind its chain, getAllAttendance's own 403 check is unreachable. |
| AttendanceRoutes.CountStudents | routes/attendance.js:22 | The student count is at most the number of USER rows. It is 0 exactly when no row has role `student`, and equals the row count exactly when every row has. |
| AttendanceRoutes.CountPresent | routes/attendance.js:29 | The day's count is at most the number of attendance rows, and 0 exactly when no row has that date. |
| AttendanceRoutes.CountPresentIsFilter | routes/attendance.js:29 | The day's count is the number of rows the WHERE clause selects, whoever they belong to. |
| AttendanceRoutes.Stats | routes/attendance.js:17-46 | 500 "Error fetching statistics" exactly when a count fails. Otherwise the two counts and `absentToday` = `totalStudents − presentToday`, not clamped. |
| AttendanceRoutes.AbsentGoesNegative | routes/attendance.js:29-37 | One admin who marked attendance today and no students gives `absentToday` = −1, even though the tables keep one row per user and day. |
| AttendanceRoutes.CountStudentsPresent | routes/attendance.js:29 | Counting only students' rows counts no more than the original count. |
| AttendanceRoutes.CountStudentsPresentIsFilter | routes/attendance.js:29 | The corrected count is the number of the day's rows whose user is a student. |
| AttendanceRoutes.StatsOfStudents | routes/attendance.js:17-46 | The statistics with only students counted as present. |
| AttendanceRoutes.StudentIdsCount | routes/attendance.js:22 | With unique USER ids, the student count is the number of distinct student ids. |
| AttendanceRoutes.PresentStudentIdsCount | routes/attendance.js:29 | With one row per user and day, the day's student rows have distinct user ids. |
| AttendanceRoutes.StudentsAbsentNeverNegative | routes/attendance.js:35-37 | Counting only students, with one row per user and day and unique USER ids, `absentToday` is never negative. |
| AttendanceRoutes.SubsetCardinality | routes/attendance.js:35-37 | A subset is no larger than its superset. |
| AttendanceRoutes.RecentLimit | routes/attendance.js:51-62 | No `limit`, or an empty one, gives 10. Otherwise parseInt's value, and no runnable statement when that is NaN or negative. |
| AttendanceRoutes.DecimalLimit | routes/attendance.js:51-62 | `limit=n` written in decimal gives a limit of n. |
| AttendanceRoutes.Format | routes/attendance.js:69-72 | Each record is kept unchanged, with `time` equal to its `at_time`. |
| AttendanceRoutes.Recent | routes/attendance.js:49-76 | 500 "Error fetching recent attendance" exactly when the limit cannot run or the query fails. Otherwise the first `limit` joined rows in getAllAttendance's order, or all of them when there are fewer. Each record holds its row, the name and email of its USER row, the coordinates of its location row, and `time` equal to the row's `at_time`. |
| AttendanceRoutes.RecentAreMostRecent | routes/attendance.js:53-62 | Every record `/recent` returns is at least as recent as every joined record it leaves out. |
| Strings.ParseInt | routes/attendance.js:62 | A string that is empty or only white space is NaN, and a negative result comes from a leading minus. ParseIntDecimal, ParseIntNegativeDecimal and ParseIntIgnoresTail state exact values. |
| Strings.Split | middleware/auth.js:8 | `split(' ')` always gives at least one piece. |
| Strings.JoinSplit | middleware/auth.js:8 | Joining the pieces of a split with the separator gives back the string. |
| Strings.SplitJoin | middleware/auth.js:8 | Splitting a join of separator-free pieces gives back the pieces. |
| Strings.SplitPiecesHaveNoSeparator | middleware/auth.js:8 | No piece of a split contains the separator. |
| Strings.SplitWord | middleware/auth.js:8 | A string without the separator splits into itself. |
| Strings.SplitAfterWord | middleware/auth.js:8 | A separator-free word followed by the separator splits off as the first piece. |
| Strings.TrimStart | routes/attendance.js:62 | parseInt's leading white space is removed, and only white space. |
| Strings.LeadingDigits | routes/attendance.js:62 | The longest prefix of digits of the radix. |
| Strings.ParseTrimmed | routes/attendance.js:62 | parseInt is NaN exactly when no digit follows the sign and the optional `0x`. |
| Strings.DecimalString | routes/attendance.js:62 | A decimal numeral is non-empty and made of decimal digits. |
| Strings.DecimalStringValue | routes/attendance.js:62 | A decimal numeral denotes its number. |
| Strings.AllDigitsLead | routes/attendance.js:62 | A digit string is its own longest digit prefix. |
| Strings.LeadingDigitsOfPrefix | routes/attendance.js:62 | Digit scanning stops at the first non-digit. |
| Strings.DecimalIsUnsigned | routes/attendance.js:62 | A decimal numeral, followed by a non-digit or nothing, is read whole in radix 10. |
| Strings.ParseIntOfDigitFirst | routes/attendance.js:62 | A string starting with a digit skips no white space and has no sign. |
| Strings.ParseIntOfMinus | routes/attendance.js:62 | A leading minus negates the value. |
| Strings.ParseIntDecimal | routes/attendance.js:62 | parseInt reads back the decimal numeral of n. |
| Strings.ParseIntNegativeDecimal | routes/attendance.js:62 | parseInt reads back "-" followed by the numeral of n as −n. |
| Strings.ParseIntIgnoresTail | routes/attendance.js:62 | parseInt ignores whatever follows the digits. |
| Api.SignupReplies | controller/api.js:29-55 | A count or lookup error gives 500 "Database error". An email already present gives "User Already Exists". "User created successfully" exactly when no query fails, the email is new and the id `count + 1` is free, and then exactly one row with that id and the form's fields is appended. With no count or lookup error and a new email, a failed insert or a taken id gives 500 "Error inserting user". Every other reply leaves the table unchanged. |
| Api.SignupEffect | controller/api.js:29-55 | The table is unchanged or has exactly one row appended, and the reply is 200 or 500. SignupReplies and SignupKeepsInvariants state which, and with what. |
| Api.DenseIdsNeverCollide | controller/api.js:36-44 | On a table with ids 1…n, `count + 1` is never taken. |
| Api.SignupKeepsInvariants | controller/api.js:38-49 | Signup keeps the ids dense and the non-NULL emails unique. |
| Api.GapRefusesNewUser | controller/api.js:36-46 | When a row is missing from 1…n, the count gives a taken id, and a new email is refused with 500 "Error inserting user". |
| Api.UserTable.constructor | controller/api.js:33 | An empty table. |
| Api.UserTable.Signup | controller/api.js:29-55 | Each callback in turn. The new table and the reply are exactly those of SignupEffect; dense ids and unique emails are kept. |
| Api.Login | controller/api.js:19-22 | Always "LOGGED IN", whatever the body. |

## Left out

- face-api.js and canvas internals are oracles: SSD detection, landmarks, the 128-number descriptor, FaceMatcher's nearest-neighbour search with its 0.6 threshold, and image decoding. Their source is not part of this model, and they compute in floating point.
- FaceRecognition.RecognizedNameIsEnrolled: it rests on an assumption, `MatcherAnswersFromGallery`, that findBestMatch answers the sentinel or one of the gallery's labels. This is what face-api.js documents, but its code is not part of this model.
- FaceRecognition.ToVerdict: the confidence `Math.round((1 - distance) * 100)` is kept as a symbolic value of the distance, because the arithmetic is floating point.
- The `Images` directory listing, its creation and readdir failures are an input (`ImagesDir`), not file-system calls. `console` logging is left out.
- FaceRecognition.FaceRecognizer.ReloadTraining: it does not look at the model flag. A scan without loaded models fails inside the detection oracle, which the model leaves unconstrained.
- FaceAttendanceRoutes: the `Threw` cases of the four routes are modelled although faceRecognition.js never lets verifyFace or reloadTraining throw. The `success` field of the JSON bodies follows from the body kind and is not a separate field. multer errors other than the two of the configuration (a field other than `image`, several files) are left out.
- Auth: `req.cookies` being absent is the same as having no cookie. Cookie values that are not strings, and the signing secret, are not modelled: verification is an oracle. Payload ids are numbers or absent. A JSON string id is not modelled: `"0"` is truthy in the `||` chain at middleware/auth.js:38, and MySQL would match `"5"` with id 5.
- controller/auth.js is not part of this model. Its `verifytoken` is `jwt.verify` with a fixed secret, modelled as an oracle.
- Express wiring is left out: index.js, the template-rendering routes of controller/api.js (`GET /`, `/face`, `/login`, `/signup`), and controller/user.js.
- controller/api.js reads and writes a table named `User`; middleware/auth.js, controller/attendanceController.js and model/models.js use `USER`. The model keeps `Api.UserTable` and the `users` of `AttendanceController.Tables` as two unrelated tables. On a MySQL server with case-sensitive table names the `User` table does not exist, and every signup query would fail, which is one of the `SignupFaults`.
- LegacyMiddleware: Express's handling of the escaped ERR_HTTP_HEADERS_SENT (its error handler, and what happens to the connection once the response is sent) is not modelled. The log stops at the throw.
- setup-face-recognition.js (network downloads), connection.js and model/models.js (connection and schema DDL) are left out.
- Concurrency is left out: requests, and the callbacks of one request, are taken one at a time. The check-then-insert of markAttendance and the module state of faceRecognition.js can race in the real server.
- AttendanceController.Mark: a failed insert is taken to consume no AUTO_INCREMENT value. Foreign keys are not modelled; a refused insert is one of the `Faults`. `DECIMAL(10,7)` rounding of coordinates is not modelled. JSON coordinates other than numbers and strings are not modelled.
- The schema in model/models.js creates USER without the `role` column that middleware/auth.js and routes/attendance.js read. Its `locations` statement lacks a closing parenthesis. attendance references a `location` table that is never created. The model takes the three tables as the controllers use them.
- AttendanceController.SortByRecency: rows with equal date and time keep their stored order here. MySQL promises no order among them, and the lemmas state only sortedness and permutation.
- AttendanceRoutes.RecentLimit: values of `limit` that parseInt turns into numbers beyond MySQL's LIMIT range, and a `limit` given several times (an array), are not modelled. White space is limited to the characters listed, not all of Unicode's space separators.
- AttendanceRoutes.CountStudents: roles are compared exactly. Under MySQL's default case-insensitive collation the `WHERE role = 'student'` would also count e.g. "Student". The same holds for IsStudent and the corrected count of StatsOfStudents.
- AttendanceController.Mark: when the location insert succeeds and the attendance insert then fails, the location row stays, as in the code; the reply is still 500.
- Api.UserTable.Signup: emails are compared exactly. A MySQL collation that ignores letter case or trailing spaces is not modelled. A name violating `NOT NULL` is one of the insert faults, not a separate case.
- Clocks (`new Date()`, `NOW()`) are parameters; the UTC date against the local time of day is not distinguished.

## Findings

| source | as written | input that shows it | evidently intended | confidence | as-written member | corrected member |
|---|---|---|---|---|---|---|
| middleware/middleware.js:6-8 | `res.redirect("/login")` without `return`, so verification runs anyway | a request with no `jwt` cookie: `jwt.verify(undefined)` throws after the redirect has ended the response, and the catch block's `res.clearCookie("ayush")` throws ERR_HTTP_HEADERS_SENT out of the middleware, so line 16 never runs. The defect is latent: no file of the repository requires `verifyauth` | `return res.redirect("/login")`, as the catch branch does | medium (the code path is certain, but nothing loads this module); not executed | LegacyMiddleware.MissingCookieThrowsAfterRedirect | LegacyMiddleware.AtMostOneResponse |
| routes/attendance.js:29-37 | `presentToday` counts every attendance row of the day, and `absentToday` subtracts it from the number of students | one USER row with role `admin` that marked attendance today, and no students: `absentToday` is −1. The defect is latent: index.js does not mount this router | count only students' rows as present | low (nothing mounts the route); not executed | AttendanceRoutes.AbsentGoesNegative | AttendanceRoutes.StudentsAbsentNeverNegative |
