# Fitness tracker backend — a Dafny model

This project models the backend of a small workout tracker built on Express and Firestore. It covers four parts:

- **Store layer** (`firebase.js`). The `users` and `workouts` collections are held in memory as sequences of documents. The layer provides:
  - user lookups by username, by email, and by either;
  - append-only user creation;
  - workout insertion, which normalises fields, falls back to the current time when the date is missing or unparsable, and throws without writing when the date lies outside the range a Firestore timestamp holds;
  - three per-user queries: all workouts newest first, the N most recent, and one calendar day oldest first;
  - deletion by id.
- **Signup and login handlers** (`auth.js`). Each is an early-return ladder that picks a status and a message. Signup makes at most one insertion.
- **Bearer-token middleware** (`middleware.js`). It reads the header, checks the `Bearer ` prefix, splits on spaces, and verifies the token.
- **Workout routes** (`workout.js`). The POST and GET handlers check the caller and their input; DELETE checks only the id, not the caller. Each handler then makes at most one store call.

Files and modules:

| file | module | what it holds |
|---|---|---|
| `wrappers.dfy` | `Wrappers` | `Option`, and `Result` for calls that may throw |
| `js.dfy` | `Js` | JSON values, truthiness, `x != null`, `Number(x)`, and the opaque runtime (`Number(string)`, `Date.parse`, `new Date(y, m, d, ...)`) |
| `text.dfy` | `Text` | `startsWith`, and `split` on one character, with its inverse `join` |
| `seqs.dfy` | `Seqs` | filter, insertion sort by a key, map, first match |
| `tokens.dfy` | `Tokens` | JWT payload (`Claims`), issue with a one-hour expiry, verify; bcrypt and the JWT signature stay opaque |
| `firebase.dfy` | `Firebase` | documents, `formatWorkoutDoc`, the lookups and queries as functions, and the `Store` class whose methods change the collections |
| `http.dfy` | `Http` | response status and JSON body |
| `middleware.dfy` | `Middleware` | `authMiddleware` as a function from headers to a 401 or to the decoded payload |
| `auth.dfy` | `Auth` | signup as a method on the store; login as a function |
| `workout.dfy` | `WorkoutRoutes` | the five handlers: POST and DELETE as methods on the store, the GETs as functions |

Times are integer milliseconds, and JWT `iat`/`exp` are whole seconds.

External collaborators are passed in as parameters:

- `Crypto` holds `bcrypt.hash` with a salt, `bcrypt.compare`, the JWT encoding, and the signature check.
- `Runtime` holds `Number` on strings, `Date.parse`, and the local-time `Date` constructor.
- The ids Firestore assigns are parameters. A `requires` clause says each one is unused.
- Every `await` that can throw is named by a `fault` parameter.

Each query orders results by date. Only the order is specified: the order among equal dates is left open.

In three places the code behaves differently from what its routes and messages suggest. The model follows the code:

- **Unparsable day.** One would expect `GET /by-date` to answer any unparsable date with an empty list. The code returns `[]` only when the text does not split into exactly three `-`-separated pieces (firebase.js:109-110). For three pieces where one is not a number (`"not-a-date"`), `new Date(NaN, ...)` is an invalid date. Converting it to a Firestore timestamp throws, and the handler answers 500. See `Firebase.NonNumericDateFails` and `Firebase.NotADateFails`. A text without a dash, such as `20240101`, does answer `[]`, and never reaches the store (`WorkoutRoutes.UndashedDateAnswersEmpty`).
- **Negative durations.** The message asks for a duration in minutes, which suggests a positive number. The check `!duration || isNaN(duration)` (workout.js:23) rejects only null, 0 and NaN, so negative durations are accepted. See `WorkoutRoutes.RejectedExactly`.
- **Empty fields.** The message 'All fields are required' suggests a test for missing fields. The code also rejects the empty string, because the check is `!field`.

## Model

| member | source | states |
|---|---|---|
| `Seqs.FindFirst` | firebase.js:23 | the index of the first element that satisfies the predicate, or the length when none does; no earlier element satisfies it |
| `Seqs.Filter` | firebase.js:90 | keeps every element that satisfies the predicate, with its multiplicity, and nothing else |
| `Seqs.Insert` | firebase.js:91 | inserting into an ordered sequence adds exactly that element and keeps the order |
| `Seqs.Sort` | firebase.js:91 | the result is a permutation of the input, ordered ascending or descending by the key |
| `Seqs.FilterKeepsAll` | firebase.js:126 | when every element passes, the filter changes nothing |
| `Seqs.FilterDropsOne` | firebase.js:126 | when exactly one element fails, the filter removes exactly one |
| `Text.Split` | middleware.js:11 | `split` on one character gives one piece more than there are separators, and no piece contains the separator |
| `Text.JoinSplit` | firebase.js:109 | joining the pieces of `split` with the separator gives back the original text |
| `Text.SplitAfterField` | middleware.js:11 | a separator-free field followed by the separator becomes the first piece, and the rest splits on its own |
| `Text.SplitWithoutSeparator` | firebase.js:109-110 | text without the separator is a single piece |
| `Js.NumberOrNull` | firebase.js:58-59 | `x != null ? Number(x) : null` is null exactly for null and undefined, and keeps a number as it is |
| `Tokens.Issue` | auth.js:30 | the payload carries the given id and username, `exp` is one hour (3600 s) after `iat`, and `iat` is the issue time in whole seconds |
| `Tokens.Verify` | middleware.js:13 | verification returns the decoded payload only when the signature checks and the current time is before `exp`; otherwise it fails |
| `Tokens.IssuedTokenLifetime` | auth.js:30 | an issued token verifies to exactly its payload before `iat + 1h`, and fails from `issue time + 1h` onwards |
| `Firebase.FirstUser` | firebase.js:23-26 | `where(...).limit(1)` returns a matching user at or before every match, or null when none matches |
| `Firebase.UserByUsername` | firebase.js:22-27 | returns a user with that username at or before every such user, or null exactly when none exists |
| `Firebase.UserByEmail` | firebase.js:29-34 | returns a user with that email at or before every such user, or null exactly when none exists |
| `Firebase.UserByUsernameOrEmail` | firebase.js:36-41 | a username match wins whenever one exists; email is consulted only when no username matches; null exactly when neither matches |
| `Firebase.CreatedUserFound` | firebase.js:44-48 | after appending a user whose username was unused, both username lookups find that user |
| `Firebase.Store.CreateUser` | firebase.js:44-48 | appends exactly one user with the supplied fields and the fresh id, returns it, and leaves all other records unchanged |
| `Firebase.FormatWorkoutDoc` | firebase.js:53-63 | `type` becomes `''` when falsy; duration and calories are null exactly when null or undefined, and numeric otherwise; `userId` is null exactly when falsy; timestamps become ISO times |
| `Firebase.AddedWorkoutReadBack` | firebase.js:66-86 | the stored and re-read workout has the parsed date or the current time, `''` for a missing type, `Number`-or-null duration and calories, and the server time as `createdAt` |
| `Firebase.Store.AddWorkout` | firebase.js:66-86 | appends exactly one normalised document under the fresh id, leaves everything else unchanged, and returns it formatted; when `Date.parse` accepts the date but the instant lies outside years 1 to 9999, `Timestamp.fromDate` throws and nothing is written |
| `Firebase.Query` | firebase.js:115-122 | a filtered, ordered, formatted query returns one workout per matching document, only matching ones, in date order |
| `Firebase.WorkoutsByUser` | firebase.js:88-95 | exactly the user's workouts, one per document, each with that `userId`, in non-increasing date order |
| `Firebase.TopOfQuery` | firebase.js:97-105 | none of the user's workouts left out of a prefix of the newest-first list is more recent than one inside it |
| `Firebase.LimitedRecentWorkouts` | firebase.js:97-105 | the first `min(limit, n)` workouts of `getWorkoutsByUser` (default limit 3), so no left-out workout is more recent |
| `Firebase.LocalDayTime` | firebase.js:109-113 | the local time of day `d`, month `m` counted from 1, year `y` at the given clock time; invalid when a piece is not a number |
| `Firebase.DayBounds` | firebase.js:109-118 | the bounds are local 00:00:00.000 and 23:59:59.999 of day `d`, month index `m - 1`, year `y`; they exist exactly when both instants are valid dates inside the timestamp range, so a non-numeric piece always fails |
| `Firebase.WorkoutsByUserAndDate` | firebase.js:108-123 | `[]` unless the text splits into exactly three pieces; a failure exactly when the day bounds fail; otherwise exactly the user's workouts with start ≤ date ≤ end, one per document, both ends included, earliest first |
| `Firebase.UndashedDateIsEmpty` | firebase.js:109-110 | a date text with no `-` yields `[]` without querying |
| `Firebase.NonNumericDateFails` | firebase.js:109-118 | three pieces with a non-numeric one make the query throw rather than return `[]` |
| `Firebase.DatePieces` | firebase.js:109 | three dash-free pieces joined by dashes split back into exactly those three pieces |
| `Firebase.NotADateFails` | firebase.js:109-118 | any `y-m-d` of dash-free pieces whose year is not a number, such as `"not-a-date"`, passes the piece-count check and then makes the query throw instead of returning `[]` |
| `Firebase.RemoveById` | firebase.js:125-128 | deletion removes every document with that id, whoever owns it, and keeps every other document with its multiplicity |
| `Firebase.RemoveByIdCount` | firebase.js:125-128 | with distinct ids, deleting a present id removes exactly one document, and deleting an absent id removes none |
| `Firebase.RemoveKeepsDistinct` | firebase.js:125-128 | deletion keeps document ids distinct |
| `Firebase.FilterKeepsDistinct` | firebase.js:126 | keeping only the documents that pass a test never makes two ids equal |
| `Firebase.Store.DeleteWorkout` | firebase.js:125-128 | the workouts become `RemoveById` of the old ones; users are unchanged; the result is true |
| `Middleware.AuthorizationHeader` | middleware.js:7 | uses `authorization` when it is non-empty, otherwise `Authorization`; absent only when neither gives a value |
| `Middleware.BearerFields` | middleware.js:11 | a header starting with `Bearer ` splits into `Bearer` followed by the pieces of the rest |
| `Middleware.BearerToken` | middleware.js:11 | the verified string is the second space-separated field: the text after `Bearer ` up to the next space |
| `Middleware.Authenticate` | middleware.js:6-19 | 401 'Authorization header missing or malformed' exactly when the header is missing or lacks the `Bearer ` prefix; 401 'Invalid or expired token' exactly when verification fails; otherwise `req.user` is the decoded, unexpired payload and `next` runs once |
| `Middleware.EmptyBearerToken` | middleware.js:11 | the header `"Bearer "` hands the empty string to verification |
| `Middleware.LowerCaseSchemeRejected` | middleware.js:8-9 | the prefix test is case-sensitive: `bearer ...` is rejected as malformed |
| `Middleware.ExtraFieldsIgnored` | middleware.js:11 | text after a second space is not part of the token |
| `Middleware.IssuedTokenAccepted` | middleware.js:6-19 | a token issued at login, sent as `Bearer <token>`, passes with exactly its payload as `req.user` until its hour is up, and is refused as invalid or expired from then on |
| `Auth.Signup` | auth.js:16-37 | a falsy field gives 400 'All fields are required' before any lookup; an email or username match gives 400 'User already exists'; neither case creates a user; success inserts one user with the hashed password and returns 201 with the message, a token for `{newUser.id, username}` and the username; a thrown error gives 500 'Internal server error', even after the user was created |
| `Auth.Login` | auth.js:40-57 | a falsy field gives 400; an unknown user and a wrong password give the identical 401 'Invalid credentials'; success signs a token for the stored user's id and stored username and returns that stored username; a throwing lookup, compare or sign gives 500 exactly when the handler reaches it, and otherwise the earlier 401 stands |
| `Auth.LoginAfterSignup` | auth.js:27-52 | after a successful signup, logging in with the same username and password succeeds with a token for the new user |
| `Auth.LoginByEmail` | auth.js:45-52 | when no username equals the text, login finds the user by email and issues the token for that user's stored username |
| `WorkoutRoutes.Coerce` | workout.js:19-21 | duration and calories become `Number(x)`, or null when null or undefined; type and date pass through |
| `WorkoutRoutes.RejectedExactly` | workout.js:23-25 | a POST is rejected exactly when the type is falsy or the duration is null, undefined, NaN or 0; negative durations are accepted |
| `WorkoutRoutes.PostWorkout` | workout.js:14-33 | 401 'Unauthorized' without a caller id and 400 for rejected input, both without writing; otherwise it calls `addWorkout` once with the caller's id and returns 201 with the stored workout; a throwing store or a date outside the timestamp range gives 500 with nothing written |
| `WorkoutRoutes.RunExample` | workout.js:19-28 | `{type: 'run', duration: 30}` is accepted and stored with duration 30, null calories and the current time |
| `WorkoutRoutes.ListWorkouts` | workout.js:36-47 | 401 without a caller id; otherwise 200 with `getWorkoutsByUser` for the caller, each workout owned by the caller, or 500 on a thrown error |
| `WorkoutRoutes.RecentWorkouts` | workout.js:50-61 | 401 without a caller id; otherwise 200 with at most 3 workouts from `getLimitedRecentWorkouts(userId, 3)`, or 500 |
| `WorkoutRoutes.WorkoutsOnDate` | workout.js:64-78 | 401 without a caller id; 400 'Date query parameter is required' when `date` is missing or empty; 200 `[]` for a date without three pieces, whatever the store would do; otherwise 200 with the day query's result, or 500 when the bounds or the query throw |
| `WorkoutRoutes.UndashedDateAnswersEmpty` | workout.js:69-73 | a non-empty date without a dash answers 200 with an empty list for any store, because `getWorkoutsByUserAndDate` returns before querying (firebase.js:109-110) |
| `WorkoutRoutes.DeleteWorkoutById` | workout.js:81-91 | 400 'Missing id' for an empty id; otherwise deletes by id with no check of the owner and answers 200 'Workout deleted successfully', or 500 with nothing deleted |

## Left out

- Firestore client initialisation and credential loading (firebase.js:1-18) are replaced by the in-memory `Store`. The Express wiring, CORS, static files and `listen` in app.js are configuration only.
- Concurrency is not modelled. Requests run one at a time, so the race in signup's check-then-insert (two signups can both pass the duplicate check) is not represented.
- Cryptography is opaque: the internals of bcrypt, the JWT HMAC signature, the `JWT_SECRET` fallback, and `jwt.verify` checks other than signature and `exp` all sit in `Crypto`. The `console.error` logging is not modelled.
- Time is opaque. Date-string parsing, the local time zone, daylight saving time, and the ISO text of a timestamp are not modelled: a time is its millisecond value, and `Date.parse` and the `Date` constructor are parameters.
- Firestore ids are random. Each fresh id is a parameter, and a precondition says the id is unused, which is what Firestore's auto-ids ensure.
- Request fields are simplified. Signup and login fields are strings or absent. JavaScript's infinities and `-0` are not modelled.
- A non-string `date` in a workout body is treated as unparsable, so the model stores the current time. JavaScript differs: `Date.parse` first converts the value with `String()`, but `new Date(x)` reads a number as epoch milliseconds, so `{date: 2024}` passes `Date.parse("2024")` and is stored as 1970-01-01T00:00:02.024Z.
- WorkoutRoutes.WorkoutsOnDate: the `date` query parameter is a string or absent. Express turns `?date=a&date=b` into an array and `?date[x]=1` into an object. Either is truthy, so it passes the 400 check, and then `dateStr.split` throws and the route answers 500. The model cannot express such a value.
- Documents whose `date` is missing or not a timestamp are excluded from the ordered queries. Firestore would order non-timestamp values by type. Every document this code writes has a timestamp.
- `doc.data() || {}` for a document that no longer exists is not modelled. Queries return only existing documents.
- Faults are modelled in fixed places:
  - a failing `addWorkout` throws before its write;
  - a `docRef.get()` that fails after the write is not modelled;
  - Firestore's rejection of an id containing `/` in `doc(id)` is not modelled;
  - validation of the `limit` argument is not modelled (the limit is a natural number).
- Firebase.WorkoutsByUser: only non-increasing date order is stated. The model breaks ties with a stable insertion sort, but Firestore's actual tie order (by document id) is not modelled.
- Firebase.WorkoutsByUserAndDate: only non-decreasing date order is stated, for the same reason.
- Request bodies hold JSON strings, numbers, booleans and null only. Arrays and objects are not modelled: `Number([30])` is 30 and would be accepted as a duration, and an object `type` is truthy and would be stored.
- Firebase.FirstUser: returns the first match in insertion order. Firestore returns an unsorted `limit(1)` match in document-id order, which is random for auto-ids. The two differ only when two users share a username or email, which only the signup race can produce.
- tests/test_auth.py drives HTML pages in a browser and is not part of this model.
