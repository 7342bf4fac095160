# Shamanth Academy storefront: a Dafny model of its core

Shamanth Academy is an e-learning storefront. Learners browse a course catalogue and sign up with an email and a PIN. To get a paid course, a learner pays by QR code and asks for an unlock. The administrator then approves the request, grants a course by hand or locks it again. This project models the parts of the system that decide who may watch what:

- **The browser user store** (`services/db.ts`) is the class `LocalStore.UserStore`. Its field `saved` is the user list kept in the browser's storage. Every operation first asks the remote backend; that reply is a parameter `cloud`. When the reply is truthy, it is handed back unchanged and the storage is left alone. Otherwise the local fallback runs. The record-level rules it applies live in module `Enrollment` as pure functions, with the lemmas about them: `Requested`, `Approved`, `Locked`, registration and login.
- **The serverless backend** (`AWS_LAMBDA_PROXY.js`) is the class `Lambda.Backend`. Its field `table` is the key-value table that holds users, courses and the settings record side by side. It has one method per action, plus `Handle` for dispatch, the preflight answer, the unknown-action answer and the catch-all. A failing database call is a parameter `fault` that carries the error message. A full table scan is a loop over the keys.
- **The page** (`App.tsx`) is modelled as follows. The catalogue filter and the category bar are pure functions. The authentication state and the stored session are a class `App.Shell`, whose methods are the login, logout, session-restore and refresh handlers. The choice of the main panel is the function `MainPanel`.
- **The admin console** (`components/AdminDashboard.tsx`) covers the pending-request table, the seeker search, the "last seen" label, the manual-grant list and the presence counters.
- **The course dialog** (`components/CourseModal.tsx`) covers who may watch, the pending flag, the first video and what the player area shows. It also covers the dialog's own state, as class `CourseModal.Modal`, and the effects of the "I Have Paid" button.
- **The hero carousel** (`components/HeroCarousel.tsx`) covers the next/previous updaters, written with the JavaScript truncating remainder, the dot clicks, and the fact that exactly one slide is shown.

Shared modules:

- `JsValues` has `Option`, JSON values with JavaScript truthiness, and the truncating `%`.
- `Seqs` has `filter`, subsequences, and de-duplication in first-occurrence order, as `[...new Set(xs)]` does it.
- `Text` has ASCII `toLowerCase`, `includes` with a reference definition by occurrence, and decimal rendering.
- `Types` has the records and the built-in catalogue of `constants.tsx`.

Timestamps (`now`), generated ids (`newId`, `Math.random`, `Date.now`) and date parsing (`toMs`) are parameters.

Notes on what the code does:

- Emails are compared exactly. The code does no trimming or lower-casing.
- There is no hard-coded administrator login bypass. The administrator is a seeded record (`services/db.ts:36-50`).
- A remote conflict is not turned into a "duplicate user" failure. A truthy error body `{error: ...}` is returned as if it were the user (`JsValues.ErrorBodyIsTruthy`).
- Network calls have no timeout.
- `requestUnlock` does not check whether the course is already enrolled. So "a course is never both enrolled and pending" is not preserved by every operation (`Enrollment.RequestForEnrolledCourse`). It holds for a request sent from the course dialog when the dialog's user record is current, because the dialog offers the request only for a course that record shows locked (`CourseModal.DialogRequestKeepsExclusive`).
- `deleteUser` deletes any id, the administrator's included.

## Model

| member | source | states |
|---|---|---|
| JsValues.TruncRem | components/HeroCarousel.tsx:58-62 | JavaScript `%` for a positive divisor: `a` is the quotient truncated toward zero times `b` plus the remainder; the remainder has the sign of `a` (in [0, b) or (-b, 0]), equals the Euclidean one for non-negative `a`, and for negative `a` is the negated remainder of `-a` |
| JsValues.ErrorBodyIsTruthy | services/db.ts:64-65 | an error reply `{error: message}` is truthy, so the store hands it back as if the backend had registered or logged in a user |
| Enrollment.Requested | services/db.ts:106-113 | a request appends the course to the pending list only if absent; an already pending course leaves the record identical; the earlier pending entries stay in place; enrolled courses, identity and role are untouched; a duplicate-free pending list stays duplicate-free |
| Enrollment.Approved | services/db.ts:122-132 | after approval the course is not pending and is enrolled exactly once; the enrolled list has no duplicates and holds exactly the old courses plus this one; the other pending entries keep their counts and order |
| Enrollment.ApprovedKeepsFirstOccurrenceOrder | services/db.ts:127 | the enrolled list after approval is ordered by first occurrence in the old list followed by the course |
| Enrollment.ApprovedOnDuplicateFreeList | services/db.ts:127 | on a duplicate-free enrolled list, approval appends the course if new and otherwise leaves the list unchanged |
| Enrollment.Locked | services/db.ts:141-150 | after a lock no occurrence of the course is enrolled, the other enrolled courses keep their counts and order, and the pending list is unchanged |
| Enrollment.ApprovedKeepsExclusive | services/db.ts:122-132 | approval preserves "no course both enrolled and pending" |
| Enrollment.LockedKeepsExclusive | services/db.ts:141-150 | a lock preserves "no course both enrolled and pending" |
| Enrollment.RequestedKeepsExclusive | services/db.ts:106-113 | a request for a course not enrolled preserves "no course both enrolled and pending" |
| Enrollment.RequestForEnrolledCourse | services/db.ts:108 | a request for an enrolled course leaves it both enrolled and pending: the code does not guard against it |
| Enrollment.ApproveThenLock | services/db.ts:117-152 | approving and then locking a course leaves it in neither list |
| Enrollment.RequestUnlockIn | services/db.ts:105-114 | the list keeps its length and order, every other id's record is identical, and the target records get the request |
| Enrollment.ApproveUnlockIn | services/db.ts:121-133 | the list keeps its length and order, every other id's record is identical, and the target records are approved |
| Enrollment.LockCourseIn | services/db.ts:140-151 | the list keeps its length and order, every other id's record is identical, and the target records are locked |
| Enrollment.UnknownUserLeavesListUnchanged | services/db.ts:106-151 | an id no stored user carries leaves the whole list identical under request, approve and lock |
| Enrollment.RequestUnlockIdempotent | services/db.ts:106-113 | requesting the same unlock twice gives the same list as requesting it once |
| Enrollment.RequestUnlockKeepsPendingDuplicateFree | services/db.ts:108-109 | a request never duplicates a pending course id in any record |
| Enrollment.Seeded | services/db.ts:36-51 | with no stored list, the list is exactly one record: id 'admin', role ADMIN, the administrator email and PIN, and empty lists; a stored list is returned as it is |
| Enrollment.RegisterIn | services/db.ts:67-82 | registration fails exactly when a stored user has the identical email, leaving the list unchanged; otherwise exactly one USER record with the given email and PIN and empty lists is appended and returned |
| Enrollment.RegisterTwiceFails | services/db.ts:67-68 | registering the same email again after a success fails, whatever the PINs |
| Enrollment.FindLogin | services/db.ts:90 | the index found is the first whose email and PIN both match exactly; none is found only when no user matches |
| Enrollment.LoginIn | services/db.ts:89-98 | login succeeds exactly when some user matches; only the first match changes, and only its `lastActive`; that record is returned; a failed login changes nothing |
| Enrollment.LoginAfterRegister | services/db.ts:63-98 | a freshly registered user logs in with the same credentials and is the record found |
| Enrollment.FindById | App.tsx:52 | the first record with the id, and none exactly when no record has it |
| LocalStore.UserStore.GetStoredUsers | services/db.ts:30-52 | a truthy remote reply is returned and storage is untouched; otherwise the stored list is returned, and on first access it is seeded with the administrator and persisted |
| LocalStore.UserStore.SaveUsers | services/db.ts:54-61 | the list replaces the stored one unless the backend accepted it |
| LocalStore.UserStore.RegisterUser | services/db.ts:63-83 | in local mode the result and the new stored list are those of `RegisterIn` over the seeded list; a truthy remote reply is returned unchanged with storage untouched |
| LocalStore.UserStore.LoginUser | services/db.ts:85-99 | in local mode the result and the new stored list are those of `LoginIn` over the seeded list |
| LocalStore.UserStore.RequestUnlock | services/db.ts:101-115 | in local mode the stored list becomes `RequestUnlockIn` of the seeded list; with a truthy remote reply storage is untouched |
| LocalStore.UserStore.ApproveUnlock | services/db.ts:117-134 | in local mode the stored list becomes `ApproveUnlockIn` of the seeded list |
| LocalStore.UserStore.LockCourse | services/db.ts:136-152 | in local mode the stored list becomes `LockCourseIn` of the seeded list |
| Lambda.Respond | AWS_LAMBDA_PROXY.js:167-178 | a response keeps the status and body it is given and always carries the four CORS headers |
| Lambda.ApprovedDated | AWS_LAMBDA_PROXY.js:136-141 | the backend's approval: in every field but the date map it is exactly `Approved`; the approval date is recorded under the course id, with the other dates kept (a missing date map starts empty) |
| Lambda.LockedDated | AWS_LAMBDA_PROXY.js:149-152 | the backend's lock: in every field but the date map it is exactly `Locked`; the course's date is deleted if a date map exists, with the other dates kept |
| Lambda.Backend.Scan | AWS_LAMBDA_PROXY.js:58-59 | the scan-and-filter yields exactly the items of the type, one per key |
| Lambda.Backend.GetSettings | AWS_LAMBDA_PROXY.js:31-44 | the stored settings record; when none is stored, 200 with exactly the defaults (five categories, no news); 500 with the message on a database error |
| Lambda.Backend.SaveSettings | AWS_LAMBDA_PROXY.js:46-55 | the settings are written under the fixed settings key with the save time |
| Lambda.Backend.GetCourses | AWS_LAMBDA_PROXY.js:57-61 | the answer holds exactly the table's course items, as many as there are course keys (one per key) |
| Lambda.Backend.SaveCourse | AWS_LAMBDA_PROXY.js:63-71 | the course is written under its id with the save time, replacing whatever item was there |
| Lambda.Backend.DeleteItem | AWS_LAMBDA_PROXY.js:73-76 | `deleteCourse` and `deleteUser` (lines 119-122) remove the item under the id, whatever its type |
| Lambda.Backend.GetAllUsers | AWS_LAMBDA_PROXY.js:78-82 | the answer holds exactly the table's user items, as many as there are user keys (one per key) |
| Lambda.Backend.Register | AWS_LAMBDA_PROXY.js:84-106 | 409 with no write exactly when some user item has the email; otherwise one USER item with empty lists and an empty date map is written under the new id and returned |
| Lambda.Backend.Login | AWS_LAMBDA_PROXY.js:108-117 | with a matching user item, that item alone gets the new `lastActive` and is returned; with none, 401 and no write |
| Lambda.Backend.RequestUnlock | AWS_LAMBDA_PROXY.js:124-132 | a missing id answers success with no write; a non-user item makes the handler fail with 500 and no write; a user item is replaced by `Requested` of it |
| Lambda.Backend.ApproveUnlock | AWS_LAMBDA_PROXY.js:134-145 | a missing id answers success with no write; a non-user item gives 500; a user item is replaced by `ApprovedDated` of it |
| Lambda.Backend.LockCourse | AWS_LAMBDA_PROXY.js:147-156 | a missing id answers success with no write; a non-user item gives 500; a user item is replaced by `LockedDated` of it |
| Lambda.Backend.Handle | AWS_LAMBDA_PROXY.js:21-165 | every answer carries the CORS headers and a status among 200/400/401/409/500; every non-200 answer leaves the table unchanged; preflight answers 200; an unparsable body gives 500; an unknown action gives 400 naming it; a database error gives 500 with its message; with no database error, each of the twelve actions gives the answer and the new table of its own operation (as in the rows above, including one listed item per course or user key); every key still holds the item with that id |
| App.FilteredCourses | App.tsx:106-111 | every shown course is in the catalogue and passes the category and search tests; a chosen category other than 'All' admits only courses of exactly that category |
| App.FilteredCoursesKeepOrder | App.tsx:106 | the shown courses are a subsequence of the catalogue |
| App.FilteredCoursesExactly | App.tsx:106-111 | a course is shown if and only if its category matches and the lower-cased query occurs at some position of its lower-cased title or description |
| App.SearchIgnoresQueryCase | App.tsx:108-109 | lower-casing the query first shows the same courses as the query as typed, because lower-casing twice changes nothing more than once |
| App.UnfilteredCatalogue | App.tsx:107-109 | with 'All' and an empty query the whole catalogue is shown, in order |
| App.AvailableCategories | App.tsx:124 | 'All' followed by the configured categories in order, or just 'All' without settings |
| App.MainPanel | App.tsx:144-147 | the dashboard is shown if and only if the view is 'admin' and the user's role is ADMIN; the info page if and only if the view is 'info' with a topic |
| App.Shell.constructor | App.tsx:18-26 | the page opens unauthenticated with no user (and so keeps "authenticated exactly when a user is held"), on the home view, with the sign-in dialog closed, holding whatever session the browser kept |
| App.Shell.HandleLogin | App.tsx:76-80 | authenticated with that user, session stored, sign-in dialog closed |
| App.Shell.HandleLogout | App.tsx:82-86 | no user, unauthenticated, session removed, home view |
| App.Shell.RestoreSession | App.tsx:47-58 | with a saved session whose id is among the stored users, the fresh stored record becomes the authenticated user; otherwise the authentication state is unchanged; "authenticated exactly when a user is held" is kept |
| App.Shell.RefreshUser | App.tsx:113-121 | the held user is replaced by the stored record with its id, if there is one; the authentication flag is unchanged and "authenticated exactly when a user is held" is kept |
| App.LogoutHidesDashboard | App.tsx:144 | after logout the dashboard is not shown, whatever the view |
| AdminDashboard.FindCourse | components/AdminDashboard.tsx:47 | the first catalogue entry with the id, and none exactly when no entry has it |
| AdminDashboard.CourseTitle | components/AdminDashboard.tsx:47 | the title of the first catalogue entry with the id; 'Unknown Course' when there is no such entry or that entry's title is empty; never empty |
| AdminDashboard.CatalogueTitles | components/AdminDashboard.tsx:47 | against the built-in catalogue, id "2" resolves to its title and an unknown id to 'Unknown Course' |
| AdminDashboard.RequestsOf | components/AdminDashboard.tsx:43-48 | one row per pending entry of the user, in pending order, carrying the user's id and email and the course title |
| AdminDashboard.PendingRequests | components/AdminDashboard.tsx:42-49 | the table has as many rows as there are pending entries over all users |
| AdminDashboard.PendingRequestsAppend | components/AdminDashboard.tsx:42-49 | the table of two user lists is the two tables one after the other: rows are ordered by user |
| AdminDashboard.PendingRequestsComplete | components/AdminDashboard.tsx:42-49 | every (user, pending course) pair has its row |
| AdminDashboard.PendingRequestsSound | components/AdminDashboard.tsx:42-49 | every row comes from some user's pending course |
| AdminDashboard.ApprovedRequestLeavesTable | components/AdminDashboard.tsx:24-27 | after approval the user has no row for that course |
| AdminDashboard.FilteredUsers | components/AdminDashboard.tsx:61-63 | every listed user is a stored user whose lower-cased email includes the lower-cased query |
| AdminDashboard.FilteredUsersExactly | components/AdminDashboard.tsx:61-63 | the list is a subsequence of the users, and a user is listed if and only if the query occurs in its email, case-insensitively |
| AdminDashboard.EmptySearchListsAll | components/AdminDashboard.tsx:61-63 | an empty query lists every user, in order |
| AdminDashboard.FormatLastSeen | components/AdminDashboard.tsx:51-58 | 'Never' exactly for a missing or empty timestamp; 'Just now' exactly when the age is under 60000 ms, negative ages included; otherwise under 3600000 ms the whole minutes, 1 to 59; otherwise, or for an unparsable date, the clock time |
| AdminDashboard.MinutesLabel | components/AdminDashboard.tsx:57 | the label is the decimal minute count followed by "m ago": digits only, no leading zero, and the digits read back as the count |
| AdminDashboard.Label | components/AdminDashboard.tsx:52-57 | the texts 'Never', 'Just now' and the minutes label; only the clock time has no fixed text |
| AdminDashboard.FutureTimestampIsJustNow | components/AdminDashboard.tsx:56 | a timestamp ahead of the clock reads 'Just now' |
| AdminDashboard.LastSeenAdvances | components/AdminDashboard.tsx:56-57 | as the clock advances a minutes label never returns to 'Just now' and its count never decreases |
| AdminDashboard.GrantableCourses | components/AdminDashboard.tsx:193 | the offered courses are a subsequence of the catalogue, none of them enrolled |
| AdminDashboard.GrantableExactly | components/AdminDashboard.tsx:193 | a course is offered if and only if it is in the catalogue and its id is not enrolled |
| AdminDashboard.GrantThenLockOffersAgain | components/AdminDashboard.tsx:193 | a granted course is no longer offered; locking it makes it offered again |
| AdminDashboard.ActiveCount | components/AdminDashboard.tsx:252 | the "Active (5m)" counter is the number of positions in the user list whose user was active in the last five minutes, so at most the number of users |
| AdminDashboard.ActiveUsersAreOnline | components/AdminDashboard.tsx:252-270 | every user counted active (under 300000 ms) is shown online (under 600000 ms), so the counter never exceeds the online users |
| CourseModal.IsUnlocked | components/CourseModal.tsx:15 | free courses are unlocked for all; administrators see every course; a paid course without a user is locked; for a paid course and a learner, unlocked if and only if enrolled |
| CourseModal.IsPending | components/CourseModal.tsx:16 | pending exactly when a user is signed in and the course id is in that user's pending requests; never pending while signed out |
| CourseModal.InitialVideo | components/CourseModal.tsx:17 | the first video, or none exactly when the course has no videos |
| CourseModal.ScreenFor | components/CourseModal.tsx:47-116 | when unlocked, the selected video, or the empty notice when none is selected; otherwise the scanner when open, the pending notice when a request is pending, else the unlock offer; each screen appears exactly in its case |
| CourseModal.Modal.constructor | components/CourseModal.tsx:17-18 | the dialog opens on the first video with the scanner hidden |
| CourseModal.Modal.OpenScanner | components/CourseModal.tsx:109 | "Unlock Now" shows the scanner |
| CourseModal.Modal.HandleRequestUnlock | components/CourseModal.tsx:20-28 | without a user only the sign-in request is raised and no unlock request is sent; with a user the unlock request for that user and course is sent, the scanner hidden, then the user refreshed |
| CourseModal.Modal.SelectVideo | components/CourseModal.tsx:134-140 | a playlist click selects the video when unlocked and does nothing when locked (the button is disabled) |
| CourseModal.RequestApproveLock | components/CourseModal.tsx:15-16 | after a request the course shows as pending; after its approval it is unlocked and no longer pending; after a lock a paid course is locked again |
| CourseModal.DialogRequestKeepsExclusive | components/CourseModal.tsx:63-88 | a request sent from the scanner is for a course the dialog's user record is not enrolled in, so it preserves "no course both enrolled and pending" for that record |
| HeroCarousel.NextSlide | components/HeroCarousel.tsx:57-59 | from a valid index the next index is valid: one more, wrapping from the last slide to 0 |
| HeroCarousel.PrevSlide | components/HeroCarousel.tsx:61-63 | from a valid index the previous index is valid: one less, wrapping from 0 to the last slide |
| HeroCarousel.NextPrevInverse | components/HeroCarousel.tsx:58-62 | the two arrows undo each other on every valid index |
| HeroCarousel.FourNextsReturn | components/HeroCarousel.tsx:58 | four steps forward return to the start |
| HeroCarousel.Step | components/HeroCarousel.tsx:141 | the right arrow steps forward, the left arrow steps back, a dot click sets the index to that dot's position; from a valid index every valid click stays a valid index |
| HeroCarousel.ActiveFlags | components/HeroCarousel.tsx:82 | slide `i` is shown if and only if `i` is the current index |
| HeroCarousel.RunStaysInRange | components/HeroCarousel.tsx:54-63 | from a valid index, any sequence of arrow and dot clicks keeps the index valid |
| HeroCarousel.ExactlyOneSlideShown | components/HeroCarousel.tsx:78-83 | from the first slide, after any clicks exactly one slide is shown, the one the index names |

## Left out

- Network I/O: the HTTP call to the backend is the parameter `cloud`. Only replies to an operation's own action are modelled. The nested `getAllUsers` and `batchUpdateUsers` calls of the local fallback are taken to answer null, which is what happens with no backend configured. `batchUpdateUsers` is not an action the backend knows, so it answers 400.
- Mixed runs, where the backend answers one call and not the next one inside the same operation, are not modelled.
- JSON serialisation of the browser storage and of responses is not modelled. `delay()` is not modelled either.
- DynamoDB: the table is a map. Scan pagination, item-size limits and consistency are not modelled. A failing call is the parameter `fault`, and any failure is taken to happen before the first write.
- Lambda.Backend.Login: the code returns the first match in scan order. The scan order is unspecified, so the model picks any matching user item.
- Lambda.Backend.Handle: the exact messages of a JSON parse error and of the TypeError that a non-user item raises are named constants, not the runtime's text. A request field missing from the body (JavaScript `undefined`) is not modelled. A missing body parses as `{}`, which is the payload with action "undefined".
- Dates: `new Date().toISOString()`, `Date.now()` and `Math.random()` are parameters. Parsing a timestamp is the parameter `toMs`.
- AdminDashboard.FormatLastSeen: the locale-formatted clock time is not rendered; the label keeps the timestamp it would format.
- The floating-point progress width (`components/AdminDashboard.tsx:290`) is not modelled.
- The in-place sort by last activity (`components/AdminDashboard.tsx:269`) is not modelled.
- `toLowerCase` is modelled on ASCII letters only. Unicode case mapping is not modelled.
- Timers, polling and hover pause are not modelled (`components/AdminDashboard.tsx:15`, `components/HeroCarousel.tsx:65-69`).
- CourseModal.DialogRequestKeepsExclusive: the dialog reads the session copy of the user it was given. That copy can be stale (an approval made in another tab or on another device), and a stale copy can show a course as locked after it was enrolled. The lemma assumes the copy is current.
- The `db.requestUnlock` call in the course dialog is not awaited. Its interleaving with the refresh is not modelled; the dialog's effects are returned in program order.
- JSX rendering and styling are not modelled. The static content of the info, footer and header components, the DOM mount, the build script and the LLM helper are not part of this model.
- The course card repeats the dialog's access rule (`components/CourseCard.tsx:12`), which `CourseModal.IsUnlocked` covers.
