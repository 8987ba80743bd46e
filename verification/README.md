# river_garden training portal — a Dafny model

river_garden is a training portal for care staff. A FastAPI/SQLAlchemy server
keeps users, courses, enrollments, certificates, notifications and
supervisor assignments. A React client lets learners work through courses
and lets managers and admins watch and steer their teams. This project
models the parts of both that make decisions:

- **The server's store and its writing endpoints** (`Db`, `Crud`,
  `Enrollments`, `Lifecycle`, `AdminApi`). The database is an immutable
  value: one sequence per table in row order, with users keyed by id. Each
  endpoint is a function from a store to a new store, or to an HTTP error.
  - enrolling and assigning courses, which create enrollments idempotently;
  - reporting progress, the status state machine of `update_progress`;
  - forcing completion;
  - issuing at most one certificate per (user, course);
  - linking supervisors and members.
- **The read endpoints** (`Catalog`, `Stats`): the course catalogue a user
  sees, the supervisor and manager listings, and the counting statistics.
- **Reachable stores** (`Trace`). Any sequence of writing requests keeps
  the store's uniqueness guarantees. In particular there is never a second
  certificate for the same (user, course).
- **The course player** (`CoursePlayer`): an event machine over page
  changes, save completions and document loading. Saves are single-flight,
  progress only moves forward, completion is requested at most once, and
  offline saves overwrite one storage key per course.
- **The client's pure decision functions**:
  - expiry buckets and `calculateCompletion` (`Utils`, `JsMath`);
  - the course list's search, category and status tabs (`CoursesPage`);
  - the dashboard's "continue learning" list (`Dashboard`);
  - bulk assignment (`BulkAssignment`);
  - the admin dashboard's search, compliance bands and last-login labels
    (`AdminDashboard`);
  - the team card's colour (`TeamMemberCard`);
  - notification read-marking and the unread badge (`Notifications`,
    `Navbar`);
  - the two supervisor pages (`AssignSupervisorPage`,
    `UnassignSupervisorPage`);
  - the route guard, session restore and logout of the application shell
    (`AppRoutes`).

Time is a parameter. The server works in whole days (`today`); the client
works in milliseconds (`now`), where a date that does not parse is a
distinct `Invalid` value that behaves like JavaScript's `NaN`. JavaScript's
`Math.round`, `Math.ceil` and `Math.floor` are applied to the exact
rational quotient, not to the rounded double JavaScript computes; "## Left
out" names the members where the two can differ.

Behaviours of the code that the model states as they are:

- The server sends hyphenated statuses (`in-progress`, `not-started`). The
  course list upper-cases them to `IN-PROGRESS` and `NOT-STARTED`, which
  never equal the tab keys `IN_PROGRESS` and `NOT_STARTED`. So an in-progress
  course shows in neither tab, and the "not started" tab lists exactly the
  courses without an enrollment (`CoursesPage.HyphenatedStatusMissesTabs`,
  `CoursesPage.NotStartedMeansUnenrolled`).
- The titles "Team Leader", "Care Manager" and "Director" are tested by the
  team endpoints, the dashboard route and the assign-supervisor page. None
  of them is a `UserRole` value. Of the six roles, only `Admin` passes the
  manager check. The team dashboard is unreachable for server-issued roles.
  The assign-supervisor page offers no supervisors, and lists
  Supervisor-role users as members.
- Reported progress is merged with `max` and never clamped. A report of 250
  is stored as 250.
- The admin endpoints that link and unlink supervisors take no token.
- Both ids of a supervisor link reference `users.id` (back_end/models.py:69-70), and the server runs on PostgreSQL, which enforces those foreign keys. Linking a new pair that names an id that is no user fails when the session flushes. The route does not catch this, so the answer is a 500 and nothing is stored.
- The admin dashboard (frontend/src/pages/AdminDashboard.js) and the bulk assignment page (frontend/src/pages/BulkCourseAssignment.js) are neither imported nor routed in frontend/src/App.js, so `/admin/bulk-assign` falls through to `/login`. Both pages call `adminAPI.getUsersTrainingStatus`, and the admin dashboard also calls `getDashboardStats`. The bulk page calls `bulkAssignCourse`. None of these exists in frontend/src/services/api.js, so each call throws inside its `try`: the pages load no users, and an assignment never reaches the server. The model keeps the pages' pure filtering, counting and guard logic.
- `getComplianceColor` on the team card uses thresholds 90/75. The admin
  dashboard uses 80/50.

- The course player has no video, seeking or live sessions. It shows one
  hard-coded paged PDF (frontend/src/pages/CoursePlayer.js:30). It asks the
  server to complete the course by itself, the first time progress reaches
  100; the learner never triggers it.
- The player caps progress from above only, at 100. The server does not
  clamp at all.
- The admin request wrappers for linking and unlinking supervisors return
  the response body without looking at its status. A 404 from unlinking a
  pair that does not exist therefore counts as success on the page: the
  form clears and a success message shows.

## Model

| member | source | states |
|---|---|---|
| Wrappers.StatusCode | back_end/main.py:1141-1142 | Each modelled error maps to a distinct 4xx/5xx code: 404 exactly for not-found, 403 exactly for forbidden |
| Models.RoleFromValue | back_end/models.py:8-14 | Parsing a string as a role yields a role whose value is that string, or nothing when no role has it |
| Models.RoleValueRoundTrip | back_end/models.py:8-14 | Every one of the six roles is recovered from its stored string, so the six values are distinct |
| Models.ManagerTitlesAreNotRoles | back_end/models.py:8-14 | No role's value is "Team Leader", "Care Manager" or "Director" |
| Models.StatusFromValue | back_end/models.py:35-39 | Exactly the four hyphenated strings name a status, each naming the status whose value it is |
| Models.StatusValueRoundTrip | back_end/models.py:35-39 | Every status is recovered from its stored string |
| Models.NewCourse | back_end/models.py:77-100 | A course created with only its required columns expires after 365 days, has one module, no assigned roles and video delivery |
| Models.NewEnrollment | back_end/models.py:108-122 | A new enrollment is not started, at progress 0, without score or completion date |
| Models.NewNotification | back_end/models.py:149-157 | A new notification is unread |
| Db.FindCourse | back_end/main.py:1095-1097 | The course lookup returns a course of the catalogue with that id, or nothing exactly when no course has it |
| Db.EnrollmentIndex | back_end/main.py:1136-1139 | The (user, course) lookup finds the first matching enrollment, and nothing exactly when none matches |
| Db.EnrollmentIndexById | back_end/crud.py:96-98 | The lookup by row id finds the first row with that id, and nothing exactly when none has it |
| Db.UniqueEnrollmentIndex | back_end/main.py:1136-1139 | When enrollments are unique per (user, course), the lookup finds the only matching row |
| Crud.PairIndex | back_end/crud.py:165-167 | The pair lookup finds the first row for (supervisor, member), and nothing exactly when there is none |
| Crud.AssignSupervisor | back_end/crud.py:163-181 | An existing pair is returned with the store unchanged; a new pair naming an id that is no user fails (foreign keys of back_end/models.py:69-70) with nothing stored; otherwise one row is appended with the next id and the member gets the supervisor as manager; courses, enrollments and certificates are untouched, and uniqueness of pairs is kept |
| Crud.AssignSupervisorIdempotent | back_end/crud.py:165-169 | After a successful assignment, assigning the same pair again returns the same row and changes nothing |
| Crud.UnassignSupervisor | back_end/crud.py:184-193 | Reports success exactly when the pair existed; then one row is deleted, every other row kept, and (with unique pairs) the pair is absent; users and managers are untouched |
| Crud.UnassignKeepsPair | back_end/crud.py:184-193 | Every other pair survives an unassignment |
| Crud.UnassignAddsNoPair | back_end/crud.py:184-193 | An unassignment creates no pair |
| Crud.UnassignHasPair | back_end/crud.py:184-193 | With unique pairs, a pair is present after unassigning (s, m) exactly when it was present before and is not (s, m) |
| Crud.TeamForSupervisor | back_end/crud.py:196-200 | The team is exactly the existing users named as member in some row of the supervisor |
| Crud.AssignSupervisorTeam | back_end/crud.py:163-181 | A successful assignment adds the member, if the user exists, to that supervisor's team and changes no other supervisor's team |
| Crud.UnassignSupervisorTeam | back_end/crud.py:184-200 | With unique pairs, unassigning removes exactly that member from that team and changes no other supervisor's team |
| Crud.UpdateEnrollment | back_end/crud.py:94-109 | Unknown id gives nothing; otherwise only the supplied status, progress and score replace the row's, and nothing else in the store changes |
| Crud.UpdateEnrollmentNothing | back_end/crud.py:100-105 | An update supplying no field leaves the store as it was |
| Crud.UpdateEnrollmentIdempotent | back_end/crud.py:94-109 | Repeating the same update changes nothing further |
| Crud.SameIdsSameIndex | back_end/crud.py:96 | The lookup by id depends only on the row ids, so rewriting other fields keeps it |
| Enrollments.IsManager | back_end/main.py:426-432 | A user passes the manager check exactly when their role is Admin |
| Enrollments.CreateEnrollment | back_end/crud.py:75-87 | A new enrollment row is appended with the next id, becomes the one found for its (user, course), and keeps enrollments unique |
| Enrollments.PrefixIndex | back_end/crud.py:75-87 | Appending the first row of a (user, course) makes it the one the lookup finds |
| Enrollments.EnrollInCourse | back_end/main.py:1088-1120 | 404 exactly for an unknown course; an existing enrollment is returned unchanged; otherwise one not-started row at progress 0, due `expiry_days` after today and assigned by nobody, is appended; only enrollments change and they stay unique |
| Enrollments.EnrollIdempotent | back_end/main.py:1099-1105 | Enrolling again, on any later day, returns the same enrollment and changes nothing |
| Enrollments.AssignCourseToMember | back_end/main.py:639-711 | 403 for non-managers, 404 for an unknown member or course, and success otherwise; an existing enrollment is reported and nothing changes; otherwise a not-started row assigned by the caller, without due date, is appended, keeping uniqueness |
| Enrollments.SupervisorGuard | back_end/main.py:833-848 | The supervisor endpoints pass exactly a Supervisor whose team holds the member, and answer 403 otherwise |
| Enrollments.SupervisorAssignCourse | back_end/main.py:884-951 | Guard failures give 403; success exactly when the guard passes and the course exists; an existing enrollment is returned, otherwise a not-started row assigned by the supervisor and due `expiry_days` after today is appended, keeping uniqueness |
| Enrollments.SupervisorMemberEnrollments | back_end/main.py:823-872 | Succeeds exactly when the guard passes, and then lists exactly the member's enrollments in row order |
| Enrollments.SupervisorRemoveCourse | back_end/main.py:963-1006 | 403 for non-supervisors, 404 for an unknown id, 403 when the owner is not in the team; otherwise exactly that row is deleted and nothing else changes |
| AdminApi.AssignSupervisorApi | back_end/main.py:786-791 | A 500 exactly when the pair is new and an id is no user; otherwise the pair exists afterwards and the answered id is that of a row for it; an existing pair leaves the store unchanged |
| AdminApi.UnassignSupervisorApi | back_end/main.py:794-801 | 404 exactly when the pair did not exist; otherwise one row is removed, the pair is gone (with unique pairs) and users are untouched |
| AdminApi.AssignThenUnassign | back_end/main.py:786-801 | After a successful assignment, unassigning the pair succeeds, leaves no such pair and takes the member out of the supervisor's team |
| Lifecycle.PayloadProgress | back_end/main.py:1134 | An absent progress field reads as 0; a present one is taken as given |
| Lifecycle.CertificateScore | back_end/main.py:1169 | A certificate takes the enrollment's score, or 100 when it is missing or zero |
| Lifecycle.Advance | back_end/main.py:1145-1154 | Progress becomes the larger of stored and reported, unclamped; not-started moves to in-progress only on a positive report; reaching 100 completes and stamps today; completed stays completed and overdue never changes below 100; a completing report stamps today, and an already-completed enrollment keeps its completion date |
| Lifecycle.AdvanceLowerKeepsProgress | back_end/main.py:1148 | A report no larger than the stored progress (including a negative one) leaves the progress as it was |
| Lifecycle.AdvanceIdempotent | back_end/main.py:1145-1154 | Applying the same report twice is applying it once |
| Lifecycle.IssueCertificate | back_end/main.py:1157-1173 | Nothing happens when a certificate exists for (user, course); otherwise one with a fresh number, expiring `expiry_days` after today, is appended, and only a missing course makes it fail; certificates stay unique |
| Lifecycle.UpdateProgress | back_end/main.py:1123-1176 | 404 exactly without an enrollment; success whenever the enrollment exists and either its course does or a certificate already exists; otherwise only that enrollment advances, the reply carries its new progress and status, and a certificate exists after a completing report; certificates are only appended and stay unique; any certificate issued is exactly the one the certificate step issues for this (user, course): score `score or 100`, expiry `expiry_days` after today, the next number; a report that does not complete leaves the certificates and their counters untouched |
| Lifecycle.MarkCourseComplete | back_end/main.py:1179-1223 | 404 exactly without an enrollment; success whenever the enrollment exists and either its course does or a certificate already exists; otherwise that enrollment is completed at exactly 100 today whatever it was, its due date and assigner kept, no other changes, and a certificate exists afterwards, new only if there was none (the certificate counters move only then); any certificate issued is exactly the one the certificate step issues for this (user, course): score `score or 100`, expiry `expiry_days` after today, the next number |
| Lifecycle.UpdateProgressAfterCompletion | back_end/main.py:1145-1157 | Any report on a completed enrollment keeps it completed and issues nothing |
| Lifecycle.MarkCompleteTwice | back_end/main.py:1201-1216 | Forcing completion twice issues no second certificate |
| Lifecycle.SameKeysSameIndex | back_end/main.py:1136-1139 | The (user, course) lookup depends only on user and course ids |
| Catalog.Visible | back_end/main.py:355-366 | A course is visible exactly when its assigned roles name the user's role or some enrollment links the user to it |
| Catalog.IdsOf | back_end/main.py:357-364 | Every listed course's id is in the id set |
| Catalog.AppendNewId | back_end/main.py:362-364 | Adding a course with an unseen id keeps ids distinct and adds exactly that id |
| Catalog.GetCourses | back_end/main.py:355-366 | Lists only visible catalogue courses (role assigned or enrolled), in catalogue order, without repeated ids, and every visible course's id appears |
| Stats.CountStatus | back_end/main.py:1259-1262 | A count is at most the number of enrollments and is zero exactly when no enrollment has the status |
| Stats.CountStatusSnoc | back_end/main.py:1259-1262 | A row appended to the list adds one to the count of its own status and leaves the other counts as they were |
| Stats.FreshRowAddsOneCourse | back_end/main.py:1250-1281 | A new not-started, unscored row of a user raises that user's course total by one and leaves completed, in progress, overdue and the average score as they were |
| Stats.EnrollAddsOneCourse | back_end/main.py:1088-1120 | A fresh self-enrollment raises the user's course total by one and leaves every other count and the average score as they were |
| Stats.StatusCountsSum | back_end/main.py:1259-1262 | The four status counts add up to the number of enrollments |
| Stats.RateBounds | back_end/main.py:1264 | A part of a whole gives a rate in [0, 100], equal to 100 exactly when the part is all of a non-empty whole, and 0 for an empty whole |
| Stats.Scores | back_end/main.py:1270 | The listed scores are exactly the set scores of the enrollments |
| Stats.SumBounds | back_end/main.py:1271 | A sum lies between the count times any lower and upper bound of its terms |
| Stats.AverageBounds | back_end/main.py:1271 | An average lies within any bounds all values respect |
| Stats.EnrollmentsOf | back_end/main.py:1255-1257 | Exactly the enrollments owned by the user |
| Stats.GetUserStats | back_end/main.py:1250-1281 | The total counts the user's enrollments; completed, in-progress and overdue count the user's enrollments with that status; the average score is the mean of their set scores; completed + in progress + overdue ≤ total; hours equal completed; the compliance rate is completed/total as a percentage, 0 for no courses, in [0, 100] and 100 exactly when all are completed |
| Stats.UserAverageScoreBounds | back_end/main.py:1270-1271 | When every set score is a percentage, so is the average score |
| Stats.EnrollmentsOfAll | back_end/main.py:1039-1041 | Exactly the enrollments owned by a user of the team |
| Stats.GetSupervisorStats | back_end/main.py:1018-1060 | 403 exactly for non-supervisors; otherwise team size, total enrollments of the team, active and completed as the counts of the team's in-progress and completed enrollments, active + completed ≤ total, and the completion rate is completed/total, in [0, 100] and 0 without enrollments |
| Stats.ManagedBy | back_end/main.py:437-439 | Exactly the existing users whose manager is the caller |
| Stats.GetTeamMembers | back_end/main.py:412-466 | 403 exactly when the caller fails the manager check; otherwise the users they manage |
| Stats.GetTeamStats | back_end/main.py:523-583 | 403 exactly when the caller fails the manager check; hours and overdue are the completed and overdue counts over the team's enrollments; compliance is hours/total, in [0, 100] and 0 without enrollments |
| Stats.GetMemberEnrollments | back_end/main.py:590-636 | 403 exactly when the caller fails the manager check; otherwise exactly the member's enrollments |
| Stats.ManagerSeesAnyMember | back_end/main.py:600-611 | An Admin obtains the enrollments of any user, managed by them or not |
| Stats.GetSupervisorTeam | back_end/main.py:804-820 | 403 exactly for non-supervisors; otherwise exactly the existing users paired with the caller |
| Trace.Step | back_end/main.py:1088-1223 | One request of any kind keeps the store's uniqueness guarantees and leaves the catalogue alone |
| Trace.Run | back_end/main.py:1088-1223 | Any sequence of requests keeps the uniqueness guarantees |
| Trace.OneCertificatePerCourse | back_end/main.py:1157-1173 | In every store reachable from an empty one, no two certificates share a (user, course) |
| Trace.SameKeysKeepUnique | back_end/main.py:1145-1154 | Rewriting an enrollment without changing its user and course keeps enrollments unique |
| JsMath.Round | frontend/src/lib/utils.js:38 | `Math.round`: the integer within half of x, halves going up |
| JsMath.RoundUnique | frontend/src/lib/utils.js:38 | That integer is the only one in the window, so the model of `Math.round` is determined |
| JsMath.Ceil | frontend/src/lib/utils.js:22 | `Math.ceil`: the least integer not below x |
| JsMath.CeilUnique | frontend/src/lib/utils.js:22 | That integer is the only one in its window |
| JsMath.RoundPercent | frontend/src/pages/CoursePlayer.js:68 | The integer percentage is the nearest whole to part/whole·100, for either sign of the whole |
| JsMath.RoundPercentIsRound | frontend/src/pages/CoursePlayer.js:68 | The integer form equals `Math.round` of the exact quotient |
| JsMath.RoundPercentBounds | frontend/src/lib/utils.js:38 | A part of a positive whole rounds into [0, 100], the whole to exactly 100 |
| JsMath.RoundPercentMonotone | frontend/src/pages/CoursePlayer.js:68 | A larger part never rounds to a smaller percentage |
| JsMath.CeilDiv | frontend/src/lib/utils.js:22 | The ceiling of a quotient by a positive divisor, characterised by its window |
| JsMath.CeilDivIsCeil | frontend/src/lib/utils.js:22 | The integer form equals `Math.ceil` of the exact quotient |
| Utils.CalculateCompletion | frontend/src/lib/utils.js:36-39 | 0 for a zero total; otherwise `Math.round` of the percentage, in [0, 100] for a part of the total and 100 when all is completed |
| Utils.CompletionMonotone | frontend/src/lib/utils.js:36-39 | Completing more never shows a smaller percentage |
| Utils.DaysUntilExpiry | frontend/src/lib/utils.js:18-24 | NaN exactly for an invalid date; otherwise the ceiling of the difference in days, so the difference lies in the day before it |
| Utils.ClassifyDays | frontend/src/lib/utils.js:27-33 | Expired below 0, critical for 0–7, warning for 8–30, valid above 30; NaN is valid |
| Utils.ClassifyMonotone | frontend/src/lib/utils.js:28-32 | More days never gives a more urgent bucket |
| Utils.GetExpiryStatus | frontend/src/lib/utils.js:27-33 | An invalid date is valid; a passed date is expired or critical, one a whole day past is expired, one more than 30 days ahead is valid |
| Utils.ExpiryMonotone | frontend/src/lib/utils.js:27-33 | A later expiry date is never in a more urgent bucket |
| Client.EmptySearchMatches | frontend/src/pages/BulkCourseAssignment.js:55-59 | The empty search term matches every user |
| CoursePlayer.Load | frontend/src/pages/CoursePlayer.js:21-59 | A fresh page has no calls, no save in flight and page 1; with an enrollment for the course it takes its progress and is completed when progress ≥ 100 or the status is "completed"; without one it is at 0 and not completed |
| CoursePlayer.CalcProgress | frontend/src/pages/CoursePlayer.js:65-72 | Without a page count the current progress; otherwise at most 100, `Math.round` of page/pages·100 below the cap, non-negative for a page in range, and 100 on the last page |
| CoursePlayer.Save | frontend/src/pages/CoursePlayer.js:75-97 | Dropped while a save is in flight; offline it overwrites this course's storage key and nothing else; online it records one save call and marks a save in flight |
| CoursePlayer.HandlePageChange | frontend/src/pages/CoursePlayer.js:99-113 | No change without a page count or for a page out of range; progress never decreases and only rises to the page's value; completion is set only from not-completed at ≥ 100; nothing is sent or stored unless progress rises. For a page in range: the page moves there; a higher page progress is shown and saved as `saveProgress` does; when that progress is at least 100 and the course was not completed, it is marked completed and one completion request follows the save |
| CoursePlayer.Step | frontend/src/pages/CoursePlayer.js:61-113 | A loaded document sets the page count and nothing else; a settled save clears the in-flight flag and nothing else; a page change is handled as above |
| CoursePlayer.Saved | frontend/src/pages/CoursePlayer.js:88 | A value is among those sent exactly when some call saved it |
| CoursePlayer.Completions | frontend/src/pages/CoursePlayer.js:110 | The number of completion requests is zero exactly when no call is one |
| CoursePlayer.AppendCall | frontend/src/pages/CoursePlayer.js:88-110 | A new call adds its value to the sent values or one to the completion count |
| CoursePlayer.SaveGood | frontend/src/pages/CoursePlayer.js:75-97 | Saving a progress above every earlier sent value keeps sent values strictly increasing and within 100 |
| CoursePlayer.CompleteGood | frontend/src/pages/CoursePlayer.js:108-111 | The first completion request keeps the page invariant |
| CoursePlayer.PageChangeGood | frontend/src/pages/CoursePlayer.js:99-113 | A page change keeps the invariant and writes storage only under this course's key |
| CoursePlayer.StepGood | frontend/src/pages/CoursePlayer.js:61-113 | Every event keeps the invariant, never lowers progress, never unsets completion and never sends a second completion |
| CoursePlayer.Run | frontend/src/pages/CoursePlayer.js:61-113 | Any sequence of events keeps the invariant, never lowers progress, only appends calls, and sends no completion once completed |
| CoursePlayer.LoadGood | frontend/src/pages/CoursePlayer.js:34-59 | A freshly loaded page satisfies the invariant |
| CoursePlayer.AtMostOneCompletion | frontend/src/pages/CoursePlayer.js:108-111 | Whatever happens after loading, at most one completion request is sent, none if it loaded completed |
| CoursePlayer.InFlightDropsSave | frontend/src/pages/CoursePlayer.js:77 | A page change while a save is in flight sends no save and writes no storage |
| CoursePlayer.OfflineOverwrites | frontend/src/pages/CoursePlayer.js:80-86 | Offline, an improvement replaces the course's stored record with the new progress |
| CoursesPage.NormalizeStatus | frontend/src/pages/Courses.js:53-56 | Missing or empty reads as NOT_STARTED; any other status keeps its length and is upper-cased character by character |
| CoursesPage.GetEnrollment | frontend/src/pages/Courses.js:58-60 | The first enrollment in the course, and nothing exactly when there is none |
| CoursesPage.FilteredCourses | frontend/src/pages/Courses.js:62-73 | Exactly the courses matching the search (title or description, ignoring case) and the category, in order |
| CoursesPage.NoFilterKeepsAll | frontend/src/pages/Courses.js:62-73 | An empty search with category "all" keeps every course |
| CoursesPage.FilteredByStatus | frontend/src/pages/Courses.js:75-91 | Exactly the filtered courses whose normalised enrollment status fits the tab, in order |
| CoursesPage.OtherTabKeepsAll | frontend/src/pages/Courses.js:87-88 | Any key other than the three tab names keeps every filtered course |
| CoursesPage.TabsDisjoint | frontend/src/pages/Courses.js:80-86 | No course is in two of the three status tabs |
| CoursesPage.HyphenatedStatusMissesTabs | frontend/src/pages/Courses.js:53-56 | The server's in-progress and not-started values normalise to hyphenated strings that no tab accepts |
| CoursesPage.CompletedStatusHitsTab | frontend/src/pages/Courses.js:83-84 | The server's completed value does reach the COMPLETED tab |
| CoursesPage.NotStartedMeansUnenrolled | frontend/src/pages/Courses.js:75-91 | With server status values, a course is in the NOT_STARTED tab exactly when the user has no enrollment in it |
| Dashboard.Active | frontend/src/pages/Dashboard.js:40 | An in-progress enrollment is always active, a completed one never; any other is active exactly when it has progress |
| Dashboard.CourseFor | frontend/src/pages/Dashboard.js:43 | A catalogue course with the enrollment's course id, and nothing exactly when there is none |
| Dashboard.ActiveCourses | frontend/src/pages/Dashboard.js:39-45 | At most three items, each an in-progress or started, uncompleted enrollment paired with its course; they are the first active enrollments in order |
| Dashboard.ActiveLeftOutOnlyWhenFull | frontend/src/pages/Dashboard.js:39-41 | An active enrollment is left out only when the list already holds three |
| BulkAssignment.Toggle | frontend/src/pages/BulkCourseAssignment.js:45-53 | Flips the membership of the id and of no other id |
| BulkAssignment.ToggleInvolution | frontend/src/pages/BulkCourseAssignment.js:45-53 | Toggling twice restores the exclusions |
| BulkAssignment.FilteredUsers | frontend/src/pages/BulkCourseAssignment.js:55-59 | Exactly the users whose name, email or role contains the term ignoring case, in order |
| BulkAssignment.Selected | frontend/src/pages/BulkCourseAssignment.js:61 | Exactly the filtered users not excluded |
| BulkAssignment.Excluded | frontend/src/pages/BulkCourseAssignment.js:62 | Exactly the filtered users excluded |
| BulkAssignment.SelectedExcludedPartition | frontend/src/pages/BulkCourseAssignment.js:61-62 | The two lists partition the filtered users: their lengths add up and each user is in exactly one |
| BulkAssignment.IdsToAssign | frontend/src/pages/BulkCourseAssignment.js:70-72 | Exactly the ids of loaded users not excluded, whatever the search |
| BulkAssignment.IdSetCons | frontend/src/pages/BulkCourseAssignment.js:70-72 | The ids of a list are its head's id and the rest's, and unique ids stay unique in the rest |
| BulkAssignment.AssignedPlusExcluded | frontend/src/pages/BulkCourseAssignment.js:70-72 | With unique ids, the ids to assign plus the excluded loaded ids count all users |
| BulkAssignment.DisplayedCountMatches | frontend/src/pages/BulkCourseAssignment.js:286 | With unique ids and exclusions among them, the displayed "to be assigned" figure is the number of ids sent |
| BulkAssignment.HandleBulkAssign | frontend/src/pages/BulkCourseAssignment.js:64-93 | No request exactly without a course, or without ids to assign; otherwise one request for the course with those ids |
| BulkAssignment.Reset | frontend/src/pages/BulkCourseAssignment.js:91-93 | After a success or the Reset button, course, exclusions and search are cleared |
| BulkAssignment.AfterReset | frontend/src/pages/BulkCourseAssignment.js:297-301 | After a reset every loaded user is shown and would be assigned, and pressing Assign makes no request |
| BulkAssignment.AllIds | frontend/src/pages/BulkCourseAssignment.js:70-72 | Without exclusions every loaded id is sent, in order |
| Text.LowerChar | frontend/src/pages/AssignSupervisor.js:29 | Lower-casing a character leaves it non-uppercase and keeps whether it is whitespace |
| Text.UpperChar | frontend/src/pages/Courses.js:55 | Upper-casing a character leaves it non-lowercase |
| Text.Lower | frontend/src/pages/AssignSupervisor.js:29 | Lower-casing keeps the length and maps each character |
| Text.Upper | frontend/src/pages/Courses.js:55 | Upper-casing keeps the length and maps each character |
| Text.LowerIdempotent | frontend/src/pages/AssignSupervisor.js:29 | Lower-casing twice is lower-casing once |
| Text.ContainsEmpty | frontend/src/pages/Courses.js:63-66 | The empty string occurs in every string |
| Text.Trim | frontend/src/pages/AdminDashboard.js:30 | The trimmed string starts and ends without whitespace and is no longer than the input |
| Text.TrimIsInfix | frontend/src/pages/AdminDashboard.js:30 | The trimmed string is the input with only whitespace removed at both ends |
| Text.TrimEmptyIffBlank | frontend/src/pages/AdminDashboard.js:30 | Trimming gives the empty string exactly for a whitespace-only input |
| AdminDashboard.SearchUsers | frontend/src/pages/AdminDashboard.js:28-40 | A blank term shows every user; any other term keeps exactly the users whose name, email or role contains it ignoring case; always in order |
| AdminDashboard.SearchIdempotent | frontend/src/pages/AdminDashboard.js:28-40 | Searching the result again with the same term changes nothing |
| AdminDashboard.ComplianceColor | frontend/src/pages/AdminDashboard.js:61-65 | Green exactly from 80, yellow exactly from 50 below 80, red exactly below 50 |
| AdminDashboard.ComplianceBadge | frontend/src/pages/AdminDashboard.js:67-71 | Default exactly from 80, destructive exactly below 50 |
| AdminDashboard.BadgeMatchesColor | frontend/src/pages/AdminDashboard.js:61-71 | Badge and colour agree for every rate: default with green, secondary with yellow, destructive with red |
| AdminDashboard.ColorMonotone | frontend/src/pages/AdminDashboard.js:61-65 | A higher rate never lands in a worse band |
| AdminDashboard.FormatLastLogin | frontend/src/pages/AdminDashboard.js:73-84 | Never exactly without a login; an unparsable date is shown as such; Today and Yesterday exactly for 0 and 1 whole elapsed days; "N days ago" only for other N < 7 with N whole days elapsed; a date only after 7 days |
| AdminDashboard.FutureLoginShowsNegativeDays | frontend/src/pages/AdminDashboard.js:77-82 | A login stamped in the future shows a negative number of days ago |
| TeamMemberCard.ComplianceTone | frontend/src/Component/team/TeamMemberCard.js:10-14 | Success exactly from 90, warning exactly from 75 below 90, destructive exactly below 75 |
| TeamMemberCard.ToneMonotone | frontend/src/Component/team/TeamMemberCard.js:10-14 | A higher rate never gets a worse tone |
| Notifications.UnreadCount | frontend/src/Component/layout/NotificationPanel.js:42 | At most the number of notifications, and zero exactly when all are read |
| Notifications.MarkAsRead | frontend/src/Component/layout/NotificationPanel.js:34-36 | Same length; entries with the id become read, every other entry is unchanged |
| Notifications.HandleMarkAsRead | frontend/src/Component/layout/NotificationPanel.js:30-40 | Same length and ids; an entry is read afterwards exactly when it was read or carries the id |
| Notifications.MarkIdempotent | frontend/src/Component/layout/NotificationPanel.js:34-36 | Marking the same notification twice is marking it once |
| Notifications.MarkLowersUnread | frontend/src/Component/layout/NotificationPanel.js:34-42 | Marking lowers the unread count by exactly the unread entries with the id, so never raises it |
| Notifications.MarkedIsRead | frontend/src/Component/layout/NotificationPanel.js:34-36 | After marking, no entry with the id is unread |
| Navbar.BadgeFor | frontend/src/Component/layout/Navbar.js:95-97 | No badge exactly at 0; "9+" above 9; otherwise the single digit of the count |
| Navbar.NoBadgeIffAllRead | frontend/src/Component/layout/Navbar.js:27-35 | The badge is absent exactly when every fetched notification is read |
| Navbar.Navigation | frontend/src/Component/layout/Navbar.js:44-53 | `/` and `/home` get four in-page anchors; every other path gets three application routes |
| Navbar.NavigationListsDisjoint | frontend/src/Component/layout/Navbar.js:16 | No link appears on both kinds of page |
| AssignSupervisorPage.NormalizeRole | frontend/src/pages/AssignSupervisor.js:27-30 | The normalised role has no uppercase letter, no whitespace at either end, and is no longer than the input |
| AssignSupervisorPage.NormalizeIdempotent | frontend/src/pages/AssignSupervisor.js:27-30 | Normalising twice is normalising once |
| AssignSupervisorPage.Normalized | frontend/src/pages/AssignSupervisor.js:27-30 | Every user in order, with only the role normalised |
| AssignSupervisorPage.Supervisors | frontend/src/pages/AssignSupervisor.js:32-34 | Exactly the normalised users titled "team leader" or "care manager" |
| AssignSupervisorPage.Members | frontend/src/pages/AssignSupervisor.js:36-38 | Exactly the normalised users with neither title nor "admin" |
| AssignSupervisorPage.SupervisorsMembersSplit | frontend/src/pages/AssignSupervisor.js:32-38 | No user is on both lists, and each user is on one unless an admin |
| AssignSupervisorPage.NormalizeRoleValue | frontend/src/pages/AssignSupervisor.js:27-38 | No role value normalises to a supervisor title; exactly Admin normalises to "admin" |
| AssignSupervisorPage.NoSupervisorsForServerRoles | frontend/src/pages/AssignSupervisor.js:32-38 | With server roles the supervisor list is empty and Supervisor-role users are offered as members |
| AssignSupervisorPage.Submit | frontend/src/pages/AssignSupervisor.js:51-55 | A request is made exactly when both selections are non-empty, and it carries them (same guard in frontend/src/pages/UnassignSupervisor.js:33-37) |
| AssignSupervisorPage.AfterRequest | frontend/src/pages/AssignSupervisor.js:57-66 | Any answer with a JSON body, whatever its status, clears the form so that submitting again makes no request; only a request that rejects keeps it |
| AssignSupervisorPage.RefusedUnassignClears | frontend/src/services/api.js:372-385 | Unlinking a pair that does not exist is refused with 404, and the page still clears the form |
| UnassignSupervisorPage.Supervisors | frontend/src/pages/UnassignSupervisor.js:24 | Exactly the users whose role is literally "Supervisor" or "supervisor", in order |
| UnassignSupervisorPage.Team | frontend/src/pages/UnassignSupervisor.js:25 | Exactly the users whose role is none of "Supervisor", "supervisor" and "Admin", in order |
| UnassignSupervisorPage.Admins | frontend/src/pages/UnassignSupervisor.js:25 | Exactly the users whose role is literally "Admin" |
| UnassignSupervisorPage.SupervisorsTeamSplit | frontend/src/pages/UnassignSupervisor.js:24-25 | The lists are disjoint and together hold exactly the users whose role is not "Admin" |
| UnassignSupervisorPage.SplitCounts | frontend/src/pages/UnassignSupervisor.js:24-25 | Supervisors, team and admins count all users |
| UnassignSupervisorPage.SupervisorsAreSupervisorRole | frontend/src/pages/UnassignSupervisor.js:24 | With server roles, the supervisor list is exactly the Supervisor-role users |
| AppRoutes.Render | frontend/src/App.js:405-488 | Login always shows; the four protected routes redirect to login without a user and show a page with one; the admin routes show exactly for an Admin and otherwise redirect to the dashboard; the dashboard is the team dashboard exactly for the two titles; any other path redirects to login |
| AppRoutes.Settle | frontend/src/App.js:405-488 | After following redirects, no user always lands on login, the admin pages are reached only by an Admin, and the team dashboard only with a team title |
| AppRoutes.NonAdminSentToDashboard | frontend/src/App.js:461-485 | A signed-in non-Admin asking for an admin route ends on the dashboard that matches their role |
| AppRoutes.ServerRolesGetPersonalDashboard | frontend/src/App.js:413-417 | A user with a server role always gets the personal dashboard |
| AppRoutes.Restore | frontend/src/App.js:359-371 | A user is restored only when both token and user are stored and non-empty, and then it is the parsed saved user |
| AppRoutes.Logout | frontend/src/App.js:380-385 | Both keys are removed, every other key kept with its value, and no user remains |
| AppRoutes.NoRestoreAfterLogout | frontend/src/App.js:359-385 | After a logout, reloading restores nobody |

## Left out

- Authentication: the token check (JWT via python-jose), bcrypt hashing with its plain-text fallback, and the OAuth2 bearer dependency are foreign library calls. Each endpoint takes the authenticated caller as a `User`.
- Login, signup and the reminders endpoint (a stub at back_end/main.py:733-737); certificate PDF rendering, CORS and start-up: I/O or static.
- Stats.GetUserStats, Stats.GetSupervisorStats, Stats.GetTeamStats: rates are exact rationals; the float division and `round(..., 1)` / `round(...)` of the source are not modelled, and `avg_score` is the exact mean.
- Utils.CalculateCompletion: JavaScript divides in doubles before `Math.round`; the model rounds the exact quotient, so the result can differ by one where the double quotient lands just below a half, e.g. (23, 40) gives 57 in JavaScript and 58 here, and (29, 200) gives 14 and 15.
- CoursePlayer.CalcProgress: the same double-division rounding as `calculateCompletion`; page/pages·100 is rounded exactly, so the shown progress can be one above JavaScript's for such pairs.
- Lifecycle.PayloadProgress: the payload is already an integer; the error `int(...)` raises on a non-numeric payload is not modelled.
- Timestamps `started_date`, `updated_at`, `created_at`, `issue_date` are not kept; due, completion and expiry dates are whole days from a `today` parameter.
- Certificate numbers: `uuid4()` is modelled as a fresh counter, so the uniqueness the column demands is an invariant the model proves rather than a database constraint.
- User email uniqueness (back_end/models.py:48) is a database constraint on signup, which is not modelled.
- The `except Exception` wrappers that turn unexpected failures into 500 responses; only the missing course behind an enrollment is modelled, as `InternalError` with no change.
- The notification endpoints of the server and the compliance trend are not part of this model; the client side of notifications is. The server has no bulk-assign endpoint.
- Case mapping and trimming are ASCII-only; JavaScript's full Unicode `toLowerCase`, `toUpperCase` and `trim` are not modelled.
- Route path matching in React Router: routes are given as a datatype, and `/courses/:courseId` carries its parameter.
- CoursePlayer.Load: the `|| 0` fallback for a missing progress is not modelled, since a client enrollment always carries an integer progress; the server never stores a null one (default 0 at back_end/models.py:115, and back_end/crud.py:102 skips `None`).
- CoursePlayer: the PDF viewer, zoom and scale, and the course record lookup are presentation; a failed load is treated as no enrollment.
- CoursePlayer: React effects and stale closures are not modelled beyond the in-flight flag; events are taken one at a time.
- The client API wrappers in frontend/src/services/api.js that exist are abstracted to "the call happened". Only two behaviours are modelled: `markAsRead` swallows failures, and the supervisor wrappers disregard the status. The wrappers the unrouted admin pages call do not exist, as stated above.
- Dates: time zones, date parsing and `toLocaleDateString` are not modelled; a date is milliseconds or invalid.
- The Navbar's 30-second polling is a timer; the model takes the fetched list.
- AssignSupervisorPage.NormalizeRole: a user without a role (`u.role?.`) is not modelled; every user carries a role string.
- Video, seeking, live sessions and offline replay: none of them exists in the code.
- The presentational pages and components (landing page, footer, profile, certificates, team and supervisor dashboards, dialogs, cards) hold only label lookups.
