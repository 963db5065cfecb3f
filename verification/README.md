# School back end: a Dafny model of its endpoints

This project models the request handlers of a FastAPI/SQLAlchemy school
administration back end in Dafny. The back end keeps classes, subjects,
students, daily and period grades, attendance marks, a weekly timetable of
lesson slots, a bell timetable and user accounts with roles (ADMIN, TEACHER,
STUDENT). It enforces its rules in the handlers themselves:

- the timetable refuses a slot whose room, teacher or class is already busy
  at the same weekday and start time;
- a teacher may mark attendance only for today, and only once one of their
  lessons with the student's class has started;
- grades, period grades and attendance marks are upserted on natural keys;
- the journal matrix and the reports aggregate grades and marks per student;
- class names, bell numbers and emails are checked for uniqueness before
  insert.

The model treats the database as a `Store`: one sequence per table, in
insertion order. `.scalars().first()` picks the first match in that order and
`db.get` picks the first row with the key. Every endpoint is a pure function
(or a method, where the source loops) from the store, the caller and the
request to `Result<Store>` or a response value. Errors are an enumeration of
the HTTP errors the handlers raise (`Common.Error`, with `Common.Status`
giving the code).

Things the source takes from outside become parameters:

- the authenticated caller is a `User`;
- the wall clock is a `Calendar.Clock` (today's date, hour, minute), and the
  weekday is computed from the date as Python's `date.weekday()` does;
- password hashing and verification are function-typed parameters.

Python's string order is defined in `Lex` (`LexLt`, `LexLe`), because the
attendance gate compares `HH:MM` texts as strings and the matrix sorts ISO
dates as strings. The lemmas there and in `Calendar` show that both
comparisons agree with the numeric order for zero-padded text.
`AttendanceApi.UnpaddedStartNotStarted` shows they do not agree otherwise:
the timetable accepts any start text, and a lesson stored as "9:00" never
counts as started at 10:30.

Some properties the model makes explicit:

- Admission keeps the timetable free of room, teacher and class collisions at
  any (weekday, start).
- Overlapping lessons with different start texts are admitted.
- The end time plays no part in admission or in the attendance gate.
- A teacher sees only their own lessons.
- Every upsert is idempotent.
- Matrix columns are the subject's grade dates, strictly ascending and in
  calendar order.
- Report ranges are inclusive.
- Registration is open to anyone with any role, including "ADMIN".
- `is_active` is never consulted when logging in.

Modules follow the source files:

| module | file |
|---|---|
| `Common` | shared query primitives |
| `Lex` | Python string order and zero padding |
| `Calendar` | dates, weekdays and clock text |
| `Records` | `models/*.py` |
| `Deps` | `api/deps.py` |
| `Roster` | the class list ordered by name |
| `ScheduleApi` | `api/schedule.py` |
| `AttendanceApi` | `api/attendance.py` |
| `GradesApi` | `api/grades.py` |
| `ReportsApi` | `api/reports.py` |
| `StudentsApi` | `api/students.py` |
| `ClassesApi` | `api/classes.py` |
| `SettingsApi` | `api/settings.py` |
| `AuthApi` | `api/auth.py` |

Where the code is looser than its own comments and tables suggest, the
model follows the code:

- A slot's `day_of_week` is a plain string column (`models/school.py:60`,
  `schemas/school.py:71`). Nothing checks that it is one of the seven names
  of `DAYS_MAPPING`; any text is stored and compared.
- Attendance `status` is free text (`models/school.py:49`), although the
  schema comment at `schemas/school.py:35` lists "PRESENT", "ABSENT", "LATE".
- Class names, subject names, bell numbers and emails carry UNIQUE
  constraints in the models. So the routes without a pre-check
  (`settings.create_class`, `create_subject`, and `update_user` when it sets
  an email another account holds) fail at commit with a server error rather
  than a 400. This is `Error.UniqueViolation`, status 500.

## Model

| member | source | states |
|---|---|---|
| Common.Upsert | backend/app/api/grades.py:35-47 | look up by natural key: with a match, the first matching record is replaced by its update and every other record and the length are kept; without one, the records are kept and exactly the new record follows them |
| Common.UpsertIdempotent | backend/app/api/grades.py:35-47 | an upsert whose update keeps the key and is idempotent gives the same sequence when applied twice as when applied once |
| Common.FirstIndex | backend/app/api/schedule.py:43 | `.first()`: the returned index matches and no earlier record does; `None` exactly when nothing matches |
| Common.First | backend/app/api/grades.py:126 | the record returned is the first one that matches; `None` exactly when nothing matches |
| Common.FilterAppend | backend/app/api/students.py:56-62 | a `WHERE` clause over rows added after the existing ones selects the existing matches followed by the new ones |
| Common.FilterTwice | backend/app/api/schedule.py:99-106 | two `.filter(...)` calls in a row select what one filter by the conjunction selects, in the same order |
| Common.NarrowFour | backend/app/api/schedule.py:99-106 | four optional `if param: query = query.filter(...)` steps are one query by the conjunction of the steps in force |
| Common.FreshKey | backend/app/models/school.py:8 | an autoincrement key: larger than every key in the table |
| Lex.PadOrder | backend/app/api/attendance.py:45 | zero-padded numbers of one width compare as strings exactly as they compare as numbers, and are equal exactly when the numbers are |
| Lex.LexLeTotal | backend/app/api/attendance.py:63 | Python's `<=` on strings is total |
| Lex.LexLeTransitive | backend/app/api/attendance.py:63 | Python's `<=` on strings is transitive |
| Calendar.IsoFormatOrder | backend/app/api/grades.py:102 | `isoformat()` strings compare as strings exactly as the dates compare in time, and are equal exactly when the dates are |
| Calendar.IsoFormatInjective | backend/app/api/grades.py:102 | two dates have the same `isoformat()` text exactly when they are the same date, so `set` of the texts merges exactly the same-day grades |
| Calendar.DashOrder | backend/app/api/grades.py:102 | for equal-width leading fields, "field-rest" texts compare by the field first and by the rest on a tie, which is how `YYYY-MM-DD` texts order |
| Calendar.Weekday | backend/app/api/attendance.py:44 | `date.weekday()` is an index 0..6 |
| Calendar.WeekdayNextDay | backend/app/api/attendance.py:44 | the weekday of the next day within a month is the next index modulo 7 |
| Calendar.HourMinuteOrder | backend/app/api/attendance.py:63 | `%H:%M` texts compare as strings exactly as the times compare in minutes of the day |
| Records.UserAt | backend/app/api/schedule.py:24 | `db.get(User, id)`: the index of a user with that key, `None` exactly when no user has it |
| Records.StudentAt | backend/app/api/attendance.py:26 | `db.get(Student, id)`: the index of a student with that key, `None` exactly when there is none |
| Records.NewStudentId | backend/app/models/school.py:17 | a new student key exceeds every existing one |
| Deps.CurrentUser | backend/app/api/deps.py:16-45 | 401 when the token has no subject or no account has that email; otherwise the first account with the email |
| Deps.RoleChecker | backend/app/api/deps.py:49-59 | admits exactly the users whose role is listed, returning them unchanged; otherwise 403 |
| Deps.AllowAdmin | backend/app/api/deps.py:62 | admits exactly role "ADMIN" |
| Deps.AllowTeacher | backend/app/api/deps.py:63 | admits exactly roles "TEACHER" and "ADMIN" |
| Deps.AdminIsTeacherLevel | backend/app/api/deps.py:62-63 | every user the admin guard admits is admitted by the teacher guard |
| Deps.OtherRolesForbidden | backend/app/api/deps.py:53-58 | any other role, "STUDENT" included, is refused by both guards with 403 |
| Roster.SortByName | backend/app/api/grades.py:92 | `ORDER BY full_name`: the result is sorted by name and a permutation of the input |
| Roster.ClassRoster | backend/app/api/reports.py:21-22 | the class list: sorted by name, exactly the students of the class, with multiplicities |
| ScheduleApi.Clash | backend/app/api/schedule.py:37-43 | a conflict query finds a row exactly when some slot has the same weekday and start and matches on the key |
| ScheduleApi.CreateScheduleItem | backend/app/api/schedule.py:16-83 | 403 for non-admins; 404 for a missing class or subject before the teacher check; 400 when the teacher is missing or not a TEACHER; then room, teacher, class conflicts in that precedence, each naming the room, the teacher's email, the class name; success appends exactly the requested slot under a fresh key |
| ScheduleApi.CreatePreservesConflictFree | backend/app/api/schedule.py:37-80 | if no two slots share (weekday, start) with the same room, teacher or class before an admission, none do after |
| ScheduleApi.SameRoomRefused | backend/app/api/schedule.py:37-44 | a second slot at the same weekday, start and room is refused as a room conflict whatever its other fields |
| ScheduleApi.SameTeacherRefused | backend/app/api/schedule.py:48-55 | a second slot with the same teacher at the same weekday and start, in a free room, is refused as a teacher conflict |
| ScheduleApi.EndTimeIgnored | backend/app/api/schedule.py:37-66 | changing only the end time never changes whether admission succeeds or which error it reports |
| ScheduleApi.OverlapAdmitted | backend/app/api/schedule.py:37-44 | two lessons in one room overlapping in time but with different start texts are both admitted |
| ScheduleApi.DeleteScheduleItem | backend/app/api/schedule.py:119-129 | 403 for non-admins, 404 for an unknown key; an admin with a known key always succeeds, and the result is the timetable with exactly the first slot of that key removed, the other slots kept in order |
| ScheduleApi.DeletePreservesConflictFree | backend/app/api/schedule.py:124-128 | removing a slot keeps the timetable conflict-free |
| ScheduleApi.GetSchedule | backend/app/api/schedule.py:87-108 | exactly the slots passing every filter: own lessons for a TEACHER, then class, day and teacher when the value is truthy; all slots when no filter applies |
| ScheduleApi.GetScheduleIsOneQuery | backend/app/api/schedule.py:94-108 | the filter-by-filter query returns exactly the slots of one `WHERE Shown` query over the timetable, in timetable order and with multiplicities |
| ScheduleApi.TeacherSeesOwnLessons | backend/app/api/schedule.py:99-100 | a teacher never sees another teacher's slot, whatever filters are passed |
| AttendanceApi.DaysMappingShape | backend/app/api/attendance.py:14-17 | the day-name mapping is defined on exactly 0..6 and names each index differently |
| AttendanceApi.DayNameIdentifiesWeekday | backend/app/api/attendance.py:44 | two days get the same `DAYS_MAPPING[now.weekday()]` name exactly when they fall on the same weekday |
| AttendanceApi.AnyStarted | backend/app/api/attendance.py:61-65 | the loop finds a started lesson exactly when some lesson's start text is `<=` the clock text |
| AttendanceApi.Lessons | backend/app/api/attendance.py:48-54 | empty exactly when the teacher has no slot with the class on today's day name; has a started lesson exactly when the gate's predicate holds |
| AttendanceApi.UpsertMark | backend/app/api/attendance.py:72-93 | with a mark for (student, date) the first one gets the new status and the length is kept; otherwise exactly one mark with no teacher is appended; afterwards the first mark with the key has the requested status |
| AttendanceApi.NewMark | backend/app/api/attendance.py:85-93 | the inserted mark carries the requested student, date and status, no marking teacher, and an id no existing mark has |
| AttendanceApi.UpsertMarkIdempotent | backend/app/api/attendance.py:72-93 | marking the same student, date and status twice gives the marks of marking once |
| AttendanceApi.MarkAttendance | backend/app/api/attendance.py:20-93 | 403 for other roles; 404 for an unknown student before any time check; ADMIN skips the gate; for TEACHER, a date other than today is refused, then no slot today with the student's class (403), then no slot started (400); success is exactly these conditions and performs the upsert |
| AttendanceApi.MarkRecorded | backend/app/api/attendance.py:72-93 | after a successful mark the first mark for (student, date), the one the next lookup finds, has the requested status |
| AttendanceApi.GateComparesTimesOfDay | backend/app/api/attendance.py:63 | for a zero-padded start text the string test is the minute-of-day test |
| AttendanceApi.UnpaddedStartNotStarted | backend/app/api/attendance.py:63 | a start stored as "9:00" does not count as started at 10:30 |
| AttendanceApi.ScenarioCalendar | backend/app/api/attendance.py:44-45 | 12 October 2026 is weekday 0 (Monday), the 13th weekday 1, and 9:00 renders as "09:00" |
| AttendanceApi.ScenarioDuringLesson | backend/app/api/attendance.py:31-68 | a teacher marking during their Monday 09:00 lesson with the class succeeds |
| AttendanceApi.ScenarioBeforeLesson | backend/app/api/attendance.py:61-68 | the same mark at 08:50 is refused as not started |
| AttendanceApi.ScenarioNextDay | backend/app/api/attendance.py:43-57 | on the Tuesday, with no lesson, it is refused with 403 |
| AttendanceApi.ScenarioYesterday | backend/app/api/attendance.py:32-36 | a mark for a date other than today is refused |
| AttendanceApi.GetAttendance | backend/app/api/attendance.py:96-118 | exactly the marks whose student is in the class (when the class is truthy) and with that date (when given); all marks when neither |
| AttendanceApi.GetAttendanceIsOneQuery | backend/app/api/attendance.py:107-118 | the two-step listing returns exactly the marks of one query by the class and date conditions in force, in store order and with multiplicities |
| GradesApi.UpsertGrade | backend/app/api/grades.py:35-47 | with a grade for (student, subject, date) the first one becomes that grade with the new value, its id, student, subject and date kept, and nothing else changes; otherwise exactly one grade with the request's fields is appended |
| GradesApi.UpsertGradeIdempotent | backend/app/api/grades.py:35-47 | posting the same grade twice gives the grade book of posting it once |
| GradesApi.CreateGrade | backend/app/api/grades.py:28-50 | refused with 403 exactly for non-teacher-level callers; otherwise only the grades change, by the upsert |
| GradesApi.GradeRecorded | backend/app/api/grades.py:35-49 | after a post the grade found by the key has the posted value, grades under other keys are unchanged, and at most one grade was added |
| GradesApi.UpsertFinal | backend/app/api/grades.py:60-77 | with a period grade for (student, subject, period) the first one becomes that grade with the new value, everything else about it kept, and nothing else changes; otherwise exactly one is appended |
| GradesApi.UpsertFinalIdempotent | backend/app/api/grades.py:60-77 | setting the same period grade twice equals setting it once |
| GradesApi.SetFinalGrade | backend/app/api/grades.py:53-80 | refused with 403 exactly for non-teacher-level callers; otherwise only the period grades change, by the upsert |
| GradesApi.Average | backend/app/api/grades.py:123 | the average times the count is the sum, and 0 with no grades |
| GradesApi.InsertDistinct | backend/app/api/grades.py:102 | adding a string to a strictly ascending list keeps it strictly ascending and adds exactly that string |
| GradesApi.SortedDistinct | backend/app/api/grades.py:102 | `sorted(set(xs))` is strictly ascending with exactly the members of `xs` |
| GradesApi.MatrixDates | backend/app/api/grades.py:98-102 | the columns are strictly ascending and are exactly the ISO dates of the subject's grades |
| GradesApi.MatrixDatesChronological | backend/app/api/grades.py:102 | each column is the date of some grade and falls strictly before the date of every later column |
| GradesApi.DateMapDomain | backend/app/api/grades.py:116-118 | a row's dictionary has exactly the dates of the student's grades as keys |
| GradesApi.DateMapLast | backend/app/api/grades.py:116-118 | each key holds the value of the last grade on that date |
| GradesApi.KeyedValuesDomain | backend/app/api/grades.py:116-118 | a dictionary filled by `d[key(g)] = g.value` over a list has exactly the keys of the list's items |
| GradesApi.RowDatesAreColumns | backend/app/api/grades.py:102-118 | every date in a row is one of the matrix columns |
| GradesApi.FinalFor | backend/app/api/grades.py:126 | `next(...)`: the value of the first period grade of the student, no earlier one being theirs; `None` exactly when the student has none |
| GradesApi.BuildRow | backend/app/api/grades.py:110-134 | the per-student loop over all the subject's grades yields the dictionary, sum and count of the student's own grades and their first period grade |
| GradesApi.OwnFigures | backend/app/api/grades.py:111-120 | the inner loop over every grade of the subject yields exactly the date dictionary, the sum and the number of the student's own grades |
| GradesApi.TallyGrades | backend/app/api/grades.py:116-118 | after the first k grades the dictionary is that of the student's grades among them |
| GradesApi.TallyTotal | backend/app/api/grades.py:116-119 | after the first k grades `total_sum` is the sum of the student's grades among them |
| GradesApi.TallyCount | backend/app/api/grades.py:116-120 | after the first k grades `count` is the number of the student's grades among them |
| GradesApi.RowsFor | backend/app/api/grades.py:109-134 | the `for s in students` loop appends one row per student, in order, each that student's row |
| GradesApi.GradesMatrix | backend/app/api/grades.py:84-139 | 403 exactly for non-teacher-level callers; otherwise the subject's dates as columns and one row per student of the class, in roster order, each the student's figures |
| ReportsApi.GradeWindow | backend/app/api/reports.py:30-36 | exactly the student's grades dated from start to end inclusive, every subject |
| ReportsApi.MarkWindow | backend/app/api/reports.py:47-53 | exactly the student's marks dated from start to end inclusive |
| ReportsApi.CountStatus | backend/app/api/reports.py:55-56 | a status count is at most the number of marks, and 0 when no mark has that status |
| ReportsApi.CountStatusSnoc | backend/app/api/reports.py:55-56 | `sum(1 for a in atts if a.status == ...)` grows by one exactly for an appended mark with that status, which with the empty case fixes every count |
| ReportsApi.ReportRowFor | backend/app/api/reports.py:26-58 | the row carries the name; for "grades" the figures are the sum and the number of the student's grades in range, sum 0 when none; for "attendance" the numbers of ABSENT and of LATE marks of the student in range, together at most the marks in range; the name alone for any other type |
| ReportsApi.GetReportData | backend/app/api/reports.py:20-60 | one row per student of the class, in roster order, each that student's row |
| ReportsApi.RowsOf | backend/app/api/reports.py:24-58 | the `for s in students` loop appends one row per student, in order, each that student's row for the report type and range |
| ReportsApi.ViewReport | backend/app/api/reports.py:64-73 | 403 exactly for non-teacher-level callers; otherwise one row per roster student, in roster order, each that student's full report row |
| ReportsApi.RangeEndsIncluded | backend/app/api/reports.py:32-33 | a grade dated on either end of the range is counted |
| ReportsApi.MarkAddedToReport | backend/app/api/reports.py:47-56 | appending a new mark (the insert branch of the attendance upsert) raises the ABSENT or LATE figure by one when it is the student's, in range and of that status; otherwise the attendance figures stay |
| ReportsApi.GradeAddedToReport | backend/app/api/reports.py:30-42 | appending a new grade (the insert branch of the grade upsert) adds its value to the sum and one to the count when it is the student's and in range; otherwise the grade figures stay |
| ReportsApi.ReversedRangeIsEmpty | backend/app/api/reports.py:30-53 | a range ending before it starts gives all-zero figures |
| ReportsApi.PresentNotCounted | backend/app/api/reports.py:55-56 | recording a PRESENT mark, in any store, leaves the attendance figures as they were |
| StudentsApi.CreateStudent | backend/app/api/students.py:17-29 | 403 exactly for non-admins; otherwise exactly one student with the given name and class is appended, under a fresh key, without checking the class exists |
| StudentsApi.CreateStudentKeepsIdsUnique | backend/app/api/students.py:22-27 | student keys stay unique |
| StudentsApi.UploadNames | backend/app/api/students.py:56-61 | the added names are never empty and number at most the rows |
| StudentsApi.UploadNamesAreGivenCells | backend/app/api/students.py:56-61 | the added names are exactly the truthy first cells, in row order, blank rows skipped wherever they occur |
| StudentsApi.UploadNamesAppend | backend/app/api/students.py:56-61 | reading two runs of rows in turn adds the names of the first run, then those of the second |
| StudentsApi.NewRows | backend/app/api/students.py:56-62 | the loop makes one student of the class per truthy cell, in row order, with that name and a key no earlier student has |
| StudentsApi.UploadJoinsRoster | backend/app/api/students.py:56-62 | students added to a class after the existing ones join that class's list after its existing members, in order |
| StudentsApi.UploadStudents | backend/app/api/students.py:33-64 | 403 for non-admins, 404 for a missing class; otherwise one student of the class per truthy first cell, appended in row order with that name, the reported count equal to the number of truthy cells and of students added, keys kept unique, the class's list extended by exactly the new students, nothing else changed |
| StudentsApi.GetStudents | backend/app/api/students.py:68-77 | exactly the class's students for a truthy class id; every student in store order otherwise |
| StudentsApi.ListMatchesRoster | backend/app/api/students.py:73-77 | the filtered list and the class roster hold the same students |
| StudentsApi.ClassZeroListsAll | backend/app/api/students.py:74-75 | class id 0 is falsy and lists everyone |
| StudentsApi.TransferStudent | backend/app/api/students.py:81-100 | 403 for non-admins; 404 for a missing student checked before 404 for a missing class; otherwise only that student's class changes |
| StudentsApi.TransferMovesRosters | backend/app/api/students.py:98-99 | after a transfer the student is on the target class's roster and on no other |
| ClassesApi.CreateClass | backend/app/api/classes.py:14-32 | 403 for non-admins, 400 when the name is taken; otherwise exactly one class with the name is appended under a fresh key |
| ClassesApi.CreateClassKeepsNamesUnique | backend/app/api/classes.py:24-31 | unique class names stay unique |
| ClassesApi.SecondCreateRefused | backend/app/api/classes.py:24-26 | the same name posted twice is refused the second time |
| SettingsApi.CreateClass | backend/app/api/settings.py:14-20 | no route check: a taken name is refused only by the UNIQUE constraint (500); otherwise the same class is appended as by the checked route |
| SettingsApi.CreateClassRoutesAgree | backend/app/api/settings.py:14-20 | the two class routes accept the same requests and differ only in a 400 against a 500 for a taken name |
| SettingsApi.CreateSubject | backend/app/api/settings.py:31-37 | admin only; a taken name refused by the UNIQUE constraint; otherwise exactly one subject appended |
| SettingsApi.CreateSubjectKeepsNamesUnique | backend/app/api/settings.py:31-37 | unique subject names stay unique |
| SettingsApi.DeleteClass | backend/app/api/settings.py:22-28 | admin only; an absent key answers ok with nothing changed; a present one removes exactly that class, keeping the order of the rest |
| SettingsApi.DeleteClassRemovesIt | backend/app/api/settings.py:22-28 | with unique keys the class is gone afterwards and a second delete changes nothing |
| SettingsApi.CreateBell | backend/app/api/settings.py:46-57 | admin only; a lesson number in use is refused with 400; otherwise exactly one bell with the given number and times is appended |
| SettingsApi.CreateBellKeepsOrdersUnique | backend/app/api/settings.py:49-57 | unique lesson numbers stay unique |
| SettingsApi.DeleteBell | backend/app/api/settings.py:59-65 | as for classes: ok and unchanged when absent, exactly that bell removed when present |
| SettingsApi.DeleteBellRemovesIt | backend/app/api/settings.py:59-65 | with unique keys the bell is gone afterwards and a second delete changes nothing |
| SettingsApi.GetBells | backend/app/api/settings.py:40-44 | all bells, as a permutation of the table, ascending by lesson number |
| SettingsApi.BellsStrictlyAscending | backend/app/api/settings.py:43-44 | with unique lesson numbers the listing is strictly ascending |
| AuthApi.RoleOf | backend/app/schemas/user.py:6 | the role defaults to "TEACHER" |
| AuthApi.Authenticate | backend/app/api/auth.py:20-27 | a user is returned exactly when the first account with the email verifies the password; it has that email |
| AuthApi.Register | backend/app/api/auth.py:30-45 | 400 exactly when the email (the address after `EmailStr` normalisation) is registered; otherwise exactly one active account with that email, the hash of the password and the requested role is appended |
| AuthApi.RegisterKeepsEmailsUnique | backend/app/api/auth.py:32-45 | unique emails stay unique |
| AuthApi.RegisterThenAuthenticate | backend/app/api/auth.py:20-45 | a new account logs in with its password when the login gives the same normalised email text it was registered with, given that the hash verifies its own password |
| AuthApi.SelfRegisteredAdmin | backend/app/api/auth.py:30-45 | registering with role "ADMIN" yields an account the admin guard admits |
| AuthApi.InactiveStillAuthenticates | backend/app/api/auth.py:20-27 | deactivating an account does not change whether a login succeeds |
| AuthApi.Merge | backend/app/api/auth.py:94-102 | email, role and password change only when given non-empty, `is_active` whenever given, the key never |
| AuthApi.UpdateUser | backend/app/api/auth.py:84-106 | 403 for non-admins, 404 for an unknown key, refused when the new email is another account's; otherwise only that account changes, to the merge |
| AuthApi.EmptyUpdateChangesNothing | backend/app/api/auth.py:94-102 | an update whose email, password and role are each missing or empty and whose `is_active` is missing leaves the store unchanged |
| AuthApi.UpdateKeepsEmailsUnique | backend/app/api/auth.py:90-104 | unique emails stay unique across an update |
| AuthApi.ChangePassword | backend/app/api/auth.py:110-123 | 401 without a current user; 400 exactly when the old password does not verify; otherwise only that account's hash changes, to the hash of the new password |
| AuthApi.ChangePasswordThenAuthenticate | backend/app/api/auth.py:116-120 | after a change the account logs in with the new password, given that the hash verifies it |

## Left out

- The wall clock: `datetime.now()` is replaced by a `Clock` parameter. The handler reads the clock twice (the date at attendance.py:32, the time at attendance.py:43); the model uses one reading for both, so a request that straddles midnight is not modelled.
- Token handling: JWT creation at login, signature checking and expiry. A token is modelled by its subject email.
- `get_user_by_email`, called by `get_current_user`, is not part of this model. It is taken to return the first account with the email.
- `get_password_hash` and `verify_password` are not part of this model. They are parameters, and any `verify(p, hash(p))` fact is an explicit precondition. Salting is part of the hash value.
- Floating point: the matrix and report averages and `round(..., 2)`. Rows carry the integer sum and count, and `GradesApi.Average` states the exact mean over reals before rounding.
- GradesApi.Average: exact real division. The source's binary floating point and two-decimal rounding are not modelled.
- Excel: workbook parsing in the upload (its input is the sequence of first-column cells, as optional strings) and the whole `export_report` workbook, styling and file name. Non-text cells (numbers converted with `str`, and a numeric 0 being falsy) are not modelled.
- Races: every request runs alone on the store. The check-then-insert sequences of admission, the upserts and the unique checks are not claimed race-free.
- SettingsApi.DeleteClass: its contract keeps the students and slots of the deleted class unchanged. The flush of the source sets their nullable `class_group_id` to NULL, since the relationships declare no delete cascade; the model's integer class keys have no NULL. Deleting a slot or bell has no such effect.
- Response enrichment: the subject, class and teacher names added to timetable responses.
- HTTP bodies: message texts (only what a conflict message names is kept) and success messages.
- Validation the framework performs: request parsing, and `EmailStr`'s syntax check and normalisation (whitespace stripped, the `Name <addr>` form accepted, the domain lowercased). `AuthApi.Register` takes `req.email` as the address after that normalisation, and `AuthApi.RegisterThenAuthenticate` logs in with that same text. The login at auth.py:21 compares emails with exact `==`, so a login that spells the address as typed before normalisation is refused; the model does not show this. `UserUpdate.email` is a plain `str` and is stored without normalisation. Dates with a day number beyond the month's length are not excluded by `Calendar.Date`.
- The database is assumed to behave as follows:
  - foreign keys are not enforced, so `StudentsApi.CreateStudent`, `GradesApi.CreateGrade` and `GradesApi.SetFinalGrade` succeed for a class, student or subject id that does not exist, whereas a database that enforces them fails the commit with an IntegrityError (500);
  - only the UNIQUE constraints are enforced;
  - new keys are one above the largest key in use;
  - text compares by code point.
- Timetable slots with a NULL teacher: `schedules.teacher_id` is nullable in the migration and the listing handles a missing teacher (schedule.py:114). `Records.ScheduleItem.teacherId` is an `int`, so such slots cannot be represented. Every slot the model creates has a teacher, since `ScheduleCreate.teacher_id` is required.
- Result order of queries without `ORDER BY` is store (insertion) order. Ordering by `full_name` uses code-point order, not the database's collation. Ties between equal names are left in the order the insertion sort gives. A grade matrix row's `grades` is a `map`, so it drops the insertion order of the source's dict. In the source, that order is each date's first grade in store order, and it shows in the JSON response.
- `read_classes`, `get_subjects`, `read_all_users` and `read_users_me`: each returns a table or the caller unchanged, with nothing to decide.
- The login handler beyond `authenticate_user`: its only other work is building the token.
- `main.py`, `db/session.py` and the migrations: application wiring with no decision logic.
