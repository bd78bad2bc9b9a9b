# School dashboard front end, modelled in Dafny

This project models the client-side logic of a Next.js school dashboard.

The **student attendance page** turns the records the backend returns into figures:
- per-subject cards: a JavaScript `Map` keyed by the subject's name, filled record by record in first-occurrence order, with total and PRESENT counters and a rounded percentage;
- an overall figure with a zero-total guard;
- a colour band and a Good/Low label per percentage;
- the list of the 15 most recent records.

The **student home page** derives the same overall figure from the attendance answer and names the weekday.

The **admin dashboard** exists twice, as `page.js` (plain `fetch`) and `page.tsx` (an axios client). It holds:
- snapshots of the roster, the subjects and the attendance records;
- a create-student form;
- an edit modal and a delete confirmation for students, and the same for attendance records.

Its handlers are transitions. Each one:
1. checks its guard;
2. sends one request;
3. on success, reloads the affected snapshot wholesale and resets the form or modal;
4. on failure, leaves everything but the loading flag and the alert as it was.

Both versions embed the same **mark-attendance form** (`page.js:745-783`, `page.tsx:694-718`).

The **results page** averages a fixed list of marks and colours each grade badge.

Modelling choices:
- **Backend.** The backend is an oracle. Every backend answer is a `Reply`: `Ok(data)`, `Err(error)` for a JSON answer with a failure status, or `Thrown(message)` for an exception or a body that is not JSON. Each reply is a parameter of the handler.
- **Handler results.** Every handler returns the `Request` it sent and the `Notice`, the alert it raises.
- **Rounding.** `Math.round(p / t * 100)` is exact integer rounding, with halves going up: `RoundDiv`.
- **Modules.** `Entities` holds the records. `Rounding` holds the rounding. `StudentAttendance`, `StudentHome`, `AdminViews` (the pure helpers of both admin files), `AdminJs`, `AdminTsx`, `Marker` and `Results` follow the pages.

On two points the model follows the code where a cleaner design would differ:
- **Grouping key.** The per-subject cards are keyed by the subject's *name*, as `attendance/page.js:51` does, not by the subject id. Two subjects with the same name therefore become one card that carries the first record's code (`NamesMergeSubjects`).
- **Empty fields.** The create handlers send the form as it is. No local check rejects empty fields; only the browser's `required` attribute does (see Left out).

## Model

| member | source | states |
|---|---|---|
| Rounding.RoundDiv | app/dashboard/student/attendance/page.js:63 | the result r is the rounding of n/d with halves up: 2·d·r ≤ 2·n + d < 2·d·(r+1) |
| Rounding.RoundDivUnique | app/dashboard/student/attendance/page.js:63 | any integer inside that bracket is the rounded value, so the bracket characterises `Math.round` |
| Rounding.RoundDivMonotone | app/dashboard/student/attendance/page.js:63 | a larger numerator never rounds lower |
| Rounding.Percent | app/dashboard/student/attendance/page.js:63 | for 0 ≤ present ≤ total the percentage lies in [0, 100]; it is 100 when every class was attended and 0 when none was |
| StudentAttendance.Count | app/dashboard/student/attendance/page.js:83 | a filter count never exceeds the number of records |
| StudentAttendance.CountPermutation | app/dashboard/student/attendance/page.js:83 | counting does not depend on the order of the records |
| StudentAttendance.MarkAbsentLowersPresent | app/dashboard/student/attendance/page.js:83 | turning one PRESENT record ABSENT lowers the present count by exactly one and keeps the total |
| StudentAttendance.GroupedNames | app/dashboard/student/attendance/page.js:48-60 | the map's keys, in insertion order, are the distinct subject names in order of first occurrence (defined independently as SubjectNames) |
| StudentAttendance.SubjectNamesDistinct | app/dashboard/student/attendance/page.js:52-53 | no subject name gets two entries |
| StudentAttendance.SubjectNamesCover | app/dashboard/student/attendance/page.js:50-53 | every record's subject name has an entry |
| StudentAttendance.NotNamedNotFound | app/dashboard/student/attendance/page.js:50-53 | a name without an entry is carried by no record |
| StudentAttendance.SubjectNamesOrdered | app/dashboard/student/attendance/page.js:48-60 | every key first occurs at some record, and the keys are ordered by their first occurrence in the records |
| StudentAttendance.GroupedCodes | app/dashboard/student/attendance/page.js:53 | each entry's code is the code of the first record carrying its name |
| StudentAttendance.GroupedCounts | app/dashboard/student/attendance/page.js:55-57 | each entry's total is the number of records with its name, and its present count the number of PRESENT ones among them |
| StudentAttendance.GroupedBounds | app/dashboard/student/attendance/page.js:52-57 | every entry has 1 ≤ total and present ≤ total |
| StudentAttendance.NoneCounted | app/dashboard/student/attendance/page.js:50-57 | a name no record carries is counted zero times |
| StudentAttendance.GroupedSums | app/dashboard/student/attendance/page.js:50-58 | the entry totals add up to the number of records, and the present counts to the number of PRESENT records |
| StudentAttendance.StatsOf | app/dashboard/student/attendance/page.js:60-66 | one card per map entry |
| StudentAttendance.CountRecord | app/dashboard/student/attendance/page.js:51-57 | the forEach callback: an unseen name is appended to the keys with a zero entry carrying the record's code, then that entry counts the record (and its PRESENT status) |
| StudentAttendance.FillSubjectMap | app/dashboard/student/attendance/page.js:48-58 | after the forEach, the map and its insertion-ordered keys hold exactly the grouping of the records |
| StudentAttendance.MapToCards | app/dashboard/student/attendance/page.js:60-66 | the entries turned into cards in insertion order, each with its rounded percentage |
| StudentAttendance.GetSubjectStats | app/dashboard/student/attendance/page.js:47-67 | the imperative Map-and-forEach computation returns exactly SubjectStats(records), about which the card lemmas below are proved |
| StudentAttendance.SubjectCards | app/dashboard/student/attendance/page.js:60-66 | every card counts exactly the records with its name (at least one), its present count is that of the PRESENT ones, its percentage is their rounded share in [0, 100], and its code is the first such record's |
| StudentAttendance.SubjectCardOrder | app/dashboard/student/attendance/page.js:48-66 | card names are distinct, every record's subject has a card, and the cards come in first-occurrence order |
| StudentAttendance.SubjectCardSums | app/dashboard/student/attendance/page.js:50-66 | the cards' totals add up to the number of records, and their present counts to the number of PRESENT records |
| StudentAttendance.NamedIffCounted | app/dashboard/student/attendance/page.js:50-60 | a name has a card if and only if some record carries it: subjects without records are omitted |
| StudentAttendance.SubjectStatsPermutation | app/dashboard/student/attendance/page.js:47-67 | reordering the records keeps the set of card names and each name's total, present count and percentage |
| StudentAttendance.NamesMergeSubjects | app/dashboard/student/attendance/page.js:51 | two subjects with different ids but the same name become one card with the first record's code |
| StudentAttendance.OverallStats | app/dashboard/student/attendance/page.js:81-87 | total is the number of records, present the number of PRESENT ones, the percentage is in [0, 100]: 0 when there are no records, else the rounded share |
| StudentAttendance.RoundingExamples | app/dashboard/student/page.js:33 | 1 of 3 gives 33, 2 of 3 gives 67, 2 of 4 gives 50, and no records gives 0 |
| StudentAttendance.Gradient | app/dashboard/student/attendance/page.js:89-94 | the band's rank is the number of thresholds 60, 75, 90 the percentage reaches |
| StudentAttendance.GradientMonotone | app/dashboard/student/attendance/page.js:89-94 | a higher percentage never gets a worse band |
| StudentAttendance.IsGood | app/dashboard/student/attendance/page.js:168-170 | "Good" exactly when the band is blue or emerald |
| StudentAttendance.Recent | app/dashboard/student/attendance/page.js:209 | the first min(15, n) records in their original order; all of them when there are at most 15 |
| StudentAttendance.AttendancePage.constructor | app/dashboard/student/attendance/page.js:9-10 | no records, loading |
| StudentAttendance.AttendancePage.FetchAttendance | app/dashboard/student/attendance/page.js:16-45 | records are replaced only by a JSON answer with a success status; loading ends in every case |
| StudentHome.StudentDashboard.constructor | app/dashboard/student/page.js:7-9 | empty timetable, stats null, loading |
| StudentHome.StudentDashboard.FetchData | app/dashboard/student/page.js:20-41 | timetable and stats are set only when both answers succeed, stats being the overall figure of the records; otherwise both are unchanged; loading ends |
| StudentHome.FetchedStatsBounded | app/dashboard/student/page.js:30-34 | attended ≤ totalClasses, percentage in [0, 100], and 0 for no classes |
| StudentHome.DayName | app/dashboard/student/page.js:49-52 | every table entry is a name ending in "day" |
| StudentHome.DayNameTable | app/dashboard/student/page.js:50 | index 0 is Sunday, 1 Monday, and so on to 6, Saturday, as `Date.getDay()` numbers the days |
| StudentHome.DayNameInjective | app/dashboard/student/page.js:49-52 | different indices give different names |
| Entities.OrElse | app/dashboard/admin/page.js:98 | `password \|\| fallback`: a missing or empty password gives way to the fallback text |
| AdminViews.LowerChar | app/dashboard/admin/page.js:237 | the result is never an upper-case letter; non-letters are kept; letters move by 'a' − 'A' |
| AdminViews.Lower | app/dashboard/admin/page.js:237 | lowering keeps the length and lowers each character |
| AdminViews.LowerIdempotent | app/dashboard/admin/page.js:237 | lowering twice is lowering once |
| AdminViews.LowerOfLower | app/dashboard/admin/page.js:237 | a string without upper-case letters is its own lowering |
| AdminViews.IncludesIff | app/dashboard/admin/page.js:237 | `includes` holds if and only if the term occurs at some position |
| AdminViews.IncludesEmpty | app/dashboard/admin/page.js:237 | the empty term occurs in every string |
| AdminViews.FilteredStudents | app/dashboard/admin/page.js:236-239 | the search never returns more students than the roster |
| AdminViews.FilteredStudentsAppend | app/dashboard/admin/page.js:236-239 | searching a concatenation searches each part in turn, so the result is an order-preserving subsequence |
| AdminViews.FilteredStudentsMembers | app/dashboard/admin/page.js:236-239 | a student is kept if and only if a searched field contains the term, ignoring case |
| AdminViews.SearchIgnoresCase | app/dashboard/admin/page.js:236-239 | the case of the search term does not matter |
| AdminViews.EmptyTermKeepsAll | app/dashboard/admin/page.js:236-239 | the empty term keeps the whole roster in order |
| AdminViews.WiderSearch | app/dashboard/admin/page.tsx:183-188 | the `.tsx` search (name, email, roll number) keeps every student the `.js` search (name, roll number) keeps |
| AdminViews.RecordsOfAppend | app/dashboard/admin/page.js:486-488 | filtering a concatenation filters each part in turn |
| AdminViews.RecordsOfMembers | app/dashboard/admin/page.js:486-488 | a record is kept if and only if it belongs to the student |
| AdminViews.FilterRecordsSpec | app/dashboard/admin/page.js:486-488 | the empty selection is the identity; any other keeps exactly the selected student's records, in order |
| AdminViews.DatePart | app/dashboard/admin/page.js:656 | the result is the prefix of the date before its first 'T' (all of it when there is none) |
| AdminViews.DatePartUnique | app/dashboard/admin/page.js:656 | that characterisation fixes the result |
| AdminViews.DatePartIdempotent | app/dashboard/admin/page.js:656 | normalising twice is normalising once |
| AdminViews.DatePartOfDay | app/dashboard/admin/page.js:656 | a date without time part is unchanged |
| AdminViews.DatePartOfTimestamp | app/dashboard/admin/page.js:656 | an ISO timestamp is cut to the day before its 'T' |
| AdminViews.UpdatePayload | app/dashboard/admin/page.js:180-185 | the body takes student and subject ids from the record's embedded references, and its date and status from the record |
| AdminViews.EditsKeepReferences | app/dashboard/admin/page.js:657-684 | whatever the edits, the call targets the same record id with the original student and subject; without a date edit the record's full, un-normalised date is sent |
| AdminViews.StudentEditsKeepId | app/dashboard/admin/page.js:560-578 | editing the student modal never changes the id the update goes to |
| AdminViews.FormOf | app/dashboard/admin/page.js:122-126 | the `.js` update sends exactly the modal's name, email and roll number |
| AdminJs.AdminDashboard.constructor | app/dashboard/admin/page.js:11-26 | empty snapshots, empty form and search, no modal or selection, not loading |
| AdminJs.AdminDashboard.FetchStudents | app/dashboard/admin/page.js:44-56 | a success replaces the roster wholesale, anything else keeps it; nothing else changes |
| AdminJs.AdminDashboard.FetchSubjects | app/dashboard/admin/page.js:58-70 | the same for the subjects |
| AdminJs.AdminDashboard.FetchAttendanceRecords | app/dashboard/admin/page.js:72-84 | the same for the attendance records |
| AdminJs.AdminDashboard.HandleCreateStudent | app/dashboard/admin/page.js:86-111 | posts the form; success shows the password or the fallback, reloads the roster and resets the form to three empty strings; failure shows the server's error or the generic alert and leaves form and roster untouched |
| AdminJs.AdminDashboard.HandleUpdateStudent | app/dashboard/admin/page.js:113-143 | no modal: no call and no change; else sends the three fields to the modal's id; success reloads the roster and closes the modal; failure keeps both |
| AdminJs.AdminDashboard.HandleDeleteStudent | app/dashboard/admin/page.js:145-169 | no id (null or empty): no call and no change; else deletes that id; success reloads only the roster and clears the id; the attendance snapshot never changes |
| AdminJs.AdminDashboard.HandleUpdateAttendance | app/dashboard/admin/page.js:171-202 | no modal: no call; else sends the record's payload to its id; success reloads the records and closes the modal; failure keeps both |
| AdminJs.AdminDashboard.HandleDeleteAttendance | app/dashboard/admin/page.js:204-228 | no id: no call; else deletes it; success reloads the records and clears the id; failure keeps both |
| AdminJs.AdminDashboard.OpenStudentEditor | app/dashboard/admin/page.js:428 | the modal holds the chosen student |
| AdminJs.AdminDashboard.EditStudentModal | app/dashboard/admin/page.js:560-578 | one field of the open modal changes; its id stays |
| AdminJs.AdminDashboard.CloseStudentEditor | app/dashboard/admin/page.js:592 | the modal closes |
| AdminJs.AdminDashboard.AskDeleteStudent | app/dashboard/admin/page.js:435 | the student's id is selected for deletion |
| AdminJs.AdminDashboard.CancelDeleteStudent | app/dashboard/admin/page.js:618 | the selection is cleared |
| AdminJs.AdminDashboard.OpenAttendanceEditor | app/dashboard/admin/page.js:524 | the modal holds the chosen record |
| AdminJs.AdminDashboard.EditAttendanceModal | app/dashboard/admin/page.js:657-684 | date or status of the open modal changes; id, student and subject stay |
| AdminJs.AdminDashboard.CloseAttendanceEditor | app/dashboard/admin/page.js:706 | the modal closes |
| AdminJs.AdminDashboard.AskDeleteAttendance | app/dashboard/admin/page.js:531 | the record's id is selected for deletion |
| AdminJs.AdminDashboard.CancelDeleteAttendance | app/dashboard/admin/page.js:732 | the selection is cleared |
| AdminJs.AdminDashboard.EditNewStudent | app/dashboard/admin/page.js:341-369 | one field of the create form changes, the others stay |
| AdminJs.AdminDashboard.Search | app/dashboard/admin/page.js:402 | the search term is set |
| AdminJs.AdminDashboard.SelectStudentFilter | app/dashboard/admin/page.js:470 | the record filter is set |
| AdminJs.AdminDashboard.ShownStudents | app/dashboard/admin/page.js:236-239 | the table shows exactly the students whose name or roll number contains the term |
| AdminJs.AdminDashboard.ShownRecords | app/dashboard/admin/page.js:486-488 | all records without a selection, else exactly the selected student's |
| AdminTsx.ErrorDetail | app/dashboard/admin/page.tsx:114 | the alert shows the server's non-empty error text, or the exception's message when no answer came |
| AdminTsx.AdminDashboard.constructor | app/dashboard/admin/page.tsx:32-47 | empty snapshots, empty form and search, no modal or selection, not loading |
| AdminTsx.AdminDashboard.FetchStudents | app/dashboard/admin/page.tsx:60-67 | a success replaces the roster, a rejected call keeps it |
| AdminTsx.AdminDashboard.FetchSubjects | app/dashboard/admin/page.tsx:69-76 | the same for the subjects |
| AdminTsx.AdminDashboard.FetchAttendanceRecords | app/dashboard/admin/page.tsx:78-85 | the same for the attendance records |
| AdminTsx.AdminDashboard.HandleCreateStudent | app/dashboard/admin/page.tsx:87-100 | posts the form; success shows the password as returned, resets the form and reloads; any failure gives the generic alert and resets nothing |
| AdminTsx.AdminDashboard.HandleUpdateStudent | app/dashboard/admin/page.tsx:102-118 | no modal: no call; else sends the whole modal object to its id; success closes the modal and reloads; failure keeps both |
| AdminTsx.AdminDashboard.HandleDeleteStudent | app/dashboard/admin/page.tsx:120-135 | no id: no call; else deletes it; success clears the id and reloads only the roster |
| AdminTsx.AdminDashboard.HandleUpdateAttendance | app/dashboard/admin/page.tsx:137-158 | no modal: no call; else sends the payload to the record's id; success closes the modal and reloads the records |
| AdminTsx.AdminDashboard.HandleDeleteAttendance | app/dashboard/admin/page.tsx:160-175 | no id: no call; else deletes it; success clears the id and reloads the records |
| AdminTsx.AdminDashboard.OpenStudentEditor | app/dashboard/admin/page.tsx:377 | the modal holds the chosen student |
| AdminTsx.AdminDashboard.EditStudentModal | app/dashboard/admin/page.tsx:509-527 | one field of the open modal changes; its id stays |
| AdminTsx.AdminDashboard.CloseStudentEditor | app/dashboard/admin/page.tsx:541 | the modal closes |
| AdminTsx.AdminDashboard.AskDeleteStudent | app/dashboard/admin/page.tsx:384 | the student's id is selected for deletion |
| AdminTsx.AdminDashboard.CancelDeleteStudent | app/dashboard/admin/page.tsx:567 | the selection is cleared |
| AdminTsx.AdminDashboard.OpenAttendanceEditor | app/dashboard/admin/page.tsx:473 | the modal holds the chosen record |
| AdminTsx.AdminDashboard.EditAttendanceModal | app/dashboard/admin/page.tsx:606-633 | date or status of the open modal changes; id, student and subject stay |
| AdminTsx.AdminDashboard.CloseAttendanceEditor | app/dashboard/admin/page.tsx:655 | the modal closes |
| AdminTsx.AdminDashboard.AskDeleteAttendance | app/dashboard/admin/page.tsx:480 | the record's id is selected for deletion |
| AdminTsx.AdminDashboard.CancelDeleteAttendance | app/dashboard/admin/page.tsx:681 | the selection is cleared |
| AdminTsx.AdminDashboard.EditNewStudent | app/dashboard/admin/page.tsx:290-318 | one field of the create form changes, the others stay |
| AdminTsx.AdminDashboard.Search | app/dashboard/admin/page.tsx:351 | the search term is set |
| AdminTsx.AdminDashboard.SelectStudentFilter | app/dashboard/admin/page.tsx:419 | the record filter is set |
| AdminTsx.AdminDashboard.ShownStudents | app/dashboard/admin/page.tsx:183-188 | the table shows exactly the students whose name, email or roll number contains the term |
| AdminTsx.AdminDashboard.ShownRecords | app/dashboard/admin/page.tsx:435-437 | all records without a selection, else exactly the selected student's |
| Marker.AttendanceMarker.constructor | app/dashboard/admin/page.js:745-753 | no student or subject chosen, today's calendar day, PRESENT, no banner |
| Marker.InitialDateIsDay | app/dashboard/admin/page.js:749 | the initial date has no time part and is already normalised |
| Marker.AttendanceMarker.Edit | app/dashboard/admin/page.js:805-873 | one field of the form changes, the others stay |
| Marker.AttendanceMarker.HandleSubmit | app/dashboard/admin/page.js:755-783 | posts the form unchanged; success status gives the success banner, anything else the error banner; the form is not reset; loading ends |
| Marker.AttendanceMarker.ClearMessage | app/dashboard/admin/page.js:773-779 | the banner is cleared |
| Results.TotalScoreAppend | app/dashboard/student/results/page.js:15 | the total of a concatenation is the sum of the totals |
| Results.TotalScoreBounds | app/dashboard/student/results/page.js:15 | n scores within [lo, hi] total within [n·lo, n·hi] |
| Results.AverageScore | app/dashboard/student/results/page.js:16 | the average is the total divided by the count, rounded with halves up |
| Results.AverageBounded | app/dashboard/student/results/page.js:16 | scores in [0, 100] average in [0, 100] |
| Results.PageAverage | app/dashboard/student/results/page.js:4-16 | the page's marks total 343 and average 86 |
| Results.GradeColor | app/dashboard/student/results/page.js:10-14 | green exactly for grades starting with 'A', blue exactly for those starting with 'B', orange otherwise |
| Results.GradeSuffixIgnored | app/dashboard/student/results/page.js:10-12 | a suffix such as '+' does not change the colour |
| Results.PageBadges | app/dashboard/student/results/page.js:10-14 | A and A+ are green, B+ blue, C and the empty grade orange |

## Left out

- Rendering: JSX, CSS classes, the SVG ring dash length, progress-bar widths, the loading spinner and the tab switch (`activeTab`), together with the effects that fetch on mount or on a tab change.
- Transport: URLs, headers, bearer tokens, cookies and content-type sniffing. Each backend answer is a `Reply` parameter.
- Alert text: the model keeps what an alert shows (password, server error, exception message, or a fixed text), not the exact wording.
- Clock and timers: `new Date()` is the parameter `nowIso` of the mark-attendance form and the index of `DayName`. `toLocaleDateString` is not modelled. The three-second `setTimeout` is the separate `ClearMessage` step.
- Concurrency: `Promise.all` on the home page and the reloads `page.tsx` starts without awaiting are taken as sequential. Only the final state is modelled, not the moment at which `loading` turns false relative to an un-awaited reload.
- Browser form validation: the `required` attributes stop the browser from submitting empty fields or selects. The handlers do not check this themselves, and the model shows the handlers.
- Server behaviour the client only mentions: cascade deletion, uniqueness of email and roll number, password generation.
- Floating point: the pages round `(present / total) * 100` computed in binary floating point (`attendance/page.js:63` and `:86`, `student/page.js:33`). The model rounds the exact quotient, halves up, and the two differ when the floating-point product falls just below a half. For example, 23 of 40 gives `57.49999999999999` and the page shows 57, while `Percent(23, 40)` is 58; 29 of 200 shows 14 on the page and gives 15 in the model.
- Rounding.Percent: states exact half-up rounding of 100·present/total, not the page's floating-point result, which is one lower for inputs such as 23 of 40 (see the line above).
- Logout, the login pages, the student layout and the courses page: these hold no logic beyond navigation.
- AdminViews.LowerChar: `toLowerCase` is modelled for the ASCII letters only; other Unicode case mappings are not.
- StudentAttendance.AttendancePage.FetchAttendance: a successful answer without a `records` field leaves `records` undefined, and the page then throws when it renders the cards and figures; the model takes the field as present.
- StudentHome.StudentDashboard.FetchData: a successful attendance answer without a `records` field makes the page throw after it has set the timetable; the model assumes that field is present.
- AdminTsx.ErrorDetail: for a failure answer with an empty error text, axios' own status message is shown; the model writes it as None instead of reproducing its wording.
