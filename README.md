# EMS leave ledger and attendance, modelled in Dafny

This project models the business core of the EMS employee-management backend:

- **Leave ledger.** There is one leave document per employee. It holds a growing list of leave requests and a `{total, used}` balance for each of the four leave types (Sick, Personal, Official, Vacation).
  - `applyLeave` runs an ordered validation chain. If every check passes, it appends one Pending request.
  - `updateLeaveStatus` moves a request between Pending, Approved and Rejected. Approving debits the balance, and going from Approved to Rejected refunds it.
  - `getEmployeeLeaves` returns the requests, filtered by the current month or week.
- **Attendance.** There is one record per employee and day.
  - `checkIn` files the day's record as Present, or as Late after 10:00, and refuses a second check-in.
  - Two daily roll-ups list the day's records and count them by status: one for the whole organisation and one for a manager's department.
  - The `markAbsentees` job files an Absent record for every employee who has none.
  - Two per-employee listings exist. One of them checks that the id has 24 hexadecimal digits.
- **Pagination.** `paginate` clamps the page and limit query parameters and computes the skip.

## Layout

| module | file | contents |
|---|---|---|
| `Common` | common.dfy | `Option`; `Given`, which is JavaScript truthiness of an optional request field; `IsHexDigit`, `HexRun` and `IsObjectId`, the 24-hex-digit form of an id |
| `Calendar` | calendar.dfy | civil dates, day numbers counted from 1970-01-01, month windows, weekdays, a clock that is a date plus the milliseconds of the day |
| `LeaveModel` | leave_model.dfy | the leave document: types, statuses, balances and their defaults, requests |
| `LeaveRules` | leave_rules.dfy | pure rules: the day span, the apply chain, balance transitions, filters, and the accounting invariant with its lemmas |
| `LeaveController` | leave_controller.dfy | the handlers as store steps, plus class `Ledger` (one document, updated in place) and class `LeaveStore` (the collection) |
| `Formatting` | formatting.dfy | `HH:mm` and `DD-MM-YYYY` as moment prints them, and reading `HH:mm` back |
| `AttendanceModel` | attendance_model.dfy | the attendance record, its status enum and defaults, the employee fields the handlers read, and record keys |
| `AttendanceController` | attendance_controller.dfy | check-in, roll-ups, back-fill, listings, and class `AttendanceStore` |
| `Pagination` | pagination.dfy | page and limit normalisation, skip, page windows |

The leave ledger invariant is `Ledger.Valid`, which holds between calls:

- every stored request is well formed;
- for each type, the spans of the Approved requests add up to at most `used`, and `used` is at most `total`.

Under the documented targets (Approved and Rejected), `used` equals that sum exactly. The attendance store keeps (employee, day) keys unique (`AttendanceStore.Valid`).

## Model

| member | source | states |
|---|---|---|
| LeaveRules.LeaveDays | backend/controllers/leavecontroller.js:5-10 | The span is positive exactly when both dates are valid and the end is not before the start. A same-day request spans 1 day. An invalid date gives 0. |
| LeaveRules.SpanExtends | backend/controllers/leavecontroller.js:9 | The span is inclusive: one more day at the end adds exactly one to it. |
| LeaveRules.CheckApply | backend/controllers/leavecontroller.js:66-102 | A missing field gives MissingFields. An accepted draft has a reason, valid dates, a known type, a span of at least 1 and a start in or after the current month. It respects the 3-day cap and the monthly cap for capped types, and its span fits the available balance. |
| LeaveRules.DateWindowComesSecond | backend/controllers/leavecontroller.js:73-78 | Once the fields are present, DateOutOfWindow is the outcome exactly when the start is before the first of the current month or the end is before the start. Invalid dates never compare as less. |
| LeaveRules.InvalidRangeMeansUnparseable | backend/controllers/leavecontroller.js:79-82 | InvalidRange is reported exactly for an invalid date that passed the window check. |
| LeaveRules.AcceptsWhenAllChecksPass | backend/controllers/leavecontroller.js:70-102 | When every check holds, the chain accepts the request with exactly the given dates, type, reason and span. |
| LeaveRules.UncappedTypesSkipCaps | backend/controllers/leavecontroller.js:83-98 | Sick and Vacation requests are never refused by the 3-day cap or the monthly cap. |
| LeaveRules.LongCappedRequestRefused | backend/controllers/leavecontroller.js:83-86 | A Personal or Official request (or any other non-Sick, non-Vacation type name) over 3 days that passes the earlier checks is refused by the consecutive-day cap. |
| LeaveRules.MonthlyCapThenBalance | backend/controllers/leavecontroller.js:96-102 | Once the earlier checks pass, MonthlyCapExceeded is the outcome exactly when the type is capped and the month's approved days plus the span exceed 3. InsufficientBalance is the outcome exactly when the monthly cap passed, the type is known and the span exceeds the available days, and it reports those available days. |
| LeaveRules.UnknownTypeIsServerError | backend/controllers/leavecontroller.js:99 | A type name that is not one of the four never gets through. If it passes the earlier checks, it fails at the missing balance entry with a server error. |
| LeaveRules.MonthlyWindowIsCalendarMonth | backend/controllers/leavecontroller.js:91-95 | Summing approved spans between monthStart and monthEnd is the same as summing those of approved requests that start and end in that calendar month. Requests of every type count. |
| LeaveRules.ApprovedDaysWithin | backend/controllers/leavecontroller.js:93-95 | Only Approved requests add days, so a ledger with none gives 0. Over well-formed requests the sum is never negative. |
| LeaveRules.Transition | backend/controllers/leavecontroller.js:190-198 | Entering Approved adds the span to `used`, and is refused exactly when that overdraws the total. Approved→Rejected takes the span off. Every other change, including Rejected→Pending and a repeated status, leaves `used` as it was. The total never changes. |
| LeaveRules.ApproveThenRejectRestores | backend/controllers/leavecontroller.js:191-194 | Approving and then rejecting a request restores the balance exactly. |
| LeaveRules.SetStatus | backend/controllers/leavecontroller.js:190-198 | The change is refused exactly when the transition of the request's own type is, with ApprovalExceedsBalance. On success the request's own type gets the transition's balance, the request's status becomes the target, and no other request or balance changes. |
| LeaveRules.RepeatedStatusChangesNothing | backend/controllers/leavecontroller.js:191-198 | Setting a request to the status it already has changes neither the requests nor the balances. This includes Approved→Approved. |
| LeaveRules.StatusChangeKeepsAccounting | backend/controllers/leavecontroller.js:190-198 | Every accepted status change keeps the invariant SumApproved ≤ used ≤ total. |
| LeaveRules.DocumentedStatusChangeKeepsExactAccounting | backend/controllers/leavecontroller.js:190-198 | Changes to Approved or Rejected keep `used == SumApproved ≤ total`. |
| LeaveRules.SubmittingKeepsAccounting | backend/controllers/leavecontroller.js:103 | Appending a Pending request keeps both the invariant and exact accounting. |
| LeaveRules.UpdateKeepsAccounting | backend/controllers/leavecontroller.js:188-199 | A status update through the request lookup keeps the invariant. |
| LeaveRules.FindRequest | backend/controllers/leavecontroller.js:188-189 | The lookup finds the first request with the id. It returns none exactly when no request has that id. |
| LeaveRules.UpdateOutcome | backend/controllers/leavecontroller.js:188-199 | An unknown request id gives RequestNotFound. A target that is not a status fails the save with a server error. A found request with a valid target gets exactly the SetStatus outcome: the transition, or ApprovalExceedsBalance for an overdrawing approval. |
| LeaveRules.ParseFilter | backend/controllers/leavecontroller.js:239-246 | Only `monthly` selects the month filter and only `weekly` the week filter. |
| LeaveRules.FilterRequests | backend/controllers/leavecontroller.js:238-246 | The result is a subsequence of the requests. It holds exactly the requests the filter keeps, each as often as it is stored, and all of them when there is no filter. |
| LeaveRules.Keeps | backend/controllers/leavecontroller.js:239-246 | The month filter keeps exactly the requests starting between the first and the last day of the current month. The week filter keeps a start after the week's Sunday, and that Sunday itself only at exact midnight. |
| LeaveRules.WeeklyFilterAsWritten | backend/controllers/leavecontroller.js:243-245 | The weekly filter as written keeps a request starting on the week's Sunday only when the clock reads exactly midnight. |
| LeaveRules.WeeklyFilterByDay | backend/controllers/leavecontroller.js:244-245 | The day-based week starts on a Sunday no more than 6 days back, and keeps today's requests. |
| LeaveRules.HttpStatus | backend/controllers/leavecontroller.js:71-200 | Each refusal is reported as 400, 404 or 500. It is 404 exactly for a missing ledger or request, and 500 exactly for the catch path. |
| LeaveModel.ParseLeaveType | backend/models/LeaveRequest.js:8 | Exactly the four names Sick, Personal, Official and Vacation are leave types. |
| LeaveModel.ParseStatus | backend/models/LeaveRequest.js:10 | Exactly Pending, Approved and Rejected are statuses. |
| LeaveModel.NamesRoundTrip | backend/models/LeaveRequest.js:8-10 | Printing a type or status and reading it back gives the same value. |
| LeaveModel.NewRequest | backend/models/LeaveRequest.js:5-11 | A new request keeps the given fields and starts Pending. |
| LeaveModel.DefaultBalances | backend/models/LeaveRequest.js:13-18 | The totals are Sick 10, Personal 5, Official 3 and Vacation 15, with nothing used. |
| LeaveModel.FreshLedger | backend/models/LeaveRequest.js:4-18 | A new document has no requests and the default balances. |
| LeaveController.ApplyToLedger | backend/controllers/leavecontroller.js:70-105 | A refusal leaves the ledger unchanged and reports the first failing check. An acceptance appends exactly one Pending request, built from the accepted dates, type and reason with the given id and creation time, keeps the earlier requests and returns the unchanged balances. |
| LeaveController.ApplyToStore | backend/controllers/leavecontroller.js:66-105 | A missing field refuses the request and creates no ledger. For a given employee id, the response is exactly the ledger's own apply on the stored or a fresh ledger, so a request passing every check is accepted. An acceptance changes only the employee's ledger, creating it with the defaults if needed, and appends to it the new request built from the accepted body. A refusal changes nothing. |
| LeaveController.UpdateLedger | backend/controllers/leavecontroller.js:188-199 | A refused update leaves the ledger unchanged. An update returns the new ledger, and that ledger is the outcome of the status change. |
| LeaveController.UpdateInStore | backend/controllers/leavecontroller.js:180-200 | A missing status or employee id gives 400. An employee id that is not an ObjectId fails the lookup's cast and gives 500. A missing ledger gives 404. The checks run in that order. For a filed ledger the response is exactly the ledger's own update. Only the employee's ledger changes, and only on success. |
| LeaveController.Rebalance | backend/controllers/leavecontroller.js:191-196 | The in-place arithmetic on `used` succeeds exactly when the transition does, and produces the transition's balance. |
| LeaveController.Ledger.Apply | backend/controllers/leavecontroller.js:87-105 | The document is updated in place to the ApplyToLedger result, and the invariant is kept. |
| LeaveController.Ledger.UpdateStatus | backend/controllers/leavecontroller.js:188-199 | The document is updated in place to the UpdateLedger result, and the invariant is kept. |
| LeaveController.Ledger.SetRequestStatus | backend/controllers/leavecontroller.js:190-199 | On success, the document becomes the SetStatus result. An overdrawing approval returns before the save and leaves the document as it was. |
| LeaveController.LeaveStore.ApplyLeave | backend/controllers/leavecontroller.js:66-105 | The store moves exactly as ApplyToStore says, and every ledger stays valid. |
| LeaveController.LeaveStore.ApplyToFiled | backend/controllers/leavecontroller.js:87-105 | The employee's existing ledger is updated in place as ApplyToLedger says. No other ledger changes and the collection keeps its keys. |
| LeaveController.LeaveStore.FileNewLedger | backend/controllers/leavecontroller.js:87-90 | A ledger created for the first request is filed only when the request is accepted. |
| LeaveController.LeaveStore.UpdateLeaveStatus | backend/controllers/leavecontroller.js:180-200 | The store moves exactly as UpdateInStore says, and every ledger stays valid. |
| LeaveController.LeaveStore.EmployeeLeaves | backend/controllers/leavecontroller.js:229-251 | A missing id gives 400. An employee without a ledger ends in the catch path, as written. Otherwise the result is the filtered subsequence of the requests, each kept request as often as it is stored, and the balances as stored. |
| LeaveController.LeaveStore.EmployeeLeavesOrDefaults | backend/controllers/leavecontroller.js:235-237 | This is the intended reply for an employee without a ledger: no requests and the default balances. |
| Calendar.MonthWindow | backend/controllers/leavecontroller.js:91-92 | A date lies between the first and the last day of a month exactly when it is in that month. |
| Calendar.FirstOfMonth | backend/controllers/leavecontroller.js:76 | `new Date(y, m, 1)` is day 1 of the same year and month. |
| Calendar.LastOfMonth | backend/controllers/leavecontroller.js:92 | `new Date(y, m + 1, 0)` is the last day of the same month, counting leap years. |
| Calendar.Weekday | backend/controllers/leavecontroller.js:244 | `getDay()` is between 0 and 6, and going back that many days lands on a Sunday. |
| Calendar.WeekStartIsSunday | backend/controllers/leavecontroller.js:244 | Going back `getDay()` days lands on a Sunday within the past 6 days. |
| Formatting.ClockRoundTrip | backend/controllers/attendancecontroller.js:55 | Reading back a printed `HH:mm` gives the same minute of the day. |
| Formatting.ClockParsesOnlyPrintedForms | backend/controllers/attendancecontroller.js:64 | A string that reads as `HH:mm` is exactly the printed form of the time it reads as. |
| Formatting.FormatDateInjective | backend/controllers/attendancecontroller.js:206 | Two different dates in the years 0 to 9999 never print alike as `DD-MM-YYYY`. |
| Formatting.FourDigits | backend/controllers/attendancecontroller.js:206 | A year below 10000 prints as four digits that read back as that year. |
| Formatting.FormatClock | backend/controllers/attendancecontroller.js:55 | `moment().format("HH:mm")`: five characters with ':' in the middle. Its meaning, that it reads back as the minute printed, is stated by ClockRoundTrip. |
| Formatting.ParseClock | backend/controllers/attendancecontroller.js:64 | `moment(s, "HH:mm")`: a parsed time is a minute of the day. ClockParsesOnlyPrintedForms states that only printed forms parse and ClockRoundTrip that each printed form parses back. |
| Formatting.FormatDate | backend/controllers/attendancecontroller.js:206 | `format('DD-MM-YYYY')`: day and month in two digits, separated by '-'. FormatDateInjective states that distinct dates print differently, and FourDigits that the year reads back. |
| AttendanceModel.ParseAttendanceStatus | backend/models/Attendance.js:6 | Only Present, Late and Absent are statuses, and each reads back to its name. |
| AttendanceModel.AttendanceNamesRoundTrip | backend/models/Attendance.js:6 | Printing a status and reading it back gives the same status. |
| AttendanceModel.NewAttendance | backend/models/Attendance.js:4-7 | The employee is kept. The date defaults to the current day, the status to Absent, and the check-in time to null. |
| AttendanceModel.UniqueAppend | backend/controllers/attendancecontroller.js:57-75 | Filing a record whose (employee, day) key is free keeps the keys unique. |
| Common.IsObjectId | backend/controllers/attendancecontroller.js:184 | The id check accepts exactly the strings of 24 characters that are all in [0-9a-fA-F]. |
| Common.HexRun | backend/controllers/attendancecontroller.js:184 | The scan accepts exactly the strings made only of hexadecimal digits. |
| AttendanceController.RequestedId | backend/controllers/attendancecontroller.js:119 | The caller's own id wins when it is truthy. Otherwise the path parameter is used. |
| AttendanceController.HttpStatus | backend/controllers/attendancecontroller.js:51-375 | Each refusal is reported as 400, 403, 404 or 500. It is 404 exactly for an unknown employee or organisation, 403 exactly for a requester who is not a Manager, and 500 exactly for the catch path. |
| AttendanceController.WorkStartIsTen | backend/controllers/attendancecontroller.js:7 | The work start time reads as minute 600, which is 10:00. |
| AttendanceController.ClassifyCheckIn | backend/controllers/attendancecontroller.js:63-66 | A check-in is Late exactly when its time is strictly after 10:00, and Present otherwise. It is never Absent. |
| AttendanceController.LateExactlyAfterTen | backend/controllers/attendancecontroller.js:55-66 | On the clock, Late means 10:01:00.000 or later. Every moment up to 10:00:59.999, including 10:00, is Present. |
| AttendanceController.CheckInStep | backend/controllers/attendancecontroller.js:45-76 | A missing id gives 400 and a malformed id the catch path. An existing record for the day gives AlreadyMarked. A refusal leaves the records unchanged. A check-in succeeds exactly when the id is a valid ObjectId with no record for the day. A success appends exactly one record with today's date, the printed time and the Present/Late status. |
| AttendanceController.SecondCheckInRefused | backend/controllers/attendancecontroller.js:57-61 | After a successful check-in, any later check-in by the same employee on the same day is refused. |
| AttendanceController.CheckInKeepsUnique | backend/controllers/attendancecontroller.js:57-75 | A check-in keeps the (employee, day) keys unique. |
| AttendanceController.Select | backend/controllers/attendancecontroller.js:263-266 | A query result is exactly the matching records of the store, with their multiplicities. |
| AttendanceController.OnDate | backend/controllers/attendancecontroller.js:260-266 | Today's records are exactly the records filed for the day. |
| AttendanceController.DepartmentRecords | backend/controllers/attendancecontroller.js:379-394 | The department query returns exactly today's records of employees in the manager's organisation and department. |
| AttendanceController.CountIsMultiplicity | backend/controllers/attendancecontroller.js:282-287 | Each counter equals the number of records carrying its status. |
| AttendanceController.Tally | backend/controllers/attendancecontroller.js:282-287 | Each counter equals the number of records with that status. TallyTotal states that the three add up to the number of records. |
| AttendanceController.TallyTotal | backend/controllers/attendancecontroller.js:282-287 | present + late + absent equals the number of records. |
| AttendanceController.Rollup | backend/controllers/attendancecontroller.js:282-296 | There is one line per record, in the same order, with the name falling back to 'Unknown' and the time to 'N/A', and the counters equal the tally. |
| AttendanceController.Entry | backend/controllers/attendancecontroller.js:289-295 | A line keeps the record's employee and status. It takes the looked-up name or 'Unknown', and the time or 'N/A'. Only the organisation-wide roll-up adds the printed date. |
| AttendanceController.Line | backend/controllers/attendancecontroller.js:203-207 | A history line keeps the record's status, shows 'N/A' when there is no check-in time, and prints the date as `DD-MM-YYYY`. |
| AttendanceController.DepartmentGuard | backend/controllers/attendancecontroller.js:363-376 | The guards run in order: a missing requester gives 400, an unknown organisation 404, and a requester who is not a Manager 403. Ids that are not ObjectIds fail the cast. The guard passes exactly when the requester is a Manager of a known organisation and both ids are ObjectIds. |
| AttendanceController.OnlyManagersGetDepartmentStatus | backend/controllers/attendancecontroller.js:373-376 | A requester who is not a Manager is always refused. |
| AttendanceController.DepartmentNamesAgree | backend/controllers/attendancecontroller.js:398-405 | The department lookup of names gives every listed record the directory's name. |
| AttendanceController.BackfillAdds | backend/controllers/attendancecontroller.js:435-439 | Every record the job adds is an Absent record for today, with no check-in time, for a listed employee who had no record today. |
| AttendanceController.Backfill | backend/controllers/attendancecontroller.js:435-440 | Existing records are kept untouched as a prefix. |
| AttendanceController.BackfillCovers | backend/controllers/attendancecontroller.js:435-440 | Afterwards, every employee has a record for today. |
| AttendanceController.BackfillExactlyMissing | backend/controllers/attendancecontroller.js:435-440 | A new record for an employee exists exactly when the employee was listed and had no record today. |
| AttendanceController.BackfillKeepsUnique | backend/controllers/attendancecontroller.js:435-440 | The job keeps the (employee, day) keys unique. |
| AttendanceController.AttendanceStore.CheckIn | backend/controllers/attendancecontroller.js:45-81 | The store moves exactly as CheckInStep says and keeps its keys unique. |
| AttendanceController.AttendanceStore.MarkAbsentees | backend/controllers/attendancecontroller.js:430-445 | The loop leaves the store as Backfill says and keeps its keys unique. |
| AttendanceController.AttendanceStore.StatusForToday | backend/controllers/attendancecontroller.js:258-298 | "No records" is reported exactly when nothing is filed today. There is one line per record of today, carrying the printed date, and the counters equal the tally. |
| AttendanceController.AttendanceStore.DepartmentStatusToday | backend/controllers/attendancecontroller.js:359-411 | The call is refused exactly when the guard chain refuses, with the guard's error. Otherwise there is one line per department record of today, without a date, and the counters equal the tally. |
| AttendanceController.AttendanceStore.EmployeeAttendanceRecords | backend/controllers/attendancecontroller.js:181-208 | A malformed id gives 400 and an unknown employee 404. The reply is a history exactly when the id is an ObjectId of a known employee. It then carries the name, the mail and one line per record of the employee, with the printed date. |
| AttendanceController.AttendanceStore.EmployeeAttendance | backend/controllers/attendancecontroller.js:117-124 | A malformed id fails the cast. Otherwise the list holds exactly the employee's records. |
| Pagination.NormalisePage | backend/utils/pagination.js:2 | The page is at least 1. A missing, unreadable, zero or negative page becomes 1, and other pages are kept. |
| Pagination.NormaliseLimit | backend/utils/pagination.js:3 | The limit is at least 1. A missing, unreadable or zero limit becomes 10, a negative one becomes 1, and other limits are kept. |
| Pagination.NormaliseIdempotent | backend/utils/pagination.js:2-3 | Normalising a page or limit a second time changes nothing. |
| Pagination.SkipWholePages | backend/utils/pagination.js:4 | The skip is (page − 1) · limit, which is never negative and is a whole number of pages. |
| Pagination.PagesDisjoint | backend/utils/pagination.js:4 | Two different pages never share a position. |
| Pagination.PositionOnItsPage | backend/utils/pagination.js:4 | Every position i lies on page i / limit + 1. |
| Pagination.Window | backend/utils/pagination.js:4 | A page holds the limit or what is left after the skip, whichever is fewer. They are the items at consecutive positions from the skip, and the page holds every item at a position on it. |
| Pagination.Paginate | backend/utils/pagination.js:1-5 | The page holds exactly the normalised limit, or every item left after the normalised skip when fewer remain. They are the items at consecutive positions from that skip. |
| Pagination.FirstTenByDefault | backend/utils/pagination.js:2-4 | With neither parameter, the first ten items are returned. |

## Findings

| source | as written | input that shows it | evidently intended | confidence | as-written member | corrected member |
|---|---|---|---|---|---|---|
| backend/controllers/leavecontroller.js:191-198 | Approved→Pending leaves `used` debited while the request stops being Approved. | A ledger with one Approved Sick request of 2 days and `used` 2, updated to Pending: `used` stays 2 while no request is Approved. | Leaving Approved for any status refunds the span. | medium, not executed | LeaveRules.ApprovedToPendingKeepsDebit | LeaveRules.RefundingStatusChangeKeepsExactAccounting |
| backend/controllers/leavecontroller.js:235-237 | With no ledger, `leaveRecord.leaveBalances` dereferences null, so the handler replies 500. | Any employee id with no leave document yet. | Reply with no requests and the default balances. | high, not executed | LeaveController.LeaveStore.EmployeeLeaves | LeaveController.LeaveStore.EmployeeLeavesOrDefaults |
| backend/controllers/leavecontroller.js:244-245 | weekStart keeps the current time of day, so a request starting on that Sunday (stored at midnight) is filtered out. | now = Wednesday 12:00, request starting on the Sunday before. | The week starts at Sunday 00:00. | high, not executed | LeaveRules.WeeklyFilterDropsSunday | LeaveRules.WeeklyFilterByDay |

## Where the code and its documented behaviour differ

- **Monthly cap.** The code counts Approved requests of every type (backend/controllers/leavecontroller.js:93-95), not only those of the new request's type. The model follows the code.
- **Check order.** The combined "start before this month or end before start" check runs before the invalid-range check (backend/controllers/leavecontroller.js:76-82). The model keeps this order, so invalid dates pass the first check and are reported as an invalid range.

## Left out

- Express routing, middleware and the JWT check. The caller's id is a parameter (`Option<string>`).
- Mongoose queries are not modelled as a query engine.
  - `findOne`, `find`, `populate`, `select` and `lean` become lookups in maps and selections over sequences.
  - A filter on an id that is not an ObjectId is modelled as the cast failure that reaches the catch path. This is modelled in the status update (the body's employee id), in check-in and the manager lookup of the department roll-up (the caller's own id from the signed token, which cannot fail there in practice, since the token carries a stored employee's id), in the organisation lookup, and in the per-employee listings (the caller's id or the path id). Only `applyLeave` and `getEmployeeLeaves` take the caller's own id to be an ObjectId, with no cast branch.
- Case of ids. Ids are compared as strings, in the lowercase form the server hands out. Mongoose casts an id before comparing it and ignores hexadecimal case, so an upper-case spelling of a stored id finds the document in the source, but the model's lookups answer "not found" for it (status update, request lookup, organisation, per-employee listings).
- The exact-midnight date range of the department query (attendancecontroller.js:390-393). It is modelled as "filed for today", like the other queries.
- Time zones. Dates are UTC calendar days, and "today", the current month and the current time are parameters. The two `moment()` calls of a check-in are taken to read the same instant.
- Sorting: `sort({ date: -1 })` in both per-employee listings (attendancecontroller.js:122, 194). The model returns the records in filing order.
- AttendanceController.AttendanceStore.EmployeeAttendance: the list is stated by membership, not by the descending date order of the source.
- AttendanceController.AttendanceStore.EmployeeAttendanceRecords: the lines follow filing order, not the descending date order of the source.
- `parseInt` and `new Date(...)` are taken as given. A parameter is the integer read (None for NaN), and a date field is missing, unparseable or a date.
- Concurrency. Lost updates and duplicate check-ins from concurrent requests are not modelled.
- Errors of the absentee job. The job's catch only logs them.
- Other server errors. The catch paths of the handlers (500) for store failures are modelled only where a value of the model causes them: unknown leave type or status, missing ledger, id cast.
- getAllLeaves (leavecontroller.js:131-138) only lists every document. It has no rule to model.
- getDepartmentLeaveRequests (leavecontroller.js:276-291) only lists the leave documents of the requester's department. Its single guard answers 403 when the requester is not found or is not a Manager, and a cast failure on the ids reaches its catch (500). It has no 400 or 404 step and no organisation lookup, unlike AttendanceController.DepartmentGuard, and it is not modelled.
- Formatting.YearText: years outside 0 to 9999 are printed as a signed plain decimal. The exact moment output for such years is not modelled.
- The `message`, `success` and `employee` wrapper fields of the JSON replies are not modelled. Only the data they carry is.
