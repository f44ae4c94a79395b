# Lecture manager: scheduling and attendance rules in Dafny

This project models the scheduling and attendance logic of the lecture manager, a Django backend with a React client, and proves properties of that model.

**Backend**
- The timetable import validates weekly slots and expands each slot into one lecture per matching day. Every lecture gets an attendance row for the user.
- The attendance toggle upserts the user's attendance row for a lecture.
- The summarize endpoint returns a cached summary, or extracts and summarises the uploaded note.
- The lecture list filters lectures by a date window.

**Client**
- The attendance toggle patches the query cache optimistically, rolls the patch back on error, and marks the cache stale when the request settles.
- The import form previews the matching dates, validates its fields, and builds one slot per selected weekday.
- The dashboard sorts lectures into sections and counts attended lectures per course.
- The weekly grid maps lectures to hour blocks, finds the lecture in a cell, and moves between weeks within bounds.
- An attendance-row lookup, with a get-or-create wrapper, finds the user's row for a lecture.

**Representation**
- Dates are integer day numbers: day 0 is 1970-01-01, a Thursday. Times of day are minutes.
- Backend timestamps are UTC minutes. Client timestamps are local minutes.
- The backend indexes weekdays Monday-first, as Python's `weekday()` does. The client indexes them Sunday-first, as `getDay()` does. `Calendar` defines both mappings, and `ImportForm.WeekdayNameAgrees` relates them.
- Database tables are maps keyed by the natural keys `get_or_create` looks rows up by. They sit in a `Store` class whose handlers update them in place.
- The client's query cache is a `QueryClient` class holding a map from query keys to entries.

Modules and files:

| file | module | models |
|---|---|---|
| wrappers.dfy | Wrappers | `Option`, `Result` |
| calendar.dfy | Calendar | day numbers, both weekday numberings, `datetime.combine`, `new Date(y, m, d)`, `startOfWeek` |
| date_text.dfy | DateText | `split`, `Number`, `localDate`, `format("yyyy-MM-dd")` |
| serializers.dfy | Serializers | `SlotSerializer` field checks and `validate` |
| views.dfy | Views | `ImportTimetable.post`, `LectureAttendanceToggle.post`, `SummarizeNotes.post`, `LectureViewSet.get_queryset` |
| api_types.dfy | ApiTypes | the JSON shapes the client reads |
| use_attendance.dfy | UseAttendance | `computeStatus`, the patch, `onMutate`, `onError`, `onSettled` |
| import_form.dfy | ImportForm | `toggleDay`, `datesInRange`, `validate`, `onSubmit` |
| dashboard.dfy | Dashboard | `sections`, `courseProgress` |
| weekly_schedule.dfy | WeeklySchedule | `gridLectures`, `getLectureForSlot`, `navigateWeek`, `canNavigatePrev`/`canNavigateNext`, `handleAttendanceToggle` |
| attendances_api.dfy | AttendancesApi | `getMyAttendanceForLecture`, `ensureMyAttendance` |

## Model

| member | source | states |
|---|---|---|
| Calendar.PyWeekday | backend/core/views.py:90 | `weekday()` is a number in 0..6 |
| Calendar.JsDay | frontend/src/pages/ImportTimetable.tsx:67 | `getDay()` is a number in 0..6 |
| Calendar.JsDayIsPyWeekdayShifted | backend/core/serializers.py:4 | the Sunday-first number is the Monday-first number plus one, mod 7, and back |
| Calendar.NextDayWeekday | backend/core/views.py:110 | advancing the cursor one day advances both weekday numbers by one, cyclically |
| Calendar.Combine | backend/core/views.py:91-92 | the combined timestamp has the given date and the given time of day |
| Calendar.CombineInjective | backend/core/views.py:94-96 | distinct (day, start time) pairs give distinct lecture keys |
| Calendar.JsDateDayAnchors | frontend/src/pages/ImportTimetable.tsx:31 | `new Date(1970, 0, 1)` and `new Date(70, 0, 1)` are day 0, a Thursday; 2025-08-13 is a Wednesday in both numberings |
| Calendar.JsDateDayCarries | frontend/src/pages/ImportTimetable.tsx:71 | day overflow carries into the next day and month overflow into the next year, so the cursor's `addDays(1)` is day + 1 |
| Calendar.StartOfWeek | frontend/src/pages/WeeklySchedule.tsx:69 | the start of a week is a Sunday, at most six days before the date |
| Calendar.StartOfWeekShift | frontend/src/pages/WeeklySchedule.tsx:148 | moving k weeks moves the start of the week by exactly k weeks |
| DateText.JoinSplit | frontend/src/pages/ImportTimetable.tsx:30 | joining the pieces of `split` gives back the string |
| DateText.LocalDate | frontend/src/pages/ImportTimetable.tsx:29-32 | the result is a date exactly when year, month and day all read as numbers and `new Date(y, m - 1, d)` lies within the range a `Date` can hold (±100,000,000 days from 1970-01-01), and it is then that date |
| Calendar.JsDateDayInRange | frontend/src/pages/ImportTimetable.tsx:31 | every date with a four-digit year and two-digit month and day lies within the range of a `Date` |
| Calendar.JsDateDayBeyondRange | frontend/src/pages/ImportTimetable.tsx:31 | `new Date(300000, 0, 1)` lies beyond that range |
| DateText.LocalDateBeyondRange | frontend/src/pages/ImportTimetable.tsx:29-32 | "300000-01-01" is an Invalid Date |
| DateText.LocalDateOfFormat | frontend/src/pages/WeeklySchedule.tsx:56-59 | `localDate` reads back the date that `format(d, "yyyy-MM-dd")` wrote |
| DateText.LocalDateTwoDigitYear | frontend/src/pages/ImportTimetable.tsx:31 | year 0050 is read as 1950, by the constructor's 0..99 rule |
| DateText.LocalDateOfEmpty | frontend/src/pages/ImportTimetable.tsx:59 | an empty date is an Invalid Date |
| Serializers.Strip | backend/core/serializers.py:21 | the stripped text is empty exactly when the text is all whitespace, has no whitespace at either end, and is no longer than the text |
| Serializers.StripPadded | backend/core/serializers.py:21 | whitespace around a text without whitespace at its ends is exactly what stripping removes |
| Serializers.StripIdempotent | backend/core/serializers.py:21 | stripping twice is stripping once |
| Serializers.BadFields | backend/core/serializers.py:20-26 | a field is reported exactly when it is missing or unparsable, when the course is blank, longer than 100 characters or holds a NUL character once stripped, or when the weekday is not one of `WEEKDAYS` |
| Serializers.BlankCourseRefused | backend/core/serializers.py:21 | a course name made only of whitespace is reported and the slot is refused |
| Serializers.Validate | backend/core/serializers.py:28-34 | rejects start after end, then from after to; equal values pass; the time error wins when both fail; valid data is returned unchanged |
| Serializers.NullCharacterRefused | backend/core/serializers.py:21 | a course name holding a NUL character anywhere is reported and the slot is refused |
| Serializers.StripKeepsInner | backend/core/serializers.py:21 | a character that is not whitespace survives stripping |
| Serializers.RunValidation | backend/core/serializers.py:20-34 | an accepted slot satisfies every field and ordering check, holds the stripped course name, keeps its location, and is accepted exactly when both stages pass |
| Serializers.PaddedCourseNamesAgree | backend/core/serializers.py:21 | two course names that strip to the same text validate to the same result |
| Serializers.ValidateMany | backend/core/views.py:69-70 | the list is accepted exactly when every slot is, and then holds each slot's validated value (course name stripped) in order; otherwise each position carries its own error |
| Views.Store.GetOrCreateCourse | backend/core/views.py:78-82 | the (user, name) course exists afterwards; an existing one is untouched; a new one gets the given colour and a fresh id |
| Views.Store.GetOrCreateLecture | backend/core/views.py:94-98 | `made` exactly when the (course, start) key was absent; the end and location defaults apply only on creation |
| Views.Store.GetOrCreateAttendance | backend/core/views.py:101-105 | a new row starts with `attended = False`; an existing row is returned unchanged |
| Views.WeekdayIndex | backend/core/views.py:74 | the index is defined exactly for the names in `WEEKDAYS`, and names that position |
| Views.VisitDay | backend/core/views.py:90-108 | on a matching day the lecture and the user's attendance row exist afterwards; `made` only for a new lecture of that day |
| Views.ExpandSlot | backend/core/views.py:84-110 | every matching day in range has its lecture and attendance; nothing existing changes; new lectures are matching days with the slot's end and location; count = new lectures ≤ matching days; 0 when all existed |
| Views.NewLecturesBound | backend/core/views.py:107-108 | one slot adds at most as many lectures as it has matching days, and none when they all exist |
| Views.ImportSlot | backend/core/views.py:77-110 | gets or creates the slot's course in the import colour, then expands the slot; every new lecture is one of that slot's matching days, with the slot's end and location |
| Views.ImportSlots | backend/core/views.py:77-112 | all slots imported; existing rows unchanged; new courses and attendance rows are the import's own; every new lecture is made by one of the slots, on a matching day, with that slot's end and location; created = new lectures ≤ total matching (slot, day) pairs; 0 on re-import |
| Views.MadeByImportWitness | backend/core/views.py:77-98 | a lecture made by the import names the slot that made it |
| Views.ImportProgressStep | backend/core/views.py:77 | one slot of the loop keeps the import invariant |
| Views.ImportTimetable | backend/core/views.py:68-112 | an invalid list is a 400 that changes nothing; a valid one is imported with all the facts above, including that each new lecture is made by one of the slots, and answers 201 |
| Views.ImportTwice | backend/core/views.py:94-98 | posting the same timetable again creates nothing: the second response is `created = 0` and the lecture table is as the first post left it (or the same 400, with the table unchanged) |
| Views.ToggleAttendance | backend/core/views.py:200-215 | unknown lecture or non-boolean `attended`: 404 with no change; otherwise the user's row, created if missing, ends with `attended` equal to the given boolean and nothing else changes |
| Views.SummarizeNotes | backend/core/views.py:150-179 | missing row 404; cached summary returned without calling the summariser; no note 404; unreadable note 500; otherwise the summary is stored on that row only and returned |
| Views.LectureQuery | backend/core/views.py:40-54 | a 500 exactly when `from` or `to` is text the date lookup cannot read; otherwise a lecture is listed exactly when it is the user's, starts on or after `from` and ends on or before `to` (each filter only when given and non-empty), with its row unchanged |
| Views.LectureQueryUnfiltered | backend/core/views.py:42 | without `from` and `to` every lecture of the user is listed |
| Views.SlotLectureListed | backend/core/views.py:49-52 | every lecture an import created is listed, and the list answered, by a window of absent, empty or readable parameters covering the slot's date range |
| UseAttendance.StartTime | frontend/src/hooks/use-attendance.ts:9 | the first non-nullish of `start_dt`, `startDt` and `start`; `null` is the epoch and `undefined` is invalid |
| UseAttendance.ComputeStatus | frontend/src/hooks/use-attendance.ts:7-13 | "upcoming" exactly when the start is after now, whatever `attended` is; otherwise "summarized" with a summary; otherwise "attended" or "missed" by the flag |
| UseAttendance.PatchItem | frontend/src/hooks/use-attendance.ts:31-32 | only the record with the toggled id changes: it gets the flag and the recomputed status, and every other field is kept |
| UseAttendance.PatchItems | frontend/src/hooks/use-attendance.ts:33 | the list keeps its length and every element is patched in place |
| UseAttendance.PatchPayload | frontend/src/hooks/use-attendance.ts:29-36 | arrays are patched element-wise; for an object only its `results` array is patched; any other value, falsy or not, is returned unchanged |
| UseAttendance.PatchPayloadIdempotent | frontend/src/hooks/use-attendance.ts:31-32 | patching twice is the same as patching once |
| UseAttendance.SetData | frontend/src/hooks/use-attendance.ts:42 | an undefined value is ignored; any other value replaces that entry's data and marks the entry fresh, and no other entry changes |
| UseAttendance.Invalidated | frontend/src/hooks/use-attendance.ts:45-46 | exactly the entries whose key starts with the prefix are marked stale |
| UseAttendance.PatchedCache | frontend/src/hooks/use-attendance.ts:28-37 | the same keys; entries outside `["lectures", ...]` are identical; each entry in that family holds the patched data |
| UseAttendance.RestoredIsOverlay | frontend/src/hooks/use-attendance.ts:42 | writing the snapshots back one by one is overlaying them all at once |
| UseAttendance.RollbackRestores | frontend/src/hooks/use-attendance.ts:41-43 | after the patch, writing back the snapshots restores every entry's data exactly; no entry is added; entries outside the family are untouched |
| UseAttendance.QueryClient.constructor | frontend/src/App.tsx:20 | the cache starts empty |
| UseAttendance.QueryClient.GetQueryData | frontend/src/hooks/use-attendance.ts:29 | the entry's data, or undefined for an uncached key |
| UseAttendance.QueryClient.GetQueriesData | frontend/src/hooks/use-attendance.ts:25 | every cached entry of the family is listed exactly once, with its data |
| UseAttendance.QueryClient.SetQueryData | frontend/src/hooks/use-attendance.ts:42 | the cache becomes the `SetData` update of the old cache |
| UseAttendance.QueryClient.InvalidateQueries | frontend/src/hooks/use-attendance.ts:45 | the cache becomes the `Invalidated` update of the old cache |
| UseAttendance.QueryClient.OnMutate | frontend/src/hooks/use-attendance.ts:23-40 | returns a snapshot of the lectures family and leaves the cache patched, with nothing else changed |
| UseAttendance.QueryClient.OnError | frontend/src/hooks/use-attendance.ts:41-43 | writes every snapshot back; without a context, nothing changes |
| UseAttendance.QueryClient.OnSettled | frontend/src/hooks/use-attendance.ts:44-47 | both the lectures and the dashboard families are marked stale |
| UseAttendance.ToggleMutation | frontend/src/hooks/use-attendance.ts:18-48 | on failure every entry's data is as before; on success it is the patched data; either way both families are stale and every other entry is untouched |
| ImportForm.WeekdayName | frontend/src/pages/ImportTimetable.tsx:17-25 | every name sent is one the server accepts |
| ImportForm.WeekdayNameAgrees | frontend/src/pages/ImportTimetable.tsx:117 | the server's Monday-first index of the name sent for toggle k matches exactly the days whose `getDay` is k |
| ImportForm.ToggleDay | frontend/src/pages/ImportTimetable.tsx:76-78 | day k flips and the other six keep their value |
| ImportForm.ToggleDayTwice | frontend/src/pages/ImportTimetable.tsx:77 | toggling the same day twice restores the form |
| ImportForm.MatchingDaysMembers | frontend/src/pages/ImportTimetable.tsx:66-70 | a day is listed exactly when it lies in [start, end] and its weekday is selected |
| ImportForm.MatchingDaysIncreasing | frontend/src/pages/ImportTimetable.tsx:65-72 | the list stays within [start, end] and strictly increases, so it has no duplicates |
| ImportForm.DatesInRange | frontend/src/pages/ImportTimetable.tsx:58-74 | empty when a date is missing or start is after end; otherwise the cursor loop lists exactly the matching days |
| ImportForm.MessagesDistinct | frontend/src/pages/ImportTimetable.tsx:81-88 | each refusal shows its own toast text, so distinct refusals read differently |
| ImportForm.Validate | frontend/src/pages/ImportTimetable.tsx:80-90 | the six checks run in order and the first that fails is reported; null exactly when all pass |
| ImportForm.ValidClockTimesAreOrdered | frontend/src/pages/ImportTimetable.tsx:85-88 | for "HH:MM" times, passing means the end is strictly later in minutes, so equal times are refused |
| ImportForm.ValidateLetsHourOnlyThrough | frontend/src/pages/ImportTimetable.tsx:87 | a time without ":" leaves the minutes undefined, which `Number.isNaN` does not flag, and the form passes |
| ImportForm.SelectedKeys | frontend/src/pages/ImportTimetable.tsx:102 | exactly the selected days, Sunday first, in increasing order |
| ImportForm.AnyDayHasKeys | frontend/src/pages/ImportTimetable.tsx:103 | some day is selected exactly when the selected-key list is non-empty |
| ImportForm.Submit | frontend/src/pages/ImportTimetable.tsx:92-123 | the first failed check is reported; with no matching date nothing is posted; otherwise one slot per selected weekday, each with the form's course, times, dates and location |
| ImportForm.PreviewIsServerExpansion | frontend/src/pages/ImportTimetable.tsx:115-123 | for the same first and last day, the days the server creates lectures on for the posted slots are exactly the previewed days |
| Dashboard.UiStatusOf | frontend/src/pages/Dashboard.tsx:35-37 | "attended" becomes "needs-notes"; every other status passes through; "attended" is never shown |
| Dashboard.WithStatusMembers | frontend/src/pages/Dashboard.tsx:39-42 | a section before sorting holds exactly the lectures of its status |
| Dashboard.SortByTimeSorts | frontend/src/pages/Dashboard.tsx:46-47 | the sorted section is ordered by start time and is a permutation of its input |
| Dashboard.SortByTimeStable | frontend/src/pages/Dashboard.tsx:46 | lectures with the same start time keep their relative order |
| Dashboard.InsertInPlace | frontend/src/pages/Dashboard.tsx:47 | one insertion step leaves the prefix sorted by the insertion function and the rest of the array unchanged |
| Dashboard.SortInPlace | frontend/src/pages/Dashboard.tsx:47 | the in-place sort leaves the array equal to the stable sort of its old contents |
| Dashboard.SortedSection | frontend/src/pages/Dashboard.tsx:47 | a section is returned as its stable sort |
| Dashboard.ComputeSections | frontend/src/pages/Dashboard.tsx:21-49 | with no data all sections are empty; otherwise each section is the sorted list of the lectures of its status, over all courses |
| Dashboard.SectionsArePartition | frontend/src/pages/Dashboard.tsx:39-47 | each section is sorted and is a permutation of the lectures with its status |
| Dashboard.SectionOfLecture | frontend/src/pages/Dashboard.tsx:39-42 | an upcoming, missed or attended lecture is in its section; a summarized one is in none |
| Dashboard.AttendedAtMostTotal | frontend/src/pages/Dashboard.tsx:55-56 | attended ≤ total, with equality exactly when every lecture counts as attended |
| Dashboard.ProgressOf | frontend/src/pages/Dashboard.tsx:54-64 | a course's total is its lecture count; attended counts "attended" or "summarized"; attended ≤ total; the code is the name |
| Dashboard.CourseProgress | frontend/src/pages/Dashboard.tsx:52-66 | one entry per course, in input order; none without data |
| WeeklySchedule.Hour | frontend/src/pages/WeeklySchedule.tsx:84 | `getHours()` is in 0..23 |
| WeeklySchedule.Weekday | frontend/src/pages/WeeklySchedule.tsx:90 | `getDay()` of a timestamp is in 0..6 |
| WeeklySchedule.ToGrid | frontend/src/pages/WeeklySchedule.tsx:81-98 | the block starts at the start hour and ends at the later of the next hour and the end hour; `attended` exactly for "attended" or "summarized"; `hasSummary` exactly for "summarized" |
| WeeklySchedule.GridLectures | frontend/src/pages/WeeklySchedule.tsx:79-100 | no blocks before data; otherwise one block per lecture, in order |
| WeeklySchedule.GridAgreesWithProgress | frontend/src/pages/WeeklySchedule.tsx:94 | the grid shows as attended exactly as many lectures as the dashboard counts as attended |
| WeeklySchedule.FirstCovering | frontend/src/pages/WeeklySchedule.tsx:156 | the index found covers the cell and no earlier block does; none only when no block covers it |
| WeeklySchedule.GetLectureForSlot | frontend/src/pages/WeeklySchedule.tsx:155-157 | the first block with that day and `startTime ≤ hour < endTime`, or nothing exactly when none matches |
| WeeklySchedule.StartCellIsTaken | frontend/src/pages/WeeklySchedule.tsx:155-157 | every grid block's own start cell shows a lecture |
| WeeklySchedule.NavigationKeepsBounds | frontend/src/pages/WeeklySchedule.tsx:159-160 | a button is enabled exactly when the week one step away starts inside the bounds, so navigation never leaves them |
| WeeklySchedule.ScheduleView.constructor | frontend/src/pages/WeeklySchedule.tsx:61-63 | the page opens on the `week` parameter's date, or on today when there is none |
| WeeklySchedule.ScheduleView.HandleLectureClick | frontend/src/pages/WeeklySchedule.tsx:116-119 | the clicked lecture becomes the selection |
| WeeklySchedule.ScheduleView.HandleAttendanceToggle | frontend/src/pages/WeeklySchedule.tsx:121-127 | a no-op with no selection; otherwise only the selection's `attended` changes and a toggle for its id is sent |
| WeeklySchedule.ScheduleView.NavigateWeek | frontend/src/pages/WeeklySchedule.tsx:147-153 | refused exactly when the matching button is disabled; otherwise the week moves by exactly one week and is written to the URL |
| AttendancesApi.RowsOf | frontend/src/api/attendances.ts:17 | the array itself, else its `results`, else empty |
| AttendancesApi.FindRow | frontend/src/api/attendances.ts:20 | the first row for the lecture, or none when no row is for it |
| AttendancesApi.SelectRow | frontend/src/api/attendances.ts:20-21 | the first matching row if any, else the first row; null exactly when the list is empty |
| AttendancesApi.GetMyAttendanceForLecture | frontend/src/api/attendances.ts:11-22 | a row of the response, null exactly when the response has no rows |
| AttendancesApi.FilteredListGivesOwnRow | frontend/src/api/attendances.ts:19-21 | when the server filtered by lecture, the row returned is that lecture's |
| AttendancesApi.UnfilteredListFallsBack | frontend/src/api/attendances.ts:21 | an unfiltered list without the lecture yields another lecture's row |
| AttendancesApi.EnsureMyAttendance | frontend/src/api/attendances.ts:29-33 | an existing row is returned and nothing is created; a row is created only when the lookup finds none |

## Left out

- Authentication, permissions, routing, the admin, and ORM internals are not modelled. Tables are maps keyed as `get_or_create` looks rows up.
- The token handling in frontend/src/lib is not modelled. The HTTP client there has no interceptor or refresh logic.
- `uuid4` primary keys are drawn from a counter. Uniqueness is kept as a class invariant.
- `updated_at` is not modelled. The note file upload is not modelled either; a note is an opaque `NoteFile`.
- The text extractor and the summariser (backend/core/utils/summarization.py) are function parameters that may fail. The OpenAI, PDF and DOCX calls are not modelled.
- Views.SummarizeNotes: a failing summariser is modelled as a 500 response. In the source, the exception propagates out of the view.
- Parsing of time and date strings on the server is taken as done. A serializer field that does not parse is `None`, and is reported. A `from` or `to` parameter of the lecture list is `NoParam` when absent or empty, `DateParam` when the `__date` lookup reads it, and `BadParam` otherwise; which strings that lookup reads is not modelled.
- `SlotSerializer` declares no `location` field, yet the view reads `slot["location"]`. In the source that lookup raises `KeyError`, a 500, on the first matching day of every import, after the slot's course has been created. The model takes the location as a slot input, so its 201 path is the evidently intended behaviour rather than what the code as written reaches.
- The client posts `{lectures}` while the view expects a list (frontend/src/api/import.ts). This wrapper is not part of this model.
- Time zones are not modelled:
  - Local time equals UTC.
  - The client's `toUtcClockHHMM` conversion is the parameter `utcClock` of `ImportForm.Submit`.
  - Daylight-saving shifts and the browser's zone are not modelled.
- ImportForm.Validate: ordering of the two dates uses `localDate` rather than `new Date("YYYY-MM-DD")`. The latter parses as UTC midnight. The two agree on the order of dates typed into date inputs, except for years before 100.
- DateText.StringToNumber: only the empty string and strings of decimal digits are read. Signs, decimals, exponents and surrounding spaces give NaN here, though `Number` accepts them. Digit strings are read as exact integers; the rounding of very long ones to a double is not modelled.
- ImportForm.DatesInRange: requires each non-empty date to be readable by `localDate`. The source loops forever on an Invalid Date. Date inputs only produce "" or a valid date.
- ImportForm.DatesInRange: an end date of 275760-09-13 (day 100,000,000, the last a `Date` can hold) is readable, but in the source `addDays` past it gives an Invalid Date, `isAfter` of which is false, so the loop never ends. The model stops after that day and returns the list.
- ImportForm.DatesInRange: the dates are returned as day numbers, not as the "yyyy-MM-dd" strings `format` writes.
- WeeklySchedule.ScheduleView.constructor: requires a readable `week` parameter. An Invalid Date there makes `format` throw in the source.
- WeeklySchedule: `now` and the ±6-month bounds from `subMonths`/`addMonths` are parameters, and the shown week is a day number. The focus highlight, the drawer, the file upload and the summary button are not modelled.
- UseAttendance: `cancelQueries`, the HTTP request itself, refetching after invalidation, and `dataUpdatedAt` are not modelled. The server's answer is the parameter `serverFails` of `ToggleMutation`.
- UseAttendance.QueryClient.GetQueriesData lists the family in an unspecified order. TanStack lists it in cache order; the results do not depend on the order.
- Dashboard: `new Date(start_dt)` is taken to be a valid timestamp. A NaN comparator result from an invalid date is not modelled. The `percentage` shown by the progress component is not modelled.
- Dashboard.SortInPlace: the stable sort is modelled as an insertion sort. `Array.prototype.sort` only promises stability, and the result is the same.
- AttendancesApi: a `results` field that is present but not an array, and null rows, are not modelled.
- Views.LectureQuery: the result is a map, so the table's default ordering by `start_dt` (backend/core/models.py:35-37) is not modelled. The client's first-match lookups see lectures in that order.
- Views.ImportTimetable: day numbers are unbounded, while Python's `date` ends at 9999-12-31. For a valid slot whose `to_date` is 9999-12-31, the source's cursor step after that day (backend/core/views.py:110) raises `OverflowError`: the request is a 500, and the rows written before it stay, since no transaction wraps the loop. The model answers 201 with that day's lecture created.
- Views.ExpandSlot: the same cursor overflow after 9999-12-31 is not modelled; the model's loop ends normally there.
- Serializers.CourseOk: surrogate code points, which `CharField`'s default validators also refuse, cannot occur in a Dafny string, so that check has no counterpart.
- Serializers.CourseOk: the course is taken to be a string. DRF's `CharField` also turns a number into its text, and refuses other values; that conversion is not modelled.
- The attendance list endpoint, the dashboard endpoint, registration and ping are not modelled.
