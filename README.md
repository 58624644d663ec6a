# Relief teacher planning, modelled in Dafny

This project models the core of a school's relief teacher planner. Teachers report sick for one to
fourteen days. For each school day the dashboard lists every sick teacher's lessons. Each lesson
shows its relief teacher, if one is assigned, and the teachers free to cover it. An assignment
is refused when the relief teacher already covers another lesson in the same period that day.
Timetables come from forms, from a JSON import and from aSc Timetables XML exports. In
fortnightly rotation the odd- and even-week exports are merged into one import. A plain-text
relief summary of the day can be copied from the dashboard.

The database is an in-memory store. The `Store.Database` class holds the five tables (teachers,
periods, timetable entries, sick reports, relief assignments) as sequences, plus an id counter
that stands for the database's generated ids. The route handlers and server actions are methods
on it. Each one states its reply or thrown error for every input, the new contents of every
table, and that the store stays consistent: ids lie below the counter and are unique within each
table, and so are the timetable's
(teacher, weekday, period, week type) key and the period numbers. Dates are whole-day numbers,
with day 0 = 1 January 1970. The ISO 8601 week arithmetic behind the odd/even rotation is
written out on them. The parsing and grouping code that works by loops is modelled as methods
with loop invariants. Each is proved equal to a recursive specification function, and the
properties are proved about those functions. The dashboard page's own state (selected day,
week override, loaded schedule, assign dialog) is a class with the page's handlers as methods.

Modules, one per source file or concern:

- `Common`, `Sorting`, `JsString`: the JavaScript built-ins the program relies on:
  - `find`, `filter`, `findIndex`;
  - de-duplication with a `Set`, and a `Map` built by `set` in a loop;
  - stable `sort`;
  - `trim`, `trimEnd`, `split`, `join`, `indexOf`, `parseInt(s, 10)`, `toUpperCase`.
- `Domain`, `Store`: the schema and the store.
- `Ledger`: the relief-assignment conflict rule and the no-double-booking invariant.
- `WeekParity`: `src/lib/weekType.ts`.
- `Coverage`, `DashboardApi`: `GET /api/dashboard`.
- `Timetable`, `TimetableApi`, `TimetableActions`: the timetable routes and actions.
- `ReliefAssignmentsApi`, `DashboardActions`: creating and removing relief assignments.
- `SickReportsApi`, `SickReportActions`: the sick-report route and action.
- `AscXml`: `parseAscXml` after the DOM has been built.
- `ImportMerge`: `mergeParseResults`.
- `ImportApi`: `POST /api/import-timetable` and its transaction.
- `ReliefSummary`: `generateReliefSummary`.
- `DashboardView`: the dashboard page's state and optimistic updates.

## Model

| member | source | states |
|---|---|---|
| WeekParity.JsWeekday | src/lib/weekType.ts:6 | `getDay` is in 0..6 and is 4 (Thursday) exactly on the days divisible by 7 |
| WeekParity.IsoWeekday | src/lib/weekType.ts:6 | `getDay() \|\| 7` is in 1..7 and agrees with `getDay` modulo 7, so Sunday is day 7 |
| WeekParity.YearOf | src/lib/weekType.ts:7 | the year of a day is the one whose 1 January is on or before it while the next year's is after it |
| WeekParity.YearOfUnique | src/lib/weekType.ts:7 | only one year contains a given day |
| WeekParity.YearLength | src/lib/weekType.ts:7 | a year has 366 days when it is a Gregorian leap year and 365 otherwise |
| WeekParity.ThursdayOf | src/lib/weekType.ts:5-6 | the day moved to the Thursday of its Monday-to-Sunday week |
| WeekParity.CeilDiv | src/lib/weekType.ts:8 | `Math.ceil(n / k)`: the least whole number whose product with k reaches n |
| WeekParity.WeekOfYear | src/lib/weekType.ts:7-8 | the week counted from 1 January lies in 1..53 |
| WeekParity.IsoWeekNumber | src/lib/weekType.ts:2-9 | the ISO week number lies in 1..53 |
| WeekParity.WeekTypeIsParity | src/lib/weekType.ts:12-14 | `getWeekType` is ODD exactly for odd week numbers and EVEN exactly for even ones |
| WeekParity.SameWeek | src/lib/weekType.ts:6 | all seven days of a Monday-to-Sunday week share their week number and week type |
| WeekParity.WeekOneHoldsFirstThursday | src/lib/weekType.ts:5-8 | week 1 is exactly the week whose Thursday lies in the first seven days of its year |
| WeekParity.NextWeekNumber | src/lib/weekType.ts:6-8 | seven days later the week number goes up by one, or restarts at 1 after week 52 or 53 |
| WeekParity.ParityAlternates | src/lib/weekType.ts:12-14 | the week type changes from one week to the next except after week 53, whose successor week 1 is ODD as well |
| WeekParity.LateDecemberInWeekOne | src/lib/weekType.ts:6-8 | 30 December 2024 is in week 1, an ODD week |
| WeekParity.EarlyJanuaryInWeek53 | src/lib/weekType.ts:6-8 | Friday 1 January 2021 is in week 53 and Friday 8 January 2021 in week 1, so two consecutive weeks are both ODD |
| Domain.EndDate | src/app/actions.ts:35-36 | for a day count of at least 1 the end date is on or after the start and before start + count |
| Common.First | src/app/actions.ts:39-41 | a lookup finds an element satisfying the test, the first one in table order, and finds none exactly when no element satisfies it |
| Common.Filter | src/app/api/dashboard/route.ts:139-141 | `filter` keeps elements that pass the test, each one of them, and never more than the input |
| Common.FilterAppend | src/app/api/dashboard/route.ts:139-141 | filtering a concatenation is the concatenation of the filtered parts, so kept elements stay in input order |
| Common.DedupOn | src/app/dashboard/settings/ImportTimetableTab.tsx:17-24 | the de-duplicated list has unique keys, the same set of keys as the input, and only input elements |
| Common.DedupKeepsFirst | src/app/dashboard/settings/ImportTimetableTab.tsx:20-23 | each kept element is the first element of the input with its key |
| Common.DedupOrder | src/app/dashboard/settings/ImportTimetableTab.tsx:19-23 | kept elements come in first-occurrence order |
| Common.DedupPrefix | src/app/dashboard/settings/ImportTimetableTab.tsx:19 | de-duplicating a concatenation keeps the first part's result as its prefix |
| Common.IndexedLast | src/app/api/dashboard/route.ts:116-123 | a key is in a map built by `set` in a loop exactly when some element maps to it, and its value is that of the last such element |
| Common.FilterMapDistinct | src/app/api/dashboard/route.ts:36-52 | a join that gives different rows different values lists each value once |
| Common.FilterMapLength | src/lib/parseAscXml.ts:30-38 | each element with a value contributes exactly one value |
| Common.DistinctSub | src/app/api/dashboard/route.ts:57-68 | reordering or dropping rows of a list without repeats leaves it without repeats |
| Common.CountSplit | src/app/api/dashboard/route.ts:175-182 | the elements that satisfy a test and those that fail it together account for every element once |
| Sorting.SortBy | src/lib/generateReliefSummary.ts:80-82 | the sorted sequence is ordered, a permutation of the input, and as long as the input |
| Sorting.SortByStable | src/lib/generateReliefSummary.ts:80-82 | the sort is stable: the elements the comparator ranks level with any one element come out exactly as, and in the order, they go in |
| Sorting.StrLeTotal | src/lib/generateReliefSummary.ts:81 | the string comparison used for `localeCompare` compares every pair of strings |
| Sorting.StrLeTransitive | src/lib/generateReliefSummary.ts:81 | that comparison is transitive |
| JsString.TrimEnd | src/lib/generateReliefSummary.ts:109 | `trimEnd` keeps a prefix that does not end in white space, and what it drops is all white space |
| JsString.TrimShape | src/app/api/timetable/route.ts:54-55 | `trim` keeps the infix between leading and trailing white space |
| JsString.TrimEmptyIffAllSpace | src/app/api/timetable/route.ts:35 | `!x.trim()` holds exactly when x is white space only |
| JsString.TrimIdempotent | src/app/api/timetable/route.ts:54-55 | trimming twice is trimming once |
| JsString.IndexOf | src/lib/parseAscXml.ts:109 | `indexOf` is -1 when the character is absent, otherwise the index of its first occurrence |
| JsString.Split | src/lib/parseAscXml.ts:90 | `split` yields at least one piece and no piece contains the separator |
| JsString.SplitJoin | src/lib/parseAscXml.ts:90 | splitting pieces joined on a character they do not contain gives the pieces back |
| JsString.JoinSplit | src/lib/parseAscXml.ts:90 | joining the pieces of a split on the same character gives the string back |
| JsString.SplitNonEmpty | src/lib/parseAscXml.ts:90-92 | `split(",").filter(Boolean)` keeps exactly the non-empty pieces |
| JsString.ParseNumeral | src/app/dashboard/timetable/actions.ts:8 | `parseInt(s, 10)` of a numeral followed by a non-digit is the numeral's value |
| JsString.ParseNoDigits | src/lib/parseAscXml.ts:32 | text starting with neither white space, a sign nor a digit parses to NaN |
| Store.Database.FreshId | src/app/actions.ts:47-53 | a new id differs from every stored id and the store stays consistent |
| Store.Database.InsertSickReport | src/app/actions.ts:47-53 | exactly one report is appended under a fresh id; nothing else changes |
| Store.Database.InsertAssignment | src/app/dashboard/actions.ts:44-51 | exactly one assignment is appended under a fresh id; nothing else changes |
| Ledger.NoDoubleBookingIsNoClash | src/app/api/relief-assignments/route.ts:30-43 | the no-double-booking invariant says exactly that no two assignments put one teacher in one period on one date |
| Ledger.ClashIsConflict | src/app/api/relief-assignments/route.ts:30-36 | the conflict query finds an assignment exactly when the new one would clash with it |
| Ledger.AppendKeepsNoDoubleBooking | src/app/api/relief-assignments/route.ts:30-54 | inserting an assignment that passed the conflict query keeps the ledger free of double bookings |
| Ledger.FilterKeepsNoDoubleBooking | src/app/dashboard/actions.ts:61-63 | removing assignments keeps the ledger free of double bookings |
| Ledger.RemovalClearsConflict | src/app/dashboard/actions.ts:30-38 | after its assignment is removed, the teacher passes the conflict check for that period and date again |
| Ledger.OtherTeacherMayCoverSameEntry | src/app/api/relief-assignments/route.ts:30-43 | the conflict check looks at the relief teacher only: a lesson already covered that day can be given to a second, free teacher |
| Ledger.Without | src/app/dashboard/actions.ts:61-63 | deleting by id leaves exactly the assignments with other ids |
| Ledger.WithoutOne | src/app/dashboard/actions.ts:61-63 | with ids unique, as the primary key keeps them, deleting an assignment's id removes exactly that one row and keeps the others in order |
| ReliefAssignmentsApi.Post | src/app/api/relief-assignments/route.ts:4-55 | 400 exactly for a missing field, 404 exactly for an unknown entry, 409 exactly on a conflict, 500 for a date the query cannot take; only 201 appends exactly the requested assignment; no double booking is introduced |
| DashboardActions.AssignRelief | src/app/dashboard/actions.ts:6-54 | the same checks, as thrown errors in the source's order; on success exactly one assignment is appended, otherwise nothing changes |
| DashboardActions.UnassignRelief | src/app/dashboard/actions.ts:56-66 | an empty id throws, an id no assignment carries throws, otherwise the one assignment with that id is removed and the rest kept in order; the store stays consistent |
| SickReportActions.DayCount | src/app/actions.ts:23-27 | the parsed day count is accepted exactly when it is a number from 1 to 14 |
| SickReportActions.SubmitSickReport | src/app/actions.ts:11-61 | each error state exactly when its check is the first to fail; only success adds one report for the teacher, from the start day to `EndDate` |
| SickReportsApi.Post | src/app/api/sick-reports/route.ts:4-46 | 400 exactly for a missing field or a day count outside 1..14, 404 exactly for an unknown teacher, 500 for an unusable start date; only 201 appends one report with the computed end date |
| Timetable.WithPeriods | src/app/api/timetable/route.ts:22-26 | the entries joined with their periods are exactly the entries whose period is stored, each with that period |
| Timetable.WithPeriodsDistinct | src/app/api/timetable/route.ts:22-26 | distinct entries are listed once each |
| Timetable.UpsertEntry | src/app/api/timetable/route.ts:44-65 | an entry with the same key gets only the new class and subject; otherwise exactly one entry is appended under a fresh id; entries with other keys are untouched |
| Timetable.UpsertKeepsSlotKeysUnique | src/app/api/timetable/route.ts:44-65 | the upsert keeps the (teacher, weekday, period, week type) key unique |
| Timetable.Upsert | src/app/api/timetable/route.ts:44-65 | on the store, the entries table becomes the upserted one and the other tables are unchanged |
| TimetableApi.Joined | src/app/api/timetable/route.ts:17-26 | the selected entries are exactly the teacher's entries with the given week type, or all of them without one; ALL entries are not merged in; distinct stored entries give a listing without repeats |
| TimetableApi.Query | src/app/api/timetable/route.ts:22-26 | the query's rows are exactly the selected entries with their periods, by period number ascending, as a permutation of the joined rows; distinct stored entries appear once each |
| TimetableApi.Get | src/app/api/timetable/route.ts:5-29 | 400 exactly without a teacher id, 500 exactly for an unknown week type, otherwise 200 with the query's rows: sorted, a permutation of the joined rows, without repeats for distinct stored entries |
| TimetableApi.WeekTypeOrAll | src/app/api/timetable/route.ts:42 | a missing week type becomes ALL, a given one is kept |
| TimetableApi.Post | src/app/api/timetable/route.ts:31-68 | 400 exactly for a missing field or a blank class or subject, 500 for an unknown week type, both changing nothing; otherwise 201 and the trimmed upsert |
| TimetableActions.FormDay | src/app/dashboard/timetable/actions.ts:8 | a missing weekday field parses to NaN |
| TimetableActions.AddTimetableEntry | src/app/dashboard/timetable/actions.ts:6-39 | throws exactly for a missing field, a weekday of 0 or NaN, or a blank class or subject, changing nothing; throws and changes nothing when several rows share (teacher, weekday, period); otherwise the upsert keyed on (teacher, weekday, period) with trimmed text |
| TimetableActions.WithoutEntry | src/app/dashboard/timetable/actions.ts:41-44 | deleting by id leaves exactly the entries with other ids, and shortens the table exactly when the id is present |
| TimetableActions.WithoutEntryOne | src/app/dashboard/timetable/actions.ts:41-44 | with ids unique, deleting an entry's id removes exactly that one row and keeps the others in order |
| TimetableActions.DeleteTimetableEntry | src/app/dashboard/timetable/actions.ts:41-47 | throws exactly when no entry has the id; otherwise the one entry with that id leaves the table and the rest stay in order |
| Coverage.CoverOf | src/app/api/dashboard/route.ts:44-50 | an assignment shows as a cover exactly when its relief teacher, entry and period are stored |
| Coverage.CoversOn | src/app/api/dashboard/route.ts:44-45 | a report's covers are exactly those of its assignments on the date that join; with unique assignment ids each appears once |
| Coverage.ByEntryIsLast | src/app/api/dashboard/route.ts:116-122 | the cover stored for a covered entry is a cover of that entry with no later cover of it |
| Coverage.Absences | src/app/api/dashboard/route.ts:37-52 | the absences are exactly the sick reports open on the date whose teacher is stored; distinct reports give each absence once |
| Coverage.AbsencesInTableOrder | src/app/api/dashboard/route.ts:37-52 | the absences come in table order: of two open reports the earlier row's absence comes first |
| Coverage.SickIds | src/app/api/dashboard/route.ts:54 | one teacher id per absence, in order |
| Coverage.GroupHas | src/app/api/dashboard/route.ts:93-108 | the `Map<string, Set<string>>` built in a loop holds v under k exactly when the pair (k, v) was seen |
| Coverage.ByEntryLast | src/app/api/dashboard/route.ts:112-123 | an entry has a cover in `assignmentByEntry` exactly when some cover is of it, and then it is the last such cover |
| Coverage.BusyLookup | src/app/api/dashboard/route.ts:76-99 | the busy map says a teacher is busy in a period exactly when they have a lesson then that day |
| Coverage.CoveringLookup | src/app/api/dashboard/route.ts:85-108 | the covering map agrees with the assignment conflict test |
| Coverage.CoverIsAssignment | src/app/api/dashboard/route.ts:37-52 | every cover shown is a stored assignment of that date made for a report open on that date |
| Coverage.AssignmentIsCover | src/app/api/dashboard/route.ts:37-52 | every joined assignment of the date made for an open report of a stored teacher is shown |
| DashboardApi.EffectiveWeek | src/app/api/dashboard/route.ts:33 | the override when one is given, otherwise the day's own week type |
| DashboardApi.Roster | src/app/api/dashboard/route.ts:71-73 | every teacher, as often as stored (a permutation), by name ascending |
| DashboardApi.SickEntries | src/app/api/dashboard/route.ts:57-68 | exactly the sick teachers' entries for the weekday in the effective week type or ALL, by period number, as a permutation of the joined rows and without repeats for distinct stored entries; no query without sick teachers |
| DashboardApi.Available | src/app/api/dashboard/route.ts:125-135 | the offered teachers are exactly the roster's eligible ones, in roster order, none more often than in the roster |
| DashboardApi.TeacherEntries | src/app/api/dashboard/route.ts:139-141 | exactly the listed entries of one teacher, still by period number, none more often than in the input |
| DashboardApi.Dashboard | src/app/api/dashboard/route.ts:5-192 | missing date gives 400, a weekend the empty weekend reply, a date or week type the queries refuse 500; otherwise the cards and totals of the day |
| DashboardApi.GroupPairs | src/app/api/dashboard/route.ts:93-108 | the loops that build the busy and covering maps compute `Coverage.Group` |
| DashboardApi.IndexCovers | src/app/api/dashboard/route.ts:112-123 | the nested loop that builds `assignmentByEntry` computes the last cover per entry |
| DashboardApi.IndexAbsence | src/app/api/dashboard/route.ts:117-122 | the inner loop over one report's assignments extends the map as `ByEntry` of the covers seen so far plus these |
| DashboardApi.Get | src/app/api/dashboard/route.ts:5-192 | the route computes exactly `Dashboard` |
| DashboardApi.CardIsAbsence | src/app/api/dashboard/route.ts:137-173 | every card belongs to a stored teacher whose sick report is open on the date, and has periods |
| DashboardApi.SlotIsMissedLesson | src/app/api/dashboard/route.ts:139-163 | every period on a card is a lesson the sick teacher has that weekday in the week type or ALL, shown with its stored period |
| DashboardApi.CardPeriodsSorted | src/app/api/dashboard/route.ts:66 | the periods of a card are in period-number order |
| DashboardApi.CardPeriodsOnce | src/app/api/dashboard/route.ts:137-152 | with unique entry ids no lesson appears twice on a card |
| DashboardApi.CardsComplete | src/app/api/dashboard/route.ts:137-173 | every such lesson of a sick teacher appears on the card of each of their open reports |
| DashboardApi.Candidates | src/app/api/dashboard/route.ts:125-135 | a teacher is offered exactly when stored, not the sick teacher, not off sick, not busy in the period and not covering it that day; offered teachers are in name order |
| DashboardApi.SickIdsAreOffSick | src/app/api/dashboard/route.ts:54 | a teacher is in the sick set exactly when stored with a report open on the date |
| DashboardApi.SlotCover | src/app/api/dashboard/route.ts:144-157 | a period is covered exactly when some shown cover is of its entry; uncovered periods have no relief teacher name and no assignment id; covered ones show the last cover |
| DashboardApi.SlotsSplit | src/app/api/dashboard/route.ts:175-182 | each card's periods are either covered or uncovered |
| DashboardApi.TotalsAddUp | src/app/api/dashboard/route.ts:175-182 | the two totals add up to the number of periods on all cards |
| AscXml.PeriodOf | src/lib/parseAscXml.ts:32-37 | a period element is kept exactly when its number parses to more than 0 and both times are given, with those values |
| AscXml.PeriodsKept | src/lib/parseAscXml.ts:29-38 | exactly the kept period elements are listed, one period for each |
| AscXml.ParsePeriods | src/lib/parseAscXml.ts:29-38 | the loop computes the period list |
| AscXml.ParseTeachers | src/lib/parseAscXml.ts:41-67 | the loop computes the id-to-name index and the de-duplicated teacher list |
| AscXml.ParseShortNames | src/lib/parseAscXml.ts:70-83 | the subject and class loops compute their id-to-short-name maps |
| AscXml.ParseLessons | src/lib/parseAscXml.ts:87-96 | the lesson loop computes the lesson index |
| AscXml.LessonsHaveTeachers | src/lib/parseAscXml.ts:90-95 | every registered lesson has a non-empty id and at least one teacher id, none of them empty |
| AscXml.CardDay | src/lib/parseAscXml.ts:109 | the decoded weekday is the position of the first '1' of the bitmask, or 0 when there is none |
| AscXml.TeacherEntries | src/lib/parseAscXml.ts:116-128 | the inner loop yields one entry per lesson teacher id that names a teacher |
| AscXml.ExpandCard | src/lib/parseAscXml.ts:100-129 | one card's entries |
| AscXml.ExpandCards | src/lib/parseAscXml.ts:99-129 | the cards loop computes all entries |
| AscXml.ExpandSource | src/lib/parseAscXml.ts:105-128 | every entry comes from a card with a known lesson, a period other than 0 and a weekday in 1..5, and from one of its lesson's teacher ids that names a teacher |
| AscXml.ExpandComplete | src/lib/parseAscXml.ts:116-128 | every teacher id of such a card that names a teacher yields its entry |
| AscXml.TeacherNamesUnique | src/lib/parseAscXml.ts:60-66 | no two listed teachers share a name |
| AscXml.ListedTeacherSource | src/lib/parseAscXml.ts:60-66 | every listed name is that of an element with a non-empty id and name |
| AscXml.RegisteredTeacherListed | src/lib/parseAscXml.ts:60-66 | every element with a non-empty id and name has its name listed |
| AscXml.TeachersInFirstOccurrenceOrder | src/lib/parseAscXml.ts:60-66 | names are listed in the order of their first occurrence |
| AscXml.IndexedTeacherListed | src/lib/parseAscXml.ts:60-66 | a name the id index holds is a listed teacher's name |
| AscXml.Parse | src/lib/parseAscXml.ts:19-26 | parsing throws exactly for a malformed document |
| AscXml.ParseAscXml | src/lib/parseAscXml.ts:19-132 | the parser computes `Parse` |
| AscXml.ParsedEntryWellFormed | src/lib/parseAscXml.ts:106-127 | every entry has a weekday in 1..5, the requested week type, a period number other than 0, and a listed teacher's name |
| ImportMerge.MergedOf | src/app/dashboard/settings/ImportTimetableTab.tsx:36-42 | the merged entries are the ODD file's followed by the EVEN file's, and the two counts add up to their number |
| ImportMerge.KeepFirst | src/app/dashboard/settings/ImportTimetableTab.tsx:17-34 | the `seen`-set loop keeps the first element of each key, in order |
| ImportMerge.MergeParseResults | src/app/dashboard/settings/ImportTimetableTab.tsx:9-43 | the function computes `MergedOf` |
| ImportMerge.MergedTeachers | src/app/dashboard/settings/ImportTimetableTab.tsx:17-24 | merged teacher names are unique and the ODD file's teachers come first, de-duplicated in their own order |
| ImportMerge.MergedTeachersComplete | src/app/dashboard/settings/ImportTimetableTab.tsx:19-24 | every teacher name of either file is among the merged ones |
| ImportMerge.MergedPeriods | src/app/dashboard/settings/ImportTimetableTab.tsx:27-34 | merged period numbers are unique and a number the ODD file has keeps the ODD file's first period of that number |
| ImportApi.ImportPeriods | src/app/api/import-timetable/route.ts:51-66 | the periods loop computes the specification's periods step, including its failure |
| ImportApi.ImportTeachers | src/app/api/import-timetable/route.ts:69-83 | the teachers loop computes the specification's teachers step |
| ImportApi.ImportEntries | src/app/api/import-timetable/route.ts:96-113 | the entries loop computes the specification's entries step, including its failure |
| ImportApi.ImportTimetable | src/app/api/import-timetable/route.ts:16-130 | 400 exactly for a missing field or unknown mode; otherwise 200 with the counts exactly when the transaction goes through, and 500 with the store unchanged when it fails; the store stays consistent |
| ImportApi.TransactionValid | src/app/api/import-timetable/route.ts:40-120 | a transaction that goes through leaves the store consistent |
| ImportApi.PutPeriodsStuck | src/app/api/import-timetable/route.ts:40-66 | once one period create throws, the whole transaction fails |
| ImportApi.PutEntriesStuck | src/app/api/import-timetable/route.ts:40-113 | once one entry create throws, the whole transaction fails |
| ImportApi.ReplaceStartsAfresh | src/app/api/import-timetable/route.ts:41-48 | replace mode leaves no sick reports and no assignments, and every teacher, period and entry is newly created |
| ImportApi.ReplacePeriodsCreated | src/app/api/import-timetable/route.ts:52-57 | in replace mode the periods are created in the file's order under fresh ids |
| ImportApi.ReplacePeriodsFail | src/app/api/import-timetable/route.ts:52-57 | in replace mode the periods loop throws exactly when the file repeats a period number |
| ImportApi.MergePeriodsSucceed | src/app/api/import-timetable/route.ts:58-64 | in merge mode the periods loop never throws |
| ImportApi.MergePeriodsInPlace | src/app/api/import-timetable/route.ts:58-64 | in merge mode stored periods keep their place, id and number, and one whose number is not imported is unchanged |
| ImportApi.MergePeriodsLatest | src/app/api/import-timetable/route.ts:57-64 | in merge mode the file's last period with a number is stored with its times, under the id recorded for that number |
| ImportApi.PutTeachersAppends | src/app/api/import-timetable/route.ts:70-83 | the teachers loop keeps the stored teachers and only appends REGULAR teachers under fresh ids, each with an imported name |
| ImportApi.PutTeachersUnique | src/app/api/import-timetable/route.ts:70-83 | from teachers with distinct names, one teacher per name exists afterwards |
| ImportApi.PutTeachersRecords | src/app/api/import-timetable/route.ts:71-82 | every imported name is recorded with the id of a teacher of that name; in merge mode that is the first existing teacher with it |
| ImportApi.MergeKeepsOtherEntries | src/app/api/import-timetable/route.ts:86-93 | in merge mode a stored entry survives exactly when its teacher is not an imported one |
| ImportApi.PutEntriesAppends | src/app/api/import-timetable/route.ts:96-113 | the entries loop only appends rows with fresh ids |
| ImportApi.PutEntriesCounts | src/app/api/import-timetable/route.ts:96-113 | the reported count is the number of entries that resolve and the number of rows created |
| ImportApi.PutEntriesCovers | src/app/api/import-timetable/route.ts:98-111 | every entry that resolves has its row among the created ones |
| ImportApi.TeacherCountIsDistinctNames | src/app/api/import-timetable/route.ts:70-116 | the reported teacher count is the number of distinct imported names |
| ReliefSummary.Summary | src/lib/generateReliefSummary.ts:109 | the summary never ends in white space |
| ReliefSummary.SummaryOpening | src/lib/generateReliefSummary.ts:24-37 | the summary is empty exactly without absent teachers; otherwise it starts with the header, a blank line and "ABSENT:", and lists every absent teacher in input order |
| ReliefSummary.GroupHolds | src/lib/generateReliefSummary.ts:53-72 | every lesson is listed exactly once, in input order: a covered lesson with a named relief teacher under that teacher, any other under UNCOVERED; a listed teacher has at least one lesson |
| ReliefSummary.GroupWellKept | src/lib/generateReliefSummary.ts:40-72 | the relief map's keys are exactly the names in insertion order, each once |
| ReliefSummary.ReliefSectionIff | src/lib/generateReliefSummary.ts:75-95 | the RELIEF ASSIGNMENTS section appears exactly when some lesson has a named relief teacher |
| ReliefSummary.UncoveredSectionIff | src/lib/generateReliefSummary.ts:98-107 | the UNCOVERED section appears exactly when some lesson has none |
| ReliefSummary.SortedTeachersOrder | src/lib/generateReliefSummary.ts:80-82 | relief teachers come in name order, each of them and no one else |
| ReliefSummary.GroupSlots | src/lib/generateReliefSummary.ts:53-72 | the grouping loops compute `Group` |
| ReliefSummary.PushAbsent | src/lib/generateReliefSummary.ts:34-36 | the loop appends one bullet line per absent teacher, in input order |
| ReliefSummary.PushAssignments | src/lib/generateReliefSummary.ts:88-92 | the loop appends one assignment line per lesson, in order |
| ReliefSummary.PushUncovered | src/lib/generateReliefSummary.ts:101-105 | the loop appends one uncovered line per lesson, in order |
| ReliefSummary.PushTeacher | src/lib/generateReliefSummary.ts:85-93 | one relief teacher's block: the name in capitals, the lessons by start time, a blank line |
| ReliefSummary.PushBlocks | src/lib/generateReliefSummary.ts:84-94 | the loop appends the blocks of the relief teachers in the given order |
| ReliefSummary.PushRelief | src/lib/generateReliefSummary.ts:75-95 | the relief section is appended |
| ReliefSummary.PushUncoveredSection | src/lib/generateReliefSummary.ts:98-107 | the UNCOVERED section is appended, lessons by start time, and nothing when every lesson is covered |
| ReliefSummary.GenerateReliefSummary | src/lib/generateReliefSummary.ts:19-110 | the function computes `Summary` |
| DashboardView.IsWeekend | src/app/dashboard/DashboardContent.tsx:68-70 | a day is a weekend exactly when it is Saturday or Sunday |
| DashboardView.Flip | src/app/dashboard/DashboardContent.tsx:113 | the other week type differs from the given one |
| DashboardView.Unassigned | src/app/dashboard/DashboardContent.tsx:142-158 | the optimistic unassign moves the totals by one lesson whatever the number of matching slots, and keeps date, weekend flag, week type and the number of cards |
| DashboardView.Assigned | src/app/dashboard/DashboardContent.tsx:181-197 | the optimistic assign moves the totals by one lesson the other way and keeps the rest |
| DashboardView.UnassignedSlot | src/app/dashboard/DashboardContent.tsx:144-155 | only slots showing the assignment change, and only in their cover: uncovered, with no relief teacher name and no assignment id; every other slot and card field is unchanged |
| DashboardView.AssignedSlot | src/app/dashboard/DashboardContent.tsx:183-194 | only slots of the chosen lesson change, and only in their cover: covered by the chosen teacher with the id "optimistic-pending" |
| DashboardView.UnassignKeepsTotals | src/app/dashboard/DashboardContent.tsx:142-158 | totals that counted the slots still count them after an optimistic unassign exactly when one covered slot showed the assignment |
| DashboardView.AssignKeepsTotals | src/app/dashboard/DashboardContent.tsx:181-197 | totals that counted the slots still count them after an optimistic assign exactly when one uncovered slot is of the chosen lesson |
| DashboardView.UnassignTally | src/app/dashboard/DashboardContent.tsx:144-157 | an unassign moves exactly the covered slots showing the assignment from covered to uncovered |
| DashboardView.AssignTally | src/app/dashboard/DashboardContent.tsx:183-196 | an assign moves exactly the uncovered slots of the lesson from uncovered to covered |
| DashboardView.DashboardContent.constructor | src/app/dashboard/DashboardContent.tsx:50-66 | the page starts on the given day with no override, no data and the dialog closed |
| DashboardView.DashboardContent.EffectiveWeekType | src/app/dashboard/DashboardContent.tsx:72-73 | the override when set, otherwise ODD exactly in odd ISO weeks |
| DashboardView.DashboardContent.ReceiveDashboard | src/app/dashboard/DashboardContent.tsx:75-89 | a fetch result replaces the data, a failed fetch clears it |
| DashboardView.DashboardContent.HandleDateChange | src/app/dashboard/DashboardContent.tsx:95-99 | a new day clears the override, so the day's own week type applies |
| DashboardView.DashboardContent.NavigateDay | src/app/dashboard/DashboardContent.tsx:101-108 | moves the day by the offset and clears the override |
| DashboardView.DashboardContent.ToggleWeekType | src/app/dashboard/DashboardContent.tsx:110-115 | the override becomes the opposite of the week type in effect, so the effective week type always changes |
| DashboardView.DashboardContent.OpenAssignModal | src/app/dashboard/DashboardContent.tsx:117-124 | the dialog opens for the slot, with the card's teacher name and report |
| DashboardView.DashboardContent.CloseModal | src/app/dashboard/DashboardContent.tsx:126-133 | the dialog closes and forgets its slot |
| DashboardView.DashboardContent.HandleUnassign | src/app/dashboard/DashboardContent.tsx:135-172 | without data nothing changes; after a failed delete the data is exactly the snapshot taken before the optimistic update; after a successful one it is the unassigned data |
| DashboardView.DashboardContent.HandleAssignSuccess | src/app/dashboard/DashboardContent.tsx:174-201 | the dialog closes; with data and a slot the data becomes the assigned data for the slot's lesson, otherwise it is unchanged |

## Left out

- Prisma, Next.js, HTTP and React are left out. Queries become reads of the in-memory tables and replies become status codes with values. Rendering, `revalidatePath`, `alert`, the clipboard, `window.history` and timers are left out.
- Foreign keys and cascades are not modelled, because the schema's referential actions are not part of this model. A relief assignment may therefore name a sick report that does not exist. The replace import's deletes and the merge import's entry deletes never fail for a referenced row.
- Concurrency is not modelled. Each handler runs alone, so the race between the conflict query and the insert, and an optimistic update overwritten by a late fetch, are out of scope.
- Dates are day numbers. The text of a date is not parsed: an input is blank, unparsable, or a day. Time zones, daylight saving and the difference between local and UTC midnight are ignored. An unparsable date that reaches a query is a rejected query (500, or a thrown error).
- `localeCompare` and the database's `orderBy` on names are modelled as code-point order (Dafny's `char` is a Unicode scalar value). `toUpperCase` is modelled on ASCII letters only. `toLocaleDateString` is left out: the formatted date is a parameter of the summary.
- JSON bodies are modelled with the fields the handlers read. A missing or empty field is `None`. A numeric field is an integer, and non-integer numbers are not modelled. The import's `weekType` text is checked against the three enum values, and any other value makes the transaction fail.
- `Array.prototype.sort` in place is modelled as a stable sort returning a new sequence. A JavaScript `Map`'s iteration order is modelled as an explicit insertion-order sequence.
- The DOM of `parseAscXml` is an input. The document is a list of elements per tag with their attributes as text, or a malformed marker for a `parsererror`.
- Ids are natural numbers drawn from a counter in the store, in place of generated cuid strings. The page's "optimistic-pending" id is a separate tag.
- TimetableActions.AddTimetableEntry: the action upserts on a (teacher, weekday, period) unique, while the store's invariant holds only the (teacher, weekday, period, week type) unique that the timetable route relies on. The model assumes the action's key is unique and throws `AmbiguousKey` when ODD and EVEN rows share it. What the database would then do depends on the schema, which is not part of this model.
- DashboardView.DashboardContent.HandleUnassign: the DELETE request is modelled by its outcome, a boolean parameter. The background refetch is `ReceiveDashboard`, called separately.
- DashboardView.DashboardContent.HandleAssignSuccess: the background `fetchDashboard` after a successful assign is likewise `ReceiveDashboard`, called separately.
- DashboardView.DashboardContent.ReceiveDashboard: the request text built from the day and week type is not modelled; the reply is a parameter.
- The UI components and files (forms, modals, the timetable grid, the settings pages, thin list routes, `prisma/seed.ts`) are outside the modelled core. The rest of `ImportTimetableTab.tsx` beyond `mergeParseResults` (file reading, state, fetch) is outside it too.
