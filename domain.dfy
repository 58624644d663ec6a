/** The records of the relief-planning database (teachers, periods,
    timetable entries, sick reports, relief assignments) as values. Dates
    are whole-day numbers counted from 1 January 1970; identifiers are
    natural numbers handed out by the store. */
module Domain {
  import opened Common

  type Id = nat

  /** A calendar day: the number of days since 1970-01-01. */
  type Day = int

  /** The `WeekType` enum: a timetable entry applies in every week, or only in
      odd or even ISO weeks. */
  datatype WeekType = All | Odd | Even

  /** A week's parity, as the week-number calculator produces it. */
  type Parity = w: WeekType | w != All witness Odd

  datatype TeacherType = Regular | PermanentRelief

  datatype Teacher = Teacher(id: Id, name: string, kind: TeacherType)

  /** A numbered lesson slot of the school day, shared by all teachers. */
  datatype Period = Period(id: Id, number: int, startTime: string, endTime: string)

  /** One lesson of one teacher: weekday (1 = Monday .. 5 = Friday), period,
      class, subject and the weeks it applies in. */
  datatype TimetableEntry = TimetableEntry(
    id: Id, teacherId: Id, dayOfWeek: int, periodId: Id,
    className: string, subject: string, weekType: WeekType)

  /** A teacher's absence from `startDate` to `endDate`, both inclusive. */
  datatype SickReport = SickReport(id: Id, teacherId: Id, startDate: Day, endDate: Day)

  /** `reliefTeacherId` covers timetable entry `timetableEntryId` on `date`
      for the absence `sickReportId`. */
  datatype ReliefAssignment = ReliefAssignment(
    id: Id, sickReportId: Id, timetableEntryId: Id, reliefTeacherId: Id, date: Day)

  /** A date field of a request before it is turned into a `Date`: missing or
      empty, text that gives an invalid date, or a day. */
  datatype DateInput = Blank | Unparsable | OnDay(day: Day)

  /** A `weekType` request value: absent or empty, one of the enum's names,
      or some other text, which the database refuses. */
  datatype WeekTypeField = Absent | Given(weekType: WeekType) | Unknown

  /** The five tables at one moment. */
  datatype Tables = Tables(
    teachers: seq<Teacher>, periods: seq<Period>, entries: seq<TimetableEntry>,
    sickReports: seq<SickReport>, assignments: seq<ReliefAssignment>)

  /** The last day of an absence of `days` days from `start`:
      `end.setDate(end.getDate() + numberOfDays - 1)`. */
  function EndDate(start: Day, days: int): (end: Day)
    ensures days >= 1 ==> start <= end && end < start + days
  {
    start + days - 1
  }

  function TeacherWithId(teachers: seq<Teacher>, id: Id): Option<Teacher>
  {
    First(teachers, (t: Teacher) => t.id == id)
  }

  function PeriodWithId(periods: seq<Period>, id: Id): Option<Period>
  {
    First(periods, (p: Period) => p.id == id)
  }

  function EntryWithId(entries: seq<TimetableEntry>, id: Id): Option<TimetableEntry>
  {
    First(entries, (e: TimetableEntry) => e.id == id)
  }

  /** The timetable 4-tuple the database keeps unique. */
  function SlotKey(e: TimetableEntry): (Id, int, Id, WeekType)
  {
    (e.teacherId, e.dayOfWeek, e.periodId, e.weekType)
  }

  /** The period of the entry an assignment covers, when that entry exists. */
  function AssignedPeriod(entries: seq<TimetableEntry>, a: ReliefAssignment): Option<Id>
  {
    match EntryWithId(entries, a.timetableEntryId)
    case Some(e) => Some(e.periodId)
    case None => None
  }

  /** `a` has `teacher` covering an entry in period `periodId` on `date`: the
      filter `{ reliefTeacherId, date, timetableEntry: { periodId } }`. */
  predicate Books(entries: seq<TimetableEntry>, a: ReliefAssignment, teacher: Id, date: Day, periodId: Id)
  {
    a.reliefTeacherId == teacher && a.date == date && AssignedPeriod(entries, a) == Some(periodId)
  }

  /** Some assignment already books `teacher` in `periodId` on `date`. */
  predicate HasConflict(assignments: seq<ReliefAssignment>, entries: seq<TimetableEntry>, teacher: Id, date: Day, periodId: Id)
  {
    exists i :: 0 <= i < |assignments| && Books(entries, assignments[i], teacher, date, periodId)
  }

  /** No relief teacher covers two classes in the same period on the same day. */
  predicate NoDoubleBooking(assignments: seq<ReliefAssignment>, entries: seq<TimetableEntry>)
  {
    forall i, j :: 0 <= i < j < |assignments| ==>
      !(&& assignments[i].reliefTeacherId == assignments[j].reliefTeacherId
        && assignments[i].date == assignments[j].date
        && AssignedPeriod(entries, assignments[i]).Some?
        && AssignedPeriod(entries, assignments[i]) == AssignedPeriod(entries, assignments[j]))
  }
}
