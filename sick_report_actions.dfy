/** The home page's server action `submitSickReport`: a chain of checks on
    the form, each returning an error state, then one new sick report. */
module SickReportActions {
  import opened Common
  import opened Domain
  import opened JsString
  import opened Store

  /** The form as submitted; `None` and `Blank` stand for a field that is
      missing or empty. */
  datatype SickForm = SickForm(teacherId: Option<Id>, startDate: DateInput, numberOfDays: Option<string>)

  /** The state the action returns: success, or one of its error messages. */
  datatype SickReportState =
    | Success
    | FillInAllFields        // a field is missing or empty
    | DaysOutOfRange         // the day count is not a number in 1..14
    | InvalidStartDate       // the start date is not a valid date
    | TeacherNotFound        // no teacher has the id

  /** The day count when it is a number from 1 to 14. */
  function DayCount(form: SickForm): (n: Option<int>)
    requires form.numberOfDays.Some?
    ensures n.Some? ==> 1 <= n.value <= 14 && ParseInt10(form.numberOfDays.value) == n
    ensures n.None? <==> match ParseInt10(form.numberOfDays.value)
                         case None => true
                         case Some(v) => v < 1 || v > 14
  {
    var v := ParseInt10(form.numberOfDays.value);
    if v.None? || v.value < 1 || v.value > 14 then None else v
  }

  /** `submitSickReport`: the checks run in the order of the source and the
      first failing one decides the state; only `Success` adds a report,
      exactly one, from the start date to `EndDate`, with no check against
      the teacher's other reports. */
  method SubmitSickReport(db: Database, form: SickForm) returns (state: SickReportState)
    requires db.Valid()
    modifies db
    ensures db.Valid()
    ensures db.teachers == old(db.teachers) && db.periods == old(db.periods) && db.entries == old(db.entries)
    ensures db.assignments == old(db.assignments)
    ensures state == FillInAllFields <==> form.teacherId.None? || form.startDate.Blank? || form.numberOfDays.None?
    ensures state == DaysOutOfRange <==>
      form.teacherId.Some? && !form.startDate.Blank? && form.numberOfDays.Some? && DayCount(form).None?
    ensures state == InvalidStartDate <==>
      form.teacherId.Some? && form.numberOfDays.Some? && DayCount(form).Some? && form.startDate.Unparsable?
    ensures state == TeacherNotFound <==>
      && form.teacherId.Some? && form.numberOfDays.Some? && DayCount(form).Some? && form.startDate.OnDay?
      && TeacherWithId(db.teachers, form.teacherId.value).None?
    ensures state != Success ==> db.sickReports == old(db.sickReports)
    ensures state == Success ==>
      db.sickReports == old(db.sickReports) + [SickReport(old(db.nextId), form.teacherId.value, form.startDate.day,
                                                           EndDate(form.startDate.day, DayCount(form).value))]
  {
    if form.teacherId.None? || form.startDate.Blank? || form.numberOfDays.None? {
      return FillInAllFields;
    }
    var days := DayCount(form);
    if days.None? {
      return DaysOutOfRange;
    }
    if form.startDate.Unparsable? {
      return InvalidStartDate;
    }
    var start := form.startDate.day;
    var end := EndDate(start, days.value);
    if TeacherWithId(db.teachers, form.teacherId.value).None? {
      return TeacherNotFound;
    }
    var _ := db.InsertSickReport(form.teacherId.value, start, end);
    return Success;
  }
}
