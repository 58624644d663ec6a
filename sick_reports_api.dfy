/** `POST /api/sick-reports`: validate the JSON body, then create one sick
    report. */
module SickReportsApi {
  import opened Common
  import opened Domain
  import opened Store

  /** The JSON body; `None` and `Blank` stand for a missing or falsy value
      (a day count of 0 is falsy too, see `Rejected`). */
  datatype SickRequest = SickRequest(teacherId: Option<Id>, startDate: DateInput, numberOfDays: Option<int>)

  /** `!teacherId || !startDate || !numberOfDays`. */
  predicate Rejected(req: SickRequest)
  {
    req.teacherId.None? || req.startDate.Blank? || req.numberOfDays.None? || req.numberOfDays == Some(0)
  }

  /** The handler: 400 for a missing field or a day count outside 1..14,
      404 for an unknown teacher, 500 when the start date is invalid (the
      create refuses the invalid date), otherwise 201 and exactly one new
      report ending on `EndDate`. */
  method Post(db: Database, req: SickRequest) returns (status: int, created: Option<SickReport>)
    requires db.Valid()
    modifies db
    ensures db.Valid()
    ensures db.teachers == old(db.teachers) && db.periods == old(db.periods) && db.entries == old(db.entries)
    ensures db.assignments == old(db.assignments)
    ensures status == 400 <==> Rejected(req) || req.numberOfDays.value < 1 || req.numberOfDays.value > 14
    ensures status == 404 <==>
      !Rejected(req) && 1 <= req.numberOfDays.value <= 14 && TeacherWithId(db.teachers, req.teacherId.value).None?
    ensures status == 500 <==>
      && !Rejected(req) && 1 <= req.numberOfDays.value <= 14 && TeacherWithId(db.teachers, req.teacherId.value).Some?
      && req.startDate.Unparsable?
    ensures status in {201, 400, 404, 500}
    ensures status != 201 ==> created == None && db.sickReports == old(db.sickReports)
    ensures status == 201 ==>
      && created == Some(SickReport(old(db.nextId), req.teacherId.value, req.startDate.day,
                                    EndDate(req.startDate.day, req.numberOfDays.value)))
      && db.sickReports == old(db.sickReports) + [created.value]
      && created.value.startDate <= created.value.endDate
  {
    if Rejected(req) {
      return 400, None;
    }
    var days := req.numberOfDays.value;
    if days < 1 || days > 14 {
      return 400, None;
    }
    if TeacherWithId(db.teachers, req.teacherId.value).None? {
      return 404, None;
    }
    if req.startDate.Unparsable? {
      return 500, None;
    }
    var start := req.startDate.day;
    var report := db.InsertSickReport(req.teacherId.value, start, EndDate(start, days));
    return 201, Some(report);
  }
}
