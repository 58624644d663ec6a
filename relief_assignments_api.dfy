/** `POST /api/relief-assignments`: record that a relief teacher covers a
    timetable entry on a date, after checking the fields, the entry and the
    teacher's other cover in that period. */
module ReliefAssignmentsApi {
  import opened Common
  import opened Domain
  import opened Store
  import opened Ledger

  /** The handler, with its HTTP status (400 missing field, 404 unknown
      entry, 409 teacher already covering that period that day, 500 a date
      the query cannot use, 201 created) and the created row. */
  method Post(db: Database, req: AssignmentRequest) returns (status: int, created: Option<ReliefAssignment>)
    requires db.Valid()
    modifies db
    ensures db.Valid()
    ensures db.teachers == old(db.teachers) && db.periods == old(db.periods) && db.entries == old(db.entries)
    ensures db.sickReports == old(db.sickReports)
    ensures status == 400 <==> Incomplete(req)
    ensures status == 404 <==> !Incomplete(req) && EntryWithId(db.entries, req.timetableEntryId.value).None?
    ensures status == 500 <==>
      !Incomplete(req) && EntryWithId(db.entries, req.timetableEntryId.value).Some? && req.date.Unparsable?
    ensures status == 409 <==>
      && !Incomplete(req) && req.date.OnDay?
      && EntryWithId(db.entries, req.timetableEntryId.value).Some?
      && HasConflict(old(db.assignments), db.entries, req.reliefTeacherId.value, req.date.day,
                     EntryWithId(db.entries, req.timetableEntryId.value).value.periodId)
    ensures status in {201, 400, 404, 409, 500}
    ensures status != 201 ==> created == None && db.assignments == old(db.assignments)
    ensures status == 201 ==>
      && created == Some(ReliefAssignment(old(db.nextId), req.sickReportId.value, req.timetableEntryId.value,
                                          req.reliefTeacherId.value, req.date.day))
      && db.assignments == old(db.assignments) + [created.value]
    ensures NoDoubleBooking(old(db.assignments), db.entries) ==> NoDoubleBooking(db.assignments, db.entries)
  {
    if Incomplete(req) {
      return 400, None;
    }
    var entry := EntryWithId(db.entries, req.timetableEntryId.value);
    if entry.None? {
      return 404, None;
    }
    if req.date.Unparsable? {
      return 500, None;
    }
    var date := req.date.day;
    if HasConflict(db.assignments, db.entries, req.reliefTeacherId.value, date, entry.value.periodId) {
      return 409, None;
    }
    var a := db.InsertAssignment(req.sickReportId.value, req.timetableEntryId.value, req.reliefTeacherId.value, date);
    assert NoDoubleBooking(old(db.assignments), db.entries) ==> NoDoubleBooking(db.assignments, db.entries) by {
      if NoDoubleBooking(old(db.assignments), db.entries) {
        AppendKeepsNoDoubleBooking(old(db.assignments), db.entries, a, entry.value);
      }
    }
    return 201, Some(a);
  }
}
