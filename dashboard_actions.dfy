/** The dashboard's server actions `assignRelief` and `unassignRelief`: the
    same check-then-insert as the relief-assignment endpoint, reporting
    failures by throwing, and deletion of an assignment by id. */
module DashboardActions {
  import opened Common
  import opened Domain
  import opened Store
  import opened Ledger

  /** Why an action threw. */
  datatype ActionError =
    | MissingField       // a required form field is absent or empty
    | EntryNotFound      // no timetable entry has the given id
    | AlreadyAssigned    // the relief teacher covers that period that day
    | QueryRejected      // the date text gives an invalid date, which the query refuses
    | RecordNotFound     // nothing to delete under the given id

  datatype ActionResult = Done | Thrown(error: ActionError)

  /** `assignRelief`: on success exactly one assignment with the given fields
      is appended; every failure leaves the ledger as it was. */
  method AssignRelief(db: Database, form: AssignmentRequest) returns (result: ActionResult)
    requires db.Valid()
    modifies db
    ensures db.Valid()
    ensures db.teachers == old(db.teachers) && db.periods == old(db.periods) && db.entries == old(db.entries)
    ensures db.sickReports == old(db.sickReports)
    ensures result == Thrown(MissingField) <==> Incomplete(form)
    ensures result == Thrown(EntryNotFound) <==>
      !Incomplete(form) && EntryWithId(db.entries, form.timetableEntryId.value).None?
    ensures result == Thrown(QueryRejected) <==>
      !Incomplete(form) && EntryWithId(db.entries, form.timetableEntryId.value).Some? && form.date.Unparsable?
    ensures result == Thrown(AlreadyAssigned) <==>
      && !Incomplete(form) && form.date.OnDay?
      && EntryWithId(db.entries, form.timetableEntryId.value).Some?
      && HasConflict(old(db.assignments), db.entries, form.reliefTeacherId.value, form.date.day,
                     EntryWithId(db.entries, form.timetableEntryId.value).value.periodId)
    ensures result != Thrown(RecordNotFound)
    ensures result.Thrown? ==> db.assignments == old(db.assignments)
    ensures result == Done ==>
      db.assignments == old(db.assignments) + [ReliefAssignment(old(db.nextId), form.sickReportId.value,
        form.timetableEntryId.value, form.reliefTeacherId.value, form.date.day)]
    ensures NoDoubleBooking(old(db.assignments), db.entries) ==> NoDoubleBooking(db.assignments, db.entries)
  {
    if Incomplete(form) {
      return Thrown(MissingField);
    }
    var entry := EntryWithId(db.entries, form.timetableEntryId.value);
    if entry.None? {
      return Thrown(EntryNotFound);
    }
    if form.date.Unparsable? {
      return Thrown(QueryRejected);
    }
    var date := form.date.day;
    if HasConflict(db.assignments, db.entries, form.reliefTeacherId.value, date, entry.value.periodId) {
      return Thrown(AlreadyAssigned);
    }
    var a := db.InsertAssignment(form.sickReportId.value, form.timetableEntryId.value, form.reliefTeacherId.value, date);
    assert NoDoubleBooking(old(db.assignments), db.entries) ==> NoDoubleBooking(db.assignments, db.entries) by {
      if NoDoubleBooking(old(db.assignments), db.entries) {
        AppendKeepsNoDoubleBooking(old(db.assignments), db.entries, a, entry.value);
      }
    }
    return Done;
  }

  /** `unassignRelief`: an empty id throws; deleting an id that no assignment
      carries throws as Prisma's `delete` does; otherwise exactly the
      assignment with that id is removed. */
  method UnassignRelief(db: Database, assignmentId: Option<Id>) returns (result: ActionResult)
    requires db.Valid()
    modifies db`assignments
    ensures db.Valid()
    ensures result == Thrown(MissingField) <==> assignmentId.None?
    ensures result == Thrown(RecordNotFound) <==>
      assignmentId.Some? && forall i :: 0 <= i < |old(db.assignments)| ==> old(db.assignments)[i].id != assignmentId.value
    ensures result == Done || result == Thrown(MissingField) || result == Thrown(RecordNotFound)
    ensures result.Thrown? ==> db.assignments == old(db.assignments)
    ensures result == Done ==> db.assignments == Without(old(db.assignments), assignmentId.value)
    ensures result == Done ==> exists k :: (0 <= k < |old(db.assignments)| && old(db.assignments)[k].id == assignmentId.value
      && db.assignments == old(db.assignments)[..k] + old(db.assignments)[k + 1..])
    ensures NoDoubleBooking(old(db.assignments), db.entries) ==> NoDoubleBooking(db.assignments, db.entries)
  {
    if assignmentId.None? {
      return Thrown(MissingField);
    }
    var id := assignmentId.value;
    if !exists i :: 0 <= i < |db.assignments| && db.assignments[i].id == id {
      return Thrown(RecordNotFound);
    }
    var before := db.assignments;
    var k :| 0 <= k < |before| && before[k].id == id;
    WithoutOne(before, k);
    FilterKeepsUniqueKeys(before, (a: ReliefAssignment) => a.id != id, AssignmentKey);
    db.assignments := Without(before, id);
    assert db.assignments == Filter(before, (a: ReliefAssignment) => a.id != id);
    assert NoDoubleBooking(old(db.assignments), db.entries) ==> NoDoubleBooking(db.assignments, db.entries) by {
      if NoDoubleBooking(old(db.assignments), db.entries) {
        FilterKeepsNoDoubleBooking(old(db.assignments), db.entries, (a: ReliefAssignment) => a.id != id);
      }
    }
    return Done;
  }
}
