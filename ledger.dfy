/** The relief-assignment ledger: the request both writers accept, the
    conflict test they run before inserting (same relief teacher, same date,
    an entry in the same period) and the no-double-booking invariant that
    the test keeps when requests run one after another. */
module Ledger {
  import opened Common
  import opened Domain
  import opened Store

  /** The four fields of an assignment request; `None` and `Blank` stand for
      a value that is missing or empty. */
  datatype AssignmentRequest = AssignmentRequest(
    sickReportId: Option<Id>, timetableEntryId: Option<Id>,
    reliefTeacherId: Option<Id>, date: DateInput)

  /** `!sickReportId || !timetableEntryId || !reliefTeacherId || !date`. */
  predicate Incomplete(req: AssignmentRequest)
  {
    req.sickReportId.None? || req.timetableEntryId.None? || req.reliefTeacherId.None? || req.date.Blank?
  }

  /** Two assignments book one relief teacher twice in one period of one day. */
  predicate Clash(entries: seq<TimetableEntry>, a: ReliefAssignment, b: ReliefAssignment)
  {
    && a.reliefTeacherId == b.reliefTeacherId
    && a.date == b.date
    && AssignedPeriod(entries, a).Some?
    && AssignedPeriod(entries, a) == AssignedPeriod(entries, b)
  }

  /** The ledger without the assignment(s) carrying `id`. */
  function Without(assignments: seq<ReliefAssignment>, id: Id): (r: seq<ReliefAssignment>)
    ensures forall i :: 0 <= i < |r| ==> r[i].id != id && r[i] in assignments
    ensures forall i :: 0 <= i < |assignments| && assignments[i].id != id ==> assignments[i] in r
  {
    Filter(assignments, (a: ReliefAssignment) => a.id != id)
  }

  /** With unique ids, as the primary key keeps them, removing an
      assignment's id removes exactly that assignment. */
  lemma WithoutOne(assignments: seq<ReliefAssignment>, k: nat)
    requires UniqueKeys(assignments, AssignmentKey) && k < |assignments|
    ensures Without(assignments, assignments[k].id) == assignments[..k] + assignments[k + 1..]
  {
    var id := assignments[k].id;
    FilterOutKey(assignments, AssignmentKey, k, (a: ReliefAssignment) => a.id != id);
  }

  /** `NoDoubleBooking` says exactly that no two assignments clash. */
  lemma NoDoubleBookingIsNoClash(assignments: seq<ReliefAssignment>, entries: seq<TimetableEntry>)
    ensures NoDoubleBooking(assignments, entries) <==>
      forall i, j :: 0 <= i < j < |assignments| ==> !Clash(entries, assignments[i], assignments[j])
  {
  }

  /** An assignment that clashes with a ledger entry is exactly one the
      conflict test rejects. */
  lemma {:induction false} ClashIsConflict(assignments: seq<ReliefAssignment>, entries: seq<TimetableEntry>, a: ReliefAssignment, e: TimetableEntry)
    requires EntryWithId(entries, a.timetableEntryId) == Some(e)
    ensures HasConflict(assignments, entries, a.reliefTeacherId, a.date, e.periodId) <==>
      exists i :: 0 <= i < |assignments| && Clash(entries, assignments[i], a)
  {
    assert AssignedPeriod(entries, a) == Some(e.periodId);
    if HasConflict(assignments, entries, a.reliefTeacherId, a.date, e.periodId) {
      var i :| 0 <= i < |assignments| && Books(entries, assignments[i], a.reliefTeacherId, a.date, e.periodId);
      assert Clash(entries, assignments[i], a);
    }
  }

  /** Appending an assignment that passed the conflict test keeps the ledger
      free of double bookings. */
  lemma {:induction false} AppendKeepsNoDoubleBooking(assignments: seq<ReliefAssignment>, entries: seq<TimetableEntry>, a: ReliefAssignment, e: TimetableEntry)
    requires NoDoubleBooking(assignments, entries)
    requires EntryWithId(entries, a.timetableEntryId) == Some(e)
    requires !HasConflict(assignments, entries, a.reliefTeacherId, a.date, e.periodId)
    ensures NoDoubleBooking(assignments + [a], entries)
  {
    var s := assignments + [a];
    forall i, j | 0 <= i < j < |s| ensures !Clash(entries, s[i], s[j]) {
      if j == |assignments| {
        assert s[i] == assignments[i] && s[j] == a;
        assert AssignedPeriod(entries, a) == Some(e.periodId);
        assert !Books(entries, assignments[i], a.reliefTeacherId, a.date, e.periodId);
      } else {
        assert s[i] == assignments[i] && s[j] == assignments[j];
      }
    }
  }

  /** A ledger without double bookings has none once assignments are removed. */
  lemma {:induction false} FilterKeepsNoDoubleBooking(assignments: seq<ReliefAssignment>, entries: seq<TimetableEntry>, p: ReliefAssignment -> bool)
    requires NoDoubleBooking(assignments, entries)
    ensures NoDoubleBooking(Filter(assignments, p), entries)
  {
    if assignments != [] {
      var init := assignments[..|assignments| - 1];
      var last := assignments[|assignments| - 1];
      var rest := Filter(init, p);
      FilterKeepsNoDoubleBooking(init, entries, p);
      if p(last) {
        var r := rest + [last];
        assert Filter(assignments, p) == r;
        forall i, j | 0 <= i < j < |r| ensures !Clash(entries, r[i], r[j]) {
          if j == |rest| {
            assert r[i] in init;
            var k :| 0 <= k < |init| && init[k] == r[i];
            assert assignments[k] == r[i] && assignments[|assignments| - 1] == r[j];
          } else {
            assert r[i] == rest[i] && r[j] == rest[j];
          }
        }
      }
    }
  }

  /** Removing the assignment that booked `teacher` in `periodId` on `date`
      lets the conflict test pass for that teacher, period and date again. */
  lemma RemovalClearsConflict(assignments: seq<ReliefAssignment>, entries: seq<TimetableEntry>, k: nat, teacher: Id, date: Day, periodId: Id)
    requires NoDoubleBooking(assignments, entries)
    requires k < |assignments| && Books(entries, assignments[k], teacher, date, periodId)
    ensures !HasConflict(Without(assignments, assignments[k].id), entries, teacher, date, periodId)
  {
    var r := Without(assignments, assignments[k].id);
    forall i | 0 <= i < |r| ensures !Books(entries, r[i], teacher, date, periodId) {
      var j :| 0 <= j < |assignments| && assignments[j] == r[i];
      assert j != k;
      if j < k {
        assert !Clash(entries, assignments[j], assignments[k]);
      } else {
        assert !Clash(entries, assignments[k], assignments[j]);
      }
    }
  }

  /** The conflict test looks at the relief teacher only: an entry already
      covered on `date` by one teacher can be assigned to another teacher who
      is free in that period. */
  lemma OtherTeacherMayCoverSameEntry(entries: seq<TimetableEntry>, a: ReliefAssignment, e: TimetableEntry, other: Id)
    requires EntryWithId(entries, a.timetableEntryId) == Some(e)
    requires other != a.reliefTeacherId
    ensures !HasConflict([a], entries, other, a.date, e.periodId)
    ensures HasConflict([a], entries, a.reliefTeacherId, a.date, e.periodId)
  {
    assert Books(entries, [a][0], a.reliefTeacherId, a.date, e.periodId);
  }
}
