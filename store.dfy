/** The database as one mutable object: the five tables the program reads
    and writes through Prisma, kept as sequences in insertion order, and the
    counter that hands out fresh ids. */
module Store {
  import opened Common
  import opened Domain

  function TeacherKey(t: Teacher): Id { t.id }
  function PeriodKey(p: Period): Id { p.id }
  function PeriodNumber(p: Period): int { p.number }
  function EntryKey(e: TimetableEntry): Id { e.id }
  function ReportKey(r: SickReport): Id { r.id }
  function AssignmentKey(a: ReliefAssignment): Id { a.id }

  /** Every key in `s` lies below `bound`. */
  predicate KeysBelow<T>(s: seq<T>, key: T -> Id, bound: nat)
  {
    forall i :: 0 <= i < |s| ==> key(s[i]) < bound
  }

  /** Every row carries an id handed out before `nextId`, no two rows of a
      table share an id (the primary keys), and the two unique constraints
      of the schema hold: the timetable 4-tuple and the period number. */
  ghost predicate Consistent(
    teachers: seq<Teacher>, periods: seq<Period>, entries: seq<TimetableEntry>,
    sickReports: seq<SickReport>, assignments: seq<ReliefAssignment>, nextId: nat)
  {
    && KeysBelow(teachers, TeacherKey, nextId)
    && KeysBelow(periods, PeriodKey, nextId)
    && KeysBelow(entries, EntryKey, nextId)
    && KeysBelow(sickReports, ReportKey, nextId)
    && KeysBelow(assignments, AssignmentKey, nextId)
    && UniqueKeys(teachers, TeacherKey) && UniqueKeys(periods, PeriodKey)
    && UniqueKeys(entries, EntryKey) && UniqueKeys(sickReports, ReportKey)
    && UniqueKeys(assignments, AssignmentKey)
    && UniqueKeys(entries, SlotKey)
    && UniqueKeys(periods, PeriodNumber)
  }

  class Database {
    var teachers: seq<Teacher>
    var periods: seq<Period>
    var entries: seq<TimetableEntry>
    var sickReports: seq<SickReport>
    var assignments: seq<ReliefAssignment>
    /** The next id to hand out; every stored row has a smaller one. */
    var nextId: nat

    ghost predicate Valid()
      reads this
    {
      Consistent(teachers, periods, entries, sickReports, assignments, nextId)
    }

    /** The tables as values. */
    function Snapshot(): Tables
      reads this
    {
      Tables(teachers, periods, entries, sickReports, assignments)
    }

    constructor ()
      ensures Valid()
      ensures teachers == [] && periods == [] && entries == [] && sickReports == [] && assignments == []
    {
      teachers, periods, entries, sickReports, assignments := [], [], [], [], [];
      nextId := 0;
    }

    /** No stored row of any table carries `id`. */
    predicate Unused(id: Id)
      reads this
    {
      && (forall i :: 0 <= i < |teachers| ==> teachers[i].id != id)
      && (forall i :: 0 <= i < |periods| ==> periods[i].id != id)
      && (forall i :: 0 <= i < |entries| ==> entries[i].id != id)
      && (forall i :: 0 <= i < |sickReports| ==> sickReports[i].id != id)
      && (forall i :: 0 <= i < |assignments| ==> assignments[i].id != id)
    }

    /** A new id, different from every id stored so far; the counter moves
        past it and the store stays consistent. */
    method FreshId() returns (id: Id)
      requires Valid()
      modifies this`nextId
      ensures Valid()
      ensures Unused(id)
      ensures id == old(nextId) && nextId == id + 1
    {
      id := nextId;
      nextId := nextId + 1;
    }

    /** `prisma.sickReport.create`: one new report under a fresh id. */
    method InsertSickReport(teacherId: Id, startDate: Day, endDate: Day) returns (report: SickReport)
      requires Valid()
      modifies this
      ensures Valid()
      ensures report == SickReport(old(nextId), teacherId, startDate, endDate)
      ensures sickReports == old(sickReports) + [report]
      ensures teachers == old(teachers) && periods == old(periods) && entries == old(entries)
      ensures assignments == old(assignments)
    {
      var id := FreshId();
      report := SickReport(id, teacherId, startDate, endDate);
      sickReports := sickReports + [report];
    }

    /** `prisma.reliefAssignment.create`: one new assignment under a fresh id. */
    method InsertAssignment(sickReportId: Id, timetableEntryId: Id, reliefTeacherId: Id, date: Day)
      returns (assignment: ReliefAssignment)
      requires Valid()
      modifies this
      ensures Valid()
      ensures assignment == ReliefAssignment(old(nextId), sickReportId, timetableEntryId, reliefTeacherId, date)
      ensures assignments == old(assignments) + [assignment]
      ensures teachers == old(teachers) && periods == old(periods) && entries == old(entries)
      ensures sickReports == old(sickReports)
    {
      var id := FreshId();
      assignment := ReliefAssignment(id, sickReportId, timetableEntryId, reliefTeacherId, date);
      assignments := assignments + [assignment];
    }
  }
}
