/** The look-ups the dashboard builds for one date: which sick reports are
    open, which entries apply, who is busy or already covering in which
    period, and which assignment covers which entry. */
module Coverage {
  import opened Common
  import opened Domain
  import opened Store

  /** `dayOfWeek: dow, weekType: { in: [week, "ALL"] }`. */
  predicate Applies(e: TimetableEntry, dow: int, week: WeekType)
  {
    e.dayOfWeek == dow && (e.weekType == week || e.weekType == All)
  }

  /** `startDate <= date <= endDate`. */
  predicate Overlaps(r: SickReport, d: Day)
  {
    r.startDate <= d <= r.endDate
  }

  /** One assignment of an open report on the date, with the name of its
      relief teacher. */
  datatype Cover = Cover(entryId: Id, assignmentId: Id, reliefTeacherName: string)

  /** An open sick report with its teacher and its assignments on the date. */
  datatype Absence = Absence(report: SickReport, teacher: Teacher, covers: seq<Cover>)

  /** An assignment joined with its relief teacher and its entry's period
      (`include: { reliefTeacher: true, timetableEntry: { include: { period: true } } }`). */
  function CoverOf(t: Tables, a: ReliefAssignment): (r: Option<Cover>)
    ensures r.Some? <==>
      (&& TeacherWithId(t.teachers, a.reliefTeacherId).Some? && EntryWithId(t.entries, a.timetableEntryId).Some?
       && PeriodWithId(t.periods, EntryWithId(t.entries, a.timetableEntryId).value.periodId).Some?)
    ensures r.Some? ==>
      (&& r.value.entryId == a.timetableEntryId && r.value.assignmentId == a.id
       && r.value.reliefTeacherName == TeacherWithId(t.teachers, a.reliefTeacherId).value.name)
  {
    match TeacherWithId(t.teachers, a.reliefTeacherId)
    case None => None
    case Some(relief) =>
      match EntryWithId(t.entries, a.timetableEntryId)
      case None => None
      case Some(e) =>
        if PeriodWithId(t.periods, e.periodId).None? then None
        else Some(Cover(a.timetableEntryId, a.id, relief.name))
  }

  /** The cover an assignment shows for report `r` on `d`: its join, when it
      belongs to `r` and is dated `d`. */
  function CoverOnDay(t: Tables, r: SickReport, d: Day, a: ReliefAssignment): Option<Cover>
  {
    if a.sickReportId == r.id && a.date == d then CoverOf(t, a) else None
  }

  /** `reliefAssignments: { where: { date } }` of report `r`: the covers of
      exactly the assignments of `r` on `d` that join. */
  function CoversOn(t: Tables, r: SickReport, d: Day): (covers: seq<Cover>)
    ensures forall j :: 0 <= j < |covers| ==>
      exists k :: 0 <= k < |t.assignments| && CoverOnDay(t, r, d, t.assignments[k]) == Some(covers[j])
    ensures forall k :: 0 <= k < |t.assignments| && CoverOnDay(t, r, d, t.assignments[k]).Some? ==>
      CoverOnDay(t, r, d, t.assignments[k]).value in covers
    ensures UniqueKeys(t.assignments, AssignmentKey) ==> Distinct(covers)
  {
    var f := (a: ReliefAssignment) => CoverOnDay(t, r, d, a);
    assert UniqueKeys(t.assignments, AssignmentKey) ==> Distinct(FilterMap(t.assignments, f)) by {
      if UniqueKeys(t.assignments, AssignmentKey) {
        forall i, j | 0 <= i < j < |t.assignments| && f(t.assignments[i]).Some?
          ensures f(t.assignments[i]) != f(t.assignments[j])
        {
          assert AssignmentKey(t.assignments[i]) != AssignmentKey(t.assignments[j]);
        }
        FilterMapDistinct(t.assignments, f);
      }
    }
    FilterMap(t.assignments, f)
  }

  function AbsenceOn(t: Tables, d: Day, r: SickReport): Option<Absence>
  {
    if !Overlaps(r, d) then None
    else
      match TeacherWithId(t.teachers, r.teacherId)
      case None => None
      case Some(teacher) => Some(Absence(r, teacher, CoversOn(t, r, d)))
  }

  /** `AbsenceOn` of the day, as a function of the report. */
  function OpenAbsence(t: Tables, d: Day): SickReport -> Option<Absence>
  {
    (r: SickReport) => AbsenceOn(t, d, r)
  }

  /** The sick reports open on `d`, in table order, with their teachers. */
  function Absences(t: Tables, d: Day): (r: seq<Absence>)
    ensures forall j :: 0 <= j < |r| ==>
      (&& Overlaps(r[j].report, d) && r[j].report in t.sickReports
       && TeacherWithId(t.teachers, r[j].report.teacherId) == Some(r[j].teacher)
       && r[j].covers == CoversOn(t, r[j].report, d))
    ensures forall k :: 0 <= k < |t.sickReports| && AbsenceOn(t, d, t.sickReports[k]).Some? ==>
      AbsenceOn(t, d, t.sickReports[k]).value in r
    ensures Distinct(t.sickReports) ==> Distinct(r)
  {
    assert Distinct(t.sickReports) ==> Distinct(FilterMap(t.sickReports, OpenAbsence(t, d))) by {
      if Distinct(t.sickReports) {
        FilterMapDistinct(t.sickReports, OpenAbsence(t, d));
      }
    }
    FilterMap(t.sickReports, OpenAbsence(t, d))
  }

  /** The absences come in table order: of two open reports, the earlier
      row's absence comes first. */
  lemma AbsencesInTableOrder(t: Tables, d: Day, k1: nat, k2: nat) returns (j1: nat, j2: nat)
    requires k1 < k2 < |t.sickReports|
    requires AbsenceOn(t, d, t.sickReports[k1]).Some? && AbsenceOn(t, d, t.sickReports[k2]).Some?
    ensures j1 < j2 < |Absences(t, d)|
    ensures Absences(t, d)[j1] == AbsenceOn(t, d, t.sickReports[k1]).value
    ensures Absences(t, d)[j2] == AbsenceOn(t, d, t.sickReports[k2]).value
  {
    j1, j2 := FilterMapOrder(t.sickReports, OpenAbsence(t, d), k1, k2);
  }

  /** `sickTeacherIds`. */
  function SickIds(absences: seq<Absence>): (r: seq<Id>)
    ensures |r| == |absences| && forall i :: 0 <= i < |r| ==> r[i] == absences[i].report.teacherId
  {
    seq(|absences|, i requires 0 <= i < |absences| => absences[i].report.teacherId)
  }

  /** (teacher, period) of every entry that applies: `allEntriesForDay`. */
  function BusyPairs(entries: seq<TimetableEntry>, dow: int, week: WeekType): seq<(Id, Id)>
  {
    FilterMap(entries, (e: TimetableEntry) => if Applies(e, dow, week) then Some((e.teacherId, e.periodId)) else None)
  }

  /** (relief teacher, period) of every assignment on `d` whose entry is
      stored: `existingAssignments`. */
  function CoverPairs(assignments: seq<ReliefAssignment>, entries: seq<TimetableEntry>, d: Day): seq<(Id, Id)>
  {
    FilterMap(assignments, (a: ReliefAssignment) =>
      if a.date == d && AssignedPeriod(entries, a).Some? then Some((a.reliefTeacherId, AssignedPeriod(entries, a).value)) else None)
  }

  /** The `Map<string, Set<string>>` that the busy and covering loops fill:
      each first component with the set of its second components. */
  function Group(pairs: seq<(Id, Id)>): map<Id, set<Id>>
  {
    if pairs == [] then map[]
    else
      var g := Group(pairs[..|pairs| - 1]);
      var (k, v) := pairs[|pairs| - 1];
      g[k := (if k in g then g[k] else {}) + {v}]
  }

  /** `v` is in the set under `k` exactly when the pair (k, v) was seen. */
  lemma {:induction false} GroupHas(pairs: seq<(Id, Id)>, k: Id, v: Id)
    ensures (k in Group(pairs) && v in Group(pairs)[k]) <==> exists i :: 0 <= i < |pairs| && pairs[i] == (k, v)
  {
    if pairs != [] {
      var init := pairs[..|pairs| - 1];
      GroupHas(init, k, v);
      if exists i :: 0 <= i < |init| && init[i] == (k, v) {
        var i :| 0 <= i < |init| && init[i] == (k, v);
        assert pairs[i] == (k, v);
      }
      if exists i :: 0 <= i < |pairs| && pairs[i] == (k, v) {
        var i :| 0 <= i < |pairs| && pairs[i] == (k, v);
        if i < |init| {
          assert init[i] == (k, v);
        }
      }
    }
  }

  /** The concatenation of the absences' covers, report by report. */
  function Flatten(absences: seq<Absence>): seq<Cover>
  {
    if absences == [] then [] else Flatten(absences[..|absences| - 1]) + absences[|absences| - 1].covers
  }

  /** A cover is in the concatenation exactly when it is a cover of one of
      the absences. */
  lemma {:induction false} FlattenHas(absences: seq<Absence>, c: Cover)
    ensures c in Flatten(absences) <==> exists i :: 0 <= i < |absences| && c in absences[i].covers
  {
    if absences != [] {
      var init := absences[..|absences| - 1];
      FlattenHas(init, c);
      if exists i :: 0 <= i < |init| && c in init[i].covers {
        var i :| 0 <= i < |init| && c in init[i].covers;
        assert absences[i] == init[i];
      }
      if exists i :: 0 <= i < |absences| && c in absences[i].covers {
        var i :| 0 <= i < |absences| && c in absences[i].covers;
        if i < |init| {
          assert init[i] == absences[i];
        }
      }
    }
  }

  /** The absence a cover in the concatenation comes from. */
  lemma FlattenSource(absences: seq<Absence>, c: Cover) returns (i: nat)
    requires c in Flatten(absences)
    ensures i < |absences| && c in absences[i].covers
  {
    FlattenHas(absences, c);
    i :| 0 <= i < |absences| && c in absences[i].covers;
  }

  /** `assignmentByEntry`: for each covered entry, the last cover of it. */
  function ByEntry(covers: seq<Cover>): map<Id, Cover>
  {
    if covers == [] then map[]
    else
      var c := covers[|covers| - 1];
      ByEntry(covers[..|covers| - 1])[c.entryId := c]
  }

  /** An entry has a cover under it exactly when some cover is of it, and
      then it is the last such cover. */
  lemma ByEntryLast(covers: seq<Cover>, id: Id)
    ensures id in ByEntry(covers) <==> exists i :: 0 <= i < |covers| && covers[i].entryId == id
    ensures id in ByEntry(covers) ==> exists i :: (0 <= i < |covers| && covers[i] == ByEntry(covers)[id]
      && covers[i].entryId == id && forall j :: i < j < |covers| ==> covers[j].entryId != id)
  {
    ByEntryHas(covers, id);
    if id in ByEntry(covers) {
      var i := ByEntryIsLast(covers, id);
    }
  }

  lemma {:induction false} ByEntryHas(covers: seq<Cover>, id: Id)
    ensures id in ByEntry(covers) <==> exists i :: 0 <= i < |covers| && covers[i].entryId == id
  {
    if covers != [] {
      var init := covers[..|covers| - 1];
      var c := covers[|covers| - 1];
      ByEntryHas(init, id);
      if c.entryId != id {
        if id in ByEntry(init) {
          var i :| 0 <= i < |init| && init[i].entryId == id;
          assert covers[i] == init[i];
        }
        if exists i :: 0 <= i < |covers| && covers[i].entryId == id {
          var i :| 0 <= i < |covers| && covers[i].entryId == id;
          assert init[i] == covers[i];
        }
      }
    }
  }

  lemma {:induction false} ByEntryIsLast(covers: seq<Cover>, id: Id) returns (i: nat)
    requires id in ByEntry(covers)
    ensures i < |covers| && covers[i] == ByEntry(covers)[id] && covers[i].entryId == id
    ensures forall j :: i < j < |covers| ==> covers[j].entryId != id
  {
    var init := covers[..|covers| - 1];
    var c := covers[|covers| - 1];
    if c.entryId != id {
      i := ByEntryIsLast(init, id);
      assert covers[i] == init[i];
    } else {
      i := |covers| - 1;
    }
  }

  /** The teacher has an applying entry in that period. */
  predicate BusyIn(entries: seq<TimetableEntry>, dow: int, week: WeekType, teacher: Id, periodId: Id)
  {
    exists i :: 0 <= i < |entries| && entries[i].teacherId == teacher && entries[i].periodId == periodId
      && Applies(entries[i], dow, week)
  }

  /** The busy look-up answers `BusyIn`. */
  lemma BusyLookup(entries: seq<TimetableEntry>, dow: int, week: WeekType, teacher: Id, periodId: Id)
    ensures var busy := Group(BusyPairs(entries, dow, week));
      (teacher in busy && periodId in busy[teacher]) <==> BusyIn(entries, dow, week, teacher, periodId)
  {
    var pairs := BusyPairs(entries, dow, week);
    GroupHas(pairs, teacher, periodId);
    if BusyIn(entries, dow, week, teacher, periodId) {
      var i :| 0 <= i < |entries| && entries[i].teacherId == teacher && entries[i].periodId == periodId
        && Applies(entries[i], dow, week);
      assert (teacher, periodId) in pairs;
    }
  }

  /** The covering look-up answers the ledger's conflict test. */
  lemma CoveringLookup(assignments: seq<ReliefAssignment>, entries: seq<TimetableEntry>, d: Day, teacher: Id, periodId: Id)
    ensures var covering := Group(CoverPairs(assignments, entries, d));
      (teacher in covering && periodId in covering[teacher]) <==> HasConflict(assignments, entries, teacher, d, periodId)
  {
    var pairs := CoverPairs(assignments, entries, d);
    GroupHas(pairs, teacher, periodId);
    if HasConflict(assignments, entries, teacher, d, periodId) {
      var i :| 0 <= i < |assignments| && Books(entries, assignments[i], teacher, d, periodId);
      assert (teacher, periodId) in pairs;
    }
  }

  /** Every cover the dashboard shows is a stored assignment of that date,
      made for an open sick report, with its entry and relief teacher. */
  lemma CoverIsAssignment(t: Tables, d: Day, c: Cover) returns (a: ReliefAssignment, r: SickReport)
    requires c in Flatten(Absences(t, d))
    ensures a in t.assignments && a.date == d && CoverOf(t, a) == Some(c)
    ensures a.id == c.assignmentId && a.timetableEntryId == c.entryId
    ensures r in t.sickReports && r.id == a.sickReportId && Overlaps(r, d)
  {
    var absences := Absences(t, d);
    var i := FlattenSource(absences, c);
    r := absences[i].report;
    assert absences[i].covers == CoversOn(t, r, d);
    a := CoverSource(t, r, d, c);
  }

  /** The assignment a cover of report `r` comes from. */
  lemma CoverSource(t: Tables, r: SickReport, d: Day, c: Cover) returns (a: ReliefAssignment)
    requires c in CoversOn(t, r, d)
    ensures a in t.assignments && a.sickReportId == r.id && a.date == d && CoverOf(t, a) == Some(c)
  {
    var covers := CoversOn(t, r, d);
    var j :| 0 <= j < |covers| && covers[j] == c;
    var k :| 0 <= k < |t.assignments| && CoverOnDay(t, r, d, t.assignments[k]) == Some(c);
    a := t.assignments[k];
  }

  /** Every assignment of the date made for an open report of a stored
      teacher, whose entry, period and relief teacher are stored, is shown. */
  lemma AssignmentIsCover(t: Tables, d: Day, a: ReliefAssignment, r: SickReport)
    requires a in t.assignments && a.date == d && CoverOf(t, a).Some?
    requires r in t.sickReports && r.id == a.sickReportId && Overlaps(r, d) && TeacherWithId(t.teachers, r.teacherId).Some?
    ensures CoverOf(t, a).value in Flatten(Absences(t, d))
  {
    var absences := Absences(t, d);
    var j :| 0 <= j < |t.sickReports| && t.sickReports[j] == r;
    var ab := AbsenceOn(t, d, r).value;
    assert ab in absences;
    var k :| 0 <= k < |t.assignments| && t.assignments[k] == a;
    assert CoverOnDay(t, r, d, t.assignments[k]) == CoverOf(t, a);
    var i :| 0 <= i < |absences| && absences[i] == ab;
    FlattenHas(absences, CoverOf(t, a).value);
  }
}
