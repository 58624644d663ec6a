/** `POST /api/import-timetable`: an imported timetable (teachers, periods,
    entries) either replaces the store or is merged into it, all in one
    transaction that leaves the store as it was when any step fails. */
module ImportApi {
  import opened Common
  import opened Domain
  import opened Store

  datatype Mode = Replace | Merge

  datatype ImportTeacher = ImportTeacher(name: string)
  datatype ImportPeriod = ImportPeriod(number: int, startTime: string, endTime: string)

  /** `periodNumber` is `None` for a `null` number; `weekType` is `None` for
      text that is not a name of the `WeekType` enum. */
  datatype ImportEntry = ImportEntry(
    teacherName: string, dayOfWeek: int, periodNumber: Option<int>,
    className: string, subject: string, weekType: Option<WeekType>)

  /** The request body; `None` stands for a missing field. */
  datatype ImportRequest = ImportRequest(
    mode: Option<string>, teachers: Option<seq<ImportTeacher>>,
    periods: Option<seq<ImportPeriod>>, entries: Option<seq<ImportEntry>>)

  /** The `created` object of a successful response. */
  datatype Counts = Counts(teachers: nat, periods: nat, entries: nat)

  /** The store as the transaction sees it. */
  datatype Tx = Tx(
    teachers: seq<Teacher>, periods: seq<Period>, entries: seq<TimetableEntry>,
    sickReports: seq<SickReport>, assignments: seq<ReliefAssignment>, nextId: nat)

  ghost predicate TxValid(tx: Tx)
  {
    Consistent(tx.teachers, tx.periods, tx.entries, tx.sickReports, tx.assignments, tx.nextId)
  }

  function TxOf(db: Database): Tx
    reads db
  {
    Tx(db.teachers, db.periods, db.entries, db.sickReports, db.assignments, db.nextId)
  }

  /** `!mode || !teachers || !periods || !entries`. */
  predicate MissingField(req: ImportRequest)
  {
    req.mode.None? || req.mode.value == "" || req.teachers.None? || req.periods.None? || req.entries.None?
  }

  function ModeOf(text: string): Option<Mode>
  {
    if text == "replace" then Some(Replace) else if text == "merge" then Some(Merge) else None
  }

  /** The request is answered with 400. */
  predicate Rejected(req: ImportRequest)
  {
    MissingField(req) || ModeOf(req.mode.value).None?
  }

  /** The five `deleteMany` calls of replace mode. */
  function Cleared(tx: Tx): Tx
  {
    tx.(teachers := [], periods := [], entries := [], sickReports := [], assignments := [])
  }

  /** The table after the delete step: cleared in replace mode. */
  function Start(mode: Mode, tx: Tx): Tx
  {
    if mode == Replace then Cleared(tx) else tx
  }

  function NumberedAt(periods: seq<Period>, n: int): Option<nat>
  {
    FindIndex(periods, (q: Period) => q.number == n)
  }

  /** `tx.period.create`, which the unique period number refuses when a
      period already has the number. */
  function CreatePeriod(tx: Tx, p: ImportPeriod): Option<(Tx, Id)>
  {
    if NumberedAt(tx.periods, p.number).Some? then None
    else Some((tx.(periods := tx.periods + [Period(tx.nextId, p.number, p.startTime, p.endTime)], nextId := tx.nextId + 1), tx.nextId))
  }

  /** `tx.period.upsert` on the number: new times for an existing period,
      otherwise a new period. */
  function UpsertPeriod(tx: Tx, p: ImportPeriod): (Tx, Id)
  {
    match NumberedAt(tx.periods, p.number)
    case Some(k) => (tx.(periods := tx.periods[k := tx.periods[k].(startTime := p.startTime, endTime := p.endTime)]), tx.periods[k].id)
    case None => (tx.(periods := tx.periods + [Period(tx.nextId, p.number, p.startTime, p.endTime)], nextId := tx.nextId + 1), tx.nextId)
  }

  function PutPeriod(mode: Mode, tx: Tx, p: ImportPeriod): Option<(Tx, Id)>
  {
    if mode == Replace then CreatePeriod(tx, p) else Some(UpsertPeriod(tx, p))
  }

  /** The periods loop: the table after it and the number-to-id map
      `periodRecords`, or `None` when a create throws. */
  function PutPeriods(mode: Mode, tx: Tx, ps: seq<ImportPeriod>): Option<(Tx, map<int, Id>)>
  {
    if ps == [] then Some((tx, map[]))
    else
      match PutPeriods(mode, tx, ps[..|ps| - 1])
      case None => None
      case Some((t, ids)) =>
        match PutPeriod(mode, t, ps[|ps| - 1])
        case None => None
        case Some((t', id)) => Some((t', ids[ps[|ps| - 1].number := id]))
  }

  /** `teachers.map((t) => t.name)`. */
  function TeacherNames(ts: seq<ImportTeacher>): seq<string>
  {
    seq(|ts|, i requires 0 <= i < |ts| => ts[i].name)
  }

  /** `[...new Set(names)]`: each name once, in first-occurrence order. */
  function UniqueNames(ts: seq<ImportTeacher>): seq<string>
  {
    DedupOn(TeacherNames(ts), Itself)
  }

  function Itself(n: string): string { n }

  function NamedFirst(teachers: seq<Teacher>, name: string): Option<Teacher>
  {
    First(teachers, (t: Teacher) => t.name == name)
  }

  /** `tx.teacher.create({ data: { name, type: "REGULAR" } })`. */
  function CreateTeacher(tx: Tx, name: string): (Tx, Id)
  {
    (tx.(teachers := tx.teachers + [Teacher(tx.nextId, name, Regular)], nextId := tx.nextId + 1), tx.nextId)
  }

  /** A new teacher in replace mode; in merge mode the first teacher with the
      name, or a new one. */
  function PutTeacher(mode: Mode, tx: Tx, name: string): (Tx, Id)
  {
    if mode == Replace then CreateTeacher(tx, name)
    else
      match NamedFirst(tx.teachers, name)
      case Some(t) => (tx, t.id)
      case None => CreateTeacher(tx, name)
  }

  /** The teachers loop: the table after it and the name-to-id map
      `teacherRecords`. */
  function PutTeachers(mode: Mode, tx: Tx, names: seq<string>): (Tx, map<string, Id>)
  {
    if names == [] then (tx, map[])
    else
      var (t, ids) := PutTeachers(mode, tx, names[..|names| - 1]);
      var (t', id) := PutTeacher(mode, t, names[|names| - 1]);
      (t', ids[names[|names| - 1] := id])
  }

  /** In merge mode, the entries of the imported teachers are deleted. */
  function DropImported(mode: Mode, tx: Tx, teacherIds: map<string, Id>): Tx
  {
    if mode == Merge && |teacherIds.Values| > 0 then
      tx.(entries := Filter(tx.entries, (e: TimetableEntry) => e.teacherId !in teacherIds.Values))
    else tx
  }

  /** The teacher and period ids an entry refers to, when both are known. */
  function Resolved(teacherIds: map<string, Id>, periodIds: map<int, Id>, e: ImportEntry): Option<(Id, Id)>
  {
    if e.teacherName in teacherIds && e.periodNumber.Some? && e.periodNumber.value in periodIds then
      Some((teacherIds[e.teacherName], periodIds[e.periodNumber.value]))
    else None
  }

  function SlotTaken(entries: seq<TimetableEntry>, row: TimetableEntry): Option<nat>
  {
    FindIndex(entries, (x: TimetableEntry) => SlotKey(x) == SlotKey(row))
  }

  /** `tx.timetableEntry.create`, refused for a week type the enum does not
      have and for a 4-tuple that is already taken. */
  function CreateEntry(tx: Tx, teacherId: Id, periodId: Id, e: ImportEntry): Option<Tx>
  {
    if e.weekType.None? then None
    else
      var row := TimetableEntry(tx.nextId, teacherId, e.dayOfWeek, periodId, e.className, e.subject, e.weekType.value);
      if SlotTaken(tx.entries, row).Some? then None
      else Some(tx.(entries := tx.entries + [row], nextId := tx.nextId + 1))
  }

  /** The entries loop: the table after it and `entryCount`, or `None` when
      a create throws. */
  function PutEntries(tx: Tx, teacherIds: map<string, Id>, periodIds: map<int, Id>, es: seq<ImportEntry>): Option<(Tx, nat)>
  {
    if es == [] then Some((tx, 0))
    else
      match PutEntries(tx, teacherIds, periodIds, es[..|es| - 1])
      case None => None
      case Some((t, n)) =>
        match Resolved(teacherIds, periodIds, es[|es| - 1])
        case None => Some((t, n))
        case Some((teacherId, periodId)) =>
          match CreateEntry(t, teacherId, periodId, es[|es| - 1])
          case None => None
          case Some(t') => Some((t', n + 1))
  }

  /** What the transaction leaves behind: the store, the counts it returns
      and its two id maps. */
  datatype Done = Done(tx: Tx, counts: Counts, teacherIds: map<string, Id>, periodIds: map<int, Id>)

  /** The route's `$transaction` callback, or `None` when it throws. */
  function Transaction(mode: Mode, tx: Tx, teachers: seq<ImportTeacher>, periods: seq<ImportPeriod>, entries: seq<ImportEntry>): Option<Done>
  {
    match PutPeriods(mode, Start(mode, tx), periods)
    case None => None
    case Some((t1, periodIds)) =>
      var names := UniqueNames(teachers);
      var (t2, teacherIds) := PutTeachers(mode, t1, names);
      match PutEntries(DropImported(mode, t2, teacherIds), teacherIds, periodIds, entries)
      case None => None
      case Some((t3, n)) => Some(Done(t3, Counts(|names|, |periods|, n), teacherIds, periodIds))
  }

  // Each step keeps the store consistent and only moves the id counter on.

  predicate Grows(a: Tx, b: Tx)
  {
    a.nextId <= b.nextId && b.sickReports == a.sickReports && b.assignments == a.assignments
  }

  lemma PutPeriodValid(mode: Mode, tx: Tx, p: ImportPeriod)
    requires TxValid(tx) && PutPeriod(mode, tx, p).Some?
    ensures TxValid(PutPeriod(mode, tx, p).value.0) && Grows(tx, PutPeriod(mode, tx, p).value.0)
    ensures PutPeriod(mode, tx, p).value.0.teachers == tx.teachers
    ensures PutPeriod(mode, tx, p).value.0.entries == tx.entries
  {
    var k := NumberedAt(tx.periods, p.number);
    if k.None? {
      UniqueKeysSnoc(tx.periods, Period(tx.nextId, p.number, p.startTime, p.endTime), PeriodNumber);
    } else {
      var q := tx.periods[k.value];
      UniqueKeysUpdate(tx.periods, k.value, q.(startTime := p.startTime, endTime := p.endTime), PeriodNumber);
    }
  }

  lemma {:induction false} PutPeriodsValid(mode: Mode, tx: Tx, ps: seq<ImportPeriod>)
    requires TxValid(tx) && PutPeriods(mode, tx, ps).Some?
    ensures TxValid(PutPeriods(mode, tx, ps).value.0) && Grows(tx, PutPeriods(mode, tx, ps).value.0)
    ensures PutPeriods(mode, tx, ps).value.0.teachers == tx.teachers
    ensures PutPeriods(mode, tx, ps).value.0.entries == tx.entries
  {
    if ps != [] {
      PutPeriodsValid(mode, tx, ps[..|ps| - 1]);
      PutPeriodValid(mode, PutPeriods(mode, tx, ps[..|ps| - 1]).value.0, ps[|ps| - 1]);
    }
  }

  lemma {:induction false} PutTeachersValid(mode: Mode, tx: Tx, names: seq<string>)
    requires TxValid(tx)
    ensures TxValid(PutTeachers(mode, tx, names).0) && Grows(tx, PutTeachers(mode, tx, names).0)
    ensures PutTeachers(mode, tx, names).0.periods == tx.periods
    ensures PutTeachers(mode, tx, names).0.entries == tx.entries
  {
    if names != [] {
      PutTeachersValid(mode, tx, names[..|names| - 1]);
    }
  }

  lemma DropImportedValid(mode: Mode, tx: Tx, teacherIds: map<string, Id>)
    requires TxValid(tx)
    ensures TxValid(DropImported(mode, tx, teacherIds)) && Grows(tx, DropImported(mode, tx, teacherIds))
  {
    if mode == Merge && |teacherIds.Values| > 0 {
      FilterKeepsUniqueKeys(tx.entries, (e: TimetableEntry) => e.teacherId !in teacherIds.Values, SlotKey);
    }
  }

  lemma CreateEntryValid(tx: Tx, teacherId: Id, periodId: Id, e: ImportEntry)
    requires TxValid(tx) && CreateEntry(tx, teacherId, periodId, e).Some?
    ensures TxValid(CreateEntry(tx, teacherId, periodId, e).value)
    ensures Grows(tx, CreateEntry(tx, teacherId, periodId, e).value)
  {
    var row := TimetableEntry(tx.nextId, teacherId, e.dayOfWeek, periodId, e.className, e.subject, e.weekType.value);
    UniqueKeysSnoc(tx.entries, row, SlotKey);
  }

  lemma {:induction false} PutEntriesValid(tx: Tx, teacherIds: map<string, Id>, periodIds: map<int, Id>, es: seq<ImportEntry>)
    requires TxValid(tx) && PutEntries(tx, teacherIds, periodIds, es).Some?
    ensures TxValid(PutEntries(tx, teacherIds, periodIds, es).value.0)
    ensures Grows(tx, PutEntries(tx, teacherIds, periodIds, es).value.0)
  {
    if es != [] {
      PutEntriesValid(tx, teacherIds, periodIds, es[..|es| - 1]);
      var t := PutEntries(tx, teacherIds, periodIds, es[..|es| - 1]).value.0;
      var r := Resolved(teacherIds, periodIds, es[|es| - 1]);
      if r.Some? {
        CreateEntryValid(t, r.value.0, r.value.1, es[|es| - 1]);
      }
    }
  }

  /** A transaction that goes through leaves the store consistent. */
  lemma TransactionValid(mode: Mode, tx: Tx, teachers: seq<ImportTeacher>, periods: seq<ImportPeriod>, entries: seq<ImportEntry>)
    requires TxValid(tx) && Transaction(mode, tx, teachers, periods, entries).Some?
    ensures TxValid(Transaction(mode, tx, teachers, periods, entries).value.tx)
  {
    var t0 := Start(mode, tx);
    PutPeriodsValid(mode, t0, periods);
    var (t1, periodIds) := PutPeriods(mode, t0, periods).value;
    PutTeachersValid(mode, t1, UniqueNames(teachers));
    var (t2, teacherIds) := PutTeachers(mode, t1, UniqueNames(teachers));
    DropImportedValid(mode, t2, teacherIds);
    PutEntriesValid(DropImported(mode, t2, teacherIds), teacherIds, periodIds, entries);
  }

  // The route as the program runs it: the three loops on a working copy of
  // the tables, committed only when the transaction goes through.

  /** Once a prefix of the periods throws, the whole loop throws. */
  lemma {:induction false} PutPeriodsStuck(mode: Mode, tx: Tx, ps: seq<ImportPeriod>, j: int)
    requires 0 <= j <= |ps| && PutPeriods(mode, tx, ps[..j]).None?
    ensures PutPeriods(mode, tx, ps).None?
  {
    if j < |ps| {
      assert ps[..|ps| - 1][..j] == ps[..j];
      PutPeriodsStuck(mode, tx, ps[..|ps| - 1], j);
    } else {
      assert ps[..j] == ps;
    }
  }

  /** Once a prefix of the entries throws, the whole loop throws. */
  lemma {:induction false} PutEntriesStuck(tx: Tx, teacherIds: map<string, Id>, periodIds: map<int, Id>, es: seq<ImportEntry>, j: int)
    requires 0 <= j <= |es| && PutEntries(tx, teacherIds, periodIds, es[..j]).None?
    ensures PutEntries(tx, teacherIds, periodIds, es).None?
  {
    if j < |es| {
      assert es[..|es| - 1][..j] == es[..j];
      PutEntriesStuck(tx, teacherIds, periodIds, es[..|es| - 1], j);
    } else {
      assert es[..j] == es;
    }
  }

  /** The transaction's periods loop. */
  method ImportPeriods(mode: Mode, start: Tx, periods: seq<ImportPeriod>) returns (ok: bool, tx: Tx, periodRecords: map<int, Id>)
    ensures ok <==> PutPeriods(mode, start, periods).Some?
    ensures ok ==> PutPeriods(mode, start, periods) == Some((tx, periodRecords))
  {
    tx, periodRecords := start, map[];
    for i := 0 to |periods|
      invariant PutPeriods(mode, start, periods[..i]) == Some((tx, periodRecords))
    {
      assert periods[..i + 1][..i] == periods[..i];
      var p := periods[i];
      var id;
      if mode == Replace {
        var created := CreatePeriod(tx, p);
        if created.None? {
          PutPeriodsStuck(mode, start, periods, i + 1);
          return false, tx, periodRecords;
        }
        tx, id := created.value.0, created.value.1;
      } else {
        var upserted := UpsertPeriod(tx, p);
        tx, id := upserted.0, upserted.1;
      }
      periodRecords := periodRecords[p.number := id];
    }
    assert periods[..|periods|] == periods;
    ok := true;
  }

  /** The transaction's teachers loop. */
  method ImportTeachers(mode: Mode, start: Tx, names: seq<string>) returns (tx: Tx, teacherRecords: map<string, Id>)
    ensures PutTeachers(mode, start, names) == (tx, teacherRecords)
  {
    tx, teacherRecords := start, map[];
    for i := 0 to |names|
      invariant PutTeachers(mode, start, names[..i]) == (tx, teacherRecords)
    {
      assert names[..i + 1][..i] == names[..i];
      var name := names[i];
      var id;
      if mode == Replace {
        var created := CreateTeacher(tx, name);
        tx, id := created.0, created.1;
      } else {
        var teacher := NamedFirst(tx.teachers, name);
        if teacher.None? {
          var created := CreateTeacher(tx, name);
          tx, id := created.0, created.1;
        } else {
          id := teacher.value.id;
        }
      }
      teacherRecords := teacherRecords[name := id];
    }
    assert names[..|names|] == names;
  }

  /** The transaction's entries loop. */
  method ImportEntries(start: Tx, teacherRecords: map<string, Id>, periodRecords: map<int, Id>, entries: seq<ImportEntry>)
    returns (ok: bool, tx: Tx, entryCount: nat)
    ensures ok <==> PutEntries(start, teacherRecords, periodRecords, entries).Some?
    ensures ok ==> PutEntries(start, teacherRecords, periodRecords, entries) == Some((tx, entryCount))
  {
    tx, entryCount := start, 0;
    for i := 0 to |entries|
      invariant PutEntries(start, teacherRecords, periodRecords, entries[..i]) == Some((tx, entryCount))
    {
      assert entries[..i + 1][..i] == entries[..i];
      var entry := entries[i];
      if entry.teacherName !in teacherRecords || entry.periodNumber.None? || entry.periodNumber.value !in periodRecords {
        continue;
      }
      var created := CreateEntry(tx, teacherRecords[entry.teacherName], periodRecords[entry.periodNumber.value], entry);
      if created.None? {
        PutEntriesStuck(start, teacherRecords, periodRecords, entries, i + 1);
        return false, tx, entryCount;
      }
      tx := created.value;
      entryCount := entryCount + 1;
    }
    assert entries[..|entries|] == entries;
    ok := true;
  }

  /** `POST`: 400 for a missing field or an unknown mode; otherwise the
      transaction, whose success is answered with its counts (status 200)
      and whose failure with 500. Only a transaction that goes through
      changes the store. */
  method ImportTimetable(db: Database, req: ImportRequest) returns (status: int, created: Option<Counts>)
    requires db.Valid()
    modifies db
    ensures db.Valid()
    ensures status in {200, 400, 500}
    ensures status == 400 <==> Rejected(req)
    ensures !Rejected(req) ==>
      var done := Transaction(ModeOf(req.mode.value).value, old(TxOf(db)), req.teachers.value, req.periods.value, req.entries.value);
      && (status == 200 <==> done.Some?)
      && (status == 200 ==> TxOf(db) == done.value.tx && created == Some(done.value.counts))
    ensures status != 200 ==> created == None && TxOf(db) == old(TxOf(db))
  {
    if MissingField(req) {
      return 400, None;
    }
    var mode := ModeOf(req.mode.value);
    if mode.None? {
      return 400, None;
    }
    var before := TxOf(db);
    var tx := Start(mode.value, before);
    var ok, periodRecords;
    ok, tx, periodRecords := ImportPeriods(mode.value, tx, req.periods.value);
    if !ok {
      return 500, None;
    }
    var uniqueTeacherNames := UniqueNames(req.teachers.value);
    var teacherRecords;
    tx, teacherRecords := ImportTeachers(mode.value, tx, uniqueTeacherNames);
    tx := DropImported(mode.value, tx, teacherRecords);
    var entryCount;
    ok, tx, entryCount := ImportEntries(tx, teacherRecords, periodRecords, req.entries.value);
    if !ok {
      return 500, None;
    }
    TransactionValid(mode.value, before, req.teachers.value, req.periods.value, req.entries.value);
    db.teachers, db.periods, db.entries := tx.teachers, tx.periods, tx.entries;
    db.sickReports, db.assignments, db.nextId := tx.sickReports, tx.assignments, tx.nextId;
    status, created := 200, Some(Counts(|uniqueTeacherNames|, |req.periods.value|, entryCount));
  }

  // What the import promises about entries.

  /** The row an entry creates, whatever its id. */
  predicate CreatedFor(row: TimetableEntry, teacherId: Id, periodId: Id, e: ImportEntry)
  {
    && row.teacherId == teacherId && row.periodId == periodId && row.dayOfWeek == e.dayOfWeek
    && row.className == e.className && row.subject == e.subject && Some(row.weekType) == e.weekType
  }

  /** Some row from index `from` on was created for `e`. */
  predicate HasRowFor(rows: seq<TimetableEntry>, from: int, teacherIds: map<string, Id>, periodIds: map<int, Id>, e: ImportEntry)
    requires Resolved(teacherIds, periodIds, e).Some?
  {
    exists k :: from <= k < |rows| && 0 <= k && CreatedFor(rows[k], Resolved(teacherIds, periodIds, e).value.0, Resolved(teacherIds, periodIds, e).value.1, e)
  }

  /** The entries loop only appends to the table, and each appended row has
      a fresh id. */
  lemma {:induction false} PutEntriesAppends(tx: Tx, teacherIds: map<string, Id>, periodIds: map<int, Id>, es: seq<ImportEntry>)
    requires PutEntries(tx, teacherIds, periodIds, es).Some?
    ensures var t := PutEntries(tx, teacherIds, periodIds, es).value.0;
      && |tx.entries| <= |t.entries| && t.entries[..|tx.entries|] == tx.entries
      && t.teachers == tx.teachers && t.periods == tx.periods && Grows(tx, t)
      && (forall k :: |tx.entries| <= k < |t.entries| ==> t.entries[k].id >= tx.nextId)
  {
    if es != [] {
      PutEntriesAppends(tx, teacherIds, periodIds, es[..|es| - 1]);
    }
  }

  /** The count is the number of entries that resolve, and it is the number
      of rows created: an entry that does not resolve is skipped and not
      counted. */
  lemma {:induction false} PutEntriesCounts(tx: Tx, teacherIds: map<string, Id>, periodIds: map<int, Id>, es: seq<ImportEntry>)
    requires PutEntries(tx, teacherIds, periodIds, es).Some?
    ensures var (t, n) := PutEntries(tx, teacherIds, periodIds, es).value;
      && n == Count(es, (e: ImportEntry) => Resolved(teacherIds, periodIds, e).Some?)
      && |t.entries| == |tx.entries| + n
  {
    if es != [] {
      var init := es[..|es| - 1];
      PutEntriesCounts(tx, teacherIds, periodIds, init);
      var (t, n) := PutEntries(tx, teacherIds, periodIds, init).value;
      assert |t.entries| == |tx.entries| + n;
    }
  }

  /** Every entry that resolves has its row among the rows created. */
  lemma {:induction false} PutEntriesCovers(tx: Tx, teacherIds: map<string, Id>, periodIds: map<int, Id>, es: seq<ImportEntry>, i: int)
    requires PutEntries(tx, teacherIds, periodIds, es).Some?
    requires 0 <= i < |es| && Resolved(teacherIds, periodIds, es[i]).Some?
    ensures HasRowFor(PutEntries(tx, teacherIds, periodIds, es).value.0.entries, |tx.entries|, teacherIds, periodIds, es[i])
  {
    var init := es[..|es| - 1];
    var t := PutEntries(tx, teacherIds, periodIds, init).value.0;
    var t' := PutEntries(tx, teacherIds, periodIds, es).value.0;
    PutEntriesAppends(tx, teacherIds, periodIds, init);
    var ids := Resolved(teacherIds, periodIds, es[i]).value;
    if i < |init| {
      assert init[i] == es[i];
      PutEntriesCovers(tx, teacherIds, periodIds, init, i);
      var k :| |tx.entries| <= k < |t.entries| && CreatedFor(t.entries[k], ids.0, ids.1, es[i]);
      assert t'.entries[k] == t.entries[k];
    } else {
      assert CreatedFor(t'.entries[|t'.entries| - 1], ids.0, ids.1, es[i]);
    }
  }

  /** In merge mode an entry that was stored before survives exactly when
      its teacher is not one of the imported teachers. */
  lemma MergeKeepsOtherEntries(tx: Tx, teachers: seq<ImportTeacher>, periods: seq<ImportPeriod>, entries: seq<ImportEntry>, e: TimetableEntry)
    requires TxValid(tx) && Transaction(Merge, tx, teachers, periods, entries).Some?
    requires e in tx.entries
    ensures var done := Transaction(Merge, tx, teachers, periods, entries).value;
      e in done.tx.entries <==> e.teacherId !in done.teacherIds.Values
  {
    var done := Transaction(Merge, tx, teachers, periods, entries).value;
    PutPeriodsValid(Merge, tx, periods);
    var (t1, periodIds) := PutPeriods(Merge, tx, periods).value;
    PutTeachersValid(Merge, t1, UniqueNames(teachers));
    var t2 := PutTeachers(Merge, t1, UniqueNames(teachers)).0;
    var t3 := DropImported(Merge, t2, done.teacherIds);
    DropImportedValid(Merge, t2, done.teacherIds);
    PutEntriesAppends(t3, done.teacherIds, periodIds, entries);
    assert e.id < tx.nextId;
    if e in done.tx.entries {
      var k :| 0 <= k < |done.tx.entries| && done.tx.entries[k] == e;
      assert k < |t3.entries|;
      assert e in t3.entries;
    } else {
      assert e !in t3.entries;
    }
  }

  // What the import promises about teachers.

  function TeacherName(t: Teacher): string { t.name }

  /** The teachers loop keeps the stored teachers and only appends new
      REGULAR teachers under fresh ids, each with one of the imported names. */
  lemma {:induction false} PutTeachersAppends(mode: Mode, tx: Tx, names: seq<string>)
    ensures var t := PutTeachers(mode, tx, names).0;
      && |tx.teachers| <= |t.teachers| && t.teachers[..|tx.teachers|] == tx.teachers && Grows(tx, t)
      && t.periods == tx.periods && t.entries == tx.entries
      && (forall k :: |tx.teachers| <= k < |t.teachers| ==>
            t.teachers[k].kind == Regular && t.teachers[k].id >= tx.nextId && t.teachers[k].name in names)
  {
    if names != [] {
      var init := names[..|names| - 1];
      PutTeachersAppends(mode, tx, init);
      var t := PutTeachers(mode, tx, init).0;
      var t' := PutTeachers(mode, tx, names).0;
      assert t'.teachers[..|t.teachers|] == t.teachers;
      forall k | |tx.teachers| <= k < |t'.teachers|
        ensures t'.teachers[k].kind == Regular && t'.teachers[k].id >= tx.nextId && t'.teachers[k].name in names
      {
        if k < |t.teachers| {
          assert t'.teachers[k] == t.teachers[k] && t.teachers[k].name in init;
        }
      }
    }
  }

  /** `name` is recorded with the id of a stored teacher of that name. */
  predicate RecordedAs(teachers: seq<Teacher>, name: string, id: Id)
  {
    exists k :: 0 <= k < |teachers| && teachers[k].name == name && teachers[k].id == id
  }

  /** Starting from teachers with distinct names (none at all in replace
      mode) and given each name once, the loop leaves teachers with distinct
      names: together with `PutTeachersRecords`, exactly one teacher per
      imported name. */
  lemma {:induction false} PutTeachersUnique(mode: Mode, tx: Tx, names: seq<string>)
    requires UniqueKeys(names, Itself) && UniqueKeys(tx.teachers, TeacherName)
    requires mode == Replace ==> tx.teachers == []
    ensures UniqueKeys(PutTeachers(mode, tx, names).0.teachers, TeacherName)
  {
    if names != [] {
      var init := names[..|names| - 1];
      var x := names[|names| - 1];
      assert UniqueKeys(init, Itself);
      PutTeachersUnique(mode, tx, init);
      var t := PutTeachers(mode, tx, init).0;
      if mode == Replace {
        PutTeachersAppends(mode, tx, init);
        forall k | 0 <= k < |t.teachers|
          ensures TeacherName(t.teachers[k]) != x
        {
          var j :| 0 <= j < |init| && init[j] == t.teachers[k].name;
          assert Itself(names[j]) != Itself(names[|names| - 1]);
        }
        UniqueKeysSnoc(t.teachers, Teacher(t.nextId, x, Regular), TeacherName);
      } else if NamedFirst(t.teachers, x).None? {
        UniqueKeysSnoc(t.teachers, Teacher(t.nextId, x, Regular), TeacherName);
      }
    }
  }

  /** Given each name once, every imported name is recorded with the id of a
      stored teacher of that name; in merge mode that is the first existing
      teacher with the name, when there is one. */
  lemma {:induction false} PutTeachersRecords(mode: Mode, tx: Tx, names: seq<string>, i: int)
    requires UniqueKeys(names, Itself) && 0 <= i < |names|
    ensures var (t, ids) := PutTeachers(mode, tx, names);
      names[i] in ids && RecordedAs(t.teachers, names[i], ids[names[i]])
    ensures mode == Merge && NamedFirst(tx.teachers, names[i]).Some? ==>
      PutTeachers(mode, tx, names).1[names[i]] == NamedFirst(tx.teachers, names[i]).value.id
    decreases |names|, 1
  {
    if i < |names| - 1 {
      EarlierRecorded(mode, tx, names, i);
    } else {
      LastRecorded(mode, tx, names);
    }
  }

  /** The name of the last turn is recorded with the id that turn found or
      created. */
  lemma LastRecorded(mode: Mode, tx: Tx, names: seq<string>)
    requires names != []
    ensures var (t, ids) := PutTeachers(mode, tx, names);
      var x := names[|names| - 1];
      x in ids && RecordedAs(t.teachers, x, ids[x])
      && (mode == Merge && NamedFirst(tx.teachers, x).Some? ==> ids[x] == NamedFirst(tx.teachers, x).value.id)
  {
    var init := names[..|names| - 1];
    var x := names[|names| - 1];
    var (t, ids) := PutTeachers(mode, tx, init);
    PutTeacherRecords(mode, t, x);
    if mode == Merge && NamedFirst(tx.teachers, x).Some? {
      PutTeachersAppends(mode, tx, init);
      FirstOfPrefix(tx.teachers, t.teachers, x);
    }
  }

  /** A name recorded before the last turn keeps its id and its teacher. */
  lemma {:induction false} EarlierRecorded(mode: Mode, tx: Tx, names: seq<string>, i: int)
    requires UniqueKeys(names, Itself) && 0 <= i < |names| - 1
    ensures var (t, ids) := PutTeachers(mode, tx, names);
      names[i] in ids && RecordedAs(t.teachers, names[i], ids[names[i]])
    ensures mode == Merge && NamedFirst(tx.teachers, names[i]).Some? ==>
      PutTeachers(mode, tx, names).1[names[i]] == NamedFirst(tx.teachers, names[i]).value.id
    decreases |names|, 0
  {
    var init := names[..|names| - 1];
    var x := names[|names| - 1];
    var (t, ids) := PutTeachers(mode, tx, init);
    var (t', ids') := PutTeachers(mode, tx, names);
    PutTeacherRecords(mode, t, x);
    assert UniqueKeys(init, Itself);
    assert names[i] == init[i];
    assert Itself(names[i]) != Itself(x);
    PutTeachersRecords(mode, tx, init, i);
    assert ids'[names[i]] == ids[names[i]];
    var k :| 0 <= k < |t.teachers| && t.teachers[k].name == names[i] && t.teachers[k].id == ids[names[i]];
    assert t'.teachers[k] == t.teachers[k];
  }

  /** One turn of the teachers loop keeps the table as a prefix and records
      the name with the id of a teacher of that name. */
  lemma PutTeacherRecords(mode: Mode, t: Tx, x: string)
    ensures var (t', id) := PutTeacher(mode, t, x);
      && |t.teachers| <= |t'.teachers| && t'.teachers[..|t.teachers|] == t.teachers
      && RecordedAs(t'.teachers, x, id)
      && (mode == Merge && NamedFirst(t.teachers, x).Some? ==> id == NamedFirst(t.teachers, x).value.id)
  {
    var (t', id) := PutTeacher(mode, t, x);
    if mode == Replace || NamedFirst(t.teachers, x).None? {
      assert t'.teachers[|t.teachers|].name == x;
    } else {
      var f := NamedFirst(t.teachers, x).value;
      var k :| 0 <= k < |t.teachers| && t.teachers[k] == f;
      assert t'.teachers[..|t.teachers|] == t.teachers;
    }
  }

  /** The first teacher with a name is the same in a longer table that
      starts with the same teachers. */
  lemma FirstOfPrefix(a: seq<Teacher>, b: seq<Teacher>, name: string)
    requires |a| <= |b| && b[..|a|] == a && NamedFirst(a, name).Some?
    ensures NamedFirst(b, name) == NamedFirst(a, name)
  {
    FirstPrefix(a, b, (t: Teacher) => t.name == name);
  }

  // What the import promises about periods.

  function ImportNumber(p: ImportPeriod): int { p.number }

  /** The stored period with id `id` is `p`'s number and times. */
  predicate StoredAs(periods: seq<Period>, id: Id, p: ImportPeriod)
  {
    exists k :: 0 <= k < |periods| && periods[k] == Period(id, p.number, p.startTime, p.endTime)
  }

  /** In replace mode, from an empty table, the periods are created in the
      file's order under fresh ids. */
  lemma {:induction false} ReplacePeriodsCreated(tx: Tx, ps: seq<ImportPeriod>)
    requires tx.periods == [] && PutPeriods(Replace, tx, ps).Some?
    ensures var (t, ids) := PutPeriods(Replace, tx, ps).value;
      && |t.periods| == |ps|
      && forall i :: 0 <= i < |ps| ==>
           && t.periods[i].number == ps[i].number && t.periods[i].startTime == ps[i].startTime
           && t.periods[i].endTime == ps[i].endTime && t.periods[i].id >= tx.nextId
  {
    if ps != [] {
      ReplacePeriodsCreated(tx, ps[..|ps| - 1]);
      PutPeriodsGrows(Replace, tx, ps[..|ps| - 1]);
    }
  }

  /** In replace mode, from an empty table, the periods loop throws exactly
      when the file lists a period number twice. */
  lemma ReplacePeriodsFail(tx: Tx, ps: seq<ImportPeriod>)
    requires tx.periods == []
    ensures PutPeriods(Replace, tx, ps).Some? <==> UniqueKeys(ps, ImportNumber)
  {
    if UniqueKeys(ps, ImportNumber) {
      ReplacePeriodsUnique(tx, ps);
    } else {
      ReplacePeriodsRepeat(tx, ps);
    }
  }

  lemma {:induction false} ReplacePeriodsUnique(tx: Tx, ps: seq<ImportPeriod>)
    requires tx.periods == [] && UniqueKeys(ps, ImportNumber)
    ensures PutPeriods(Replace, tx, ps).Some?
  {
    if ps != [] {
      var init := ps[..|ps| - 1];
      var x := ps[|ps| - 1];
      assert UniqueKeys(init, ImportNumber);
      ReplacePeriodsUnique(tx, init);
      ReplacePeriodsCreated(tx, init);
      var t := PutPeriods(Replace, tx, init).value.0;
      forall k | 0 <= k < |t.periods|
        ensures t.periods[k].number != x.number
      {
        assert ImportNumber(ps[k]) != ImportNumber(ps[|ps| - 1]);
      }
    }
  }

  lemma {:induction false} ReplacePeriodsRepeat(tx: Tx, ps: seq<ImportPeriod>)
    requires tx.periods == [] && !UniqueKeys(ps, ImportNumber)
    ensures PutPeriods(Replace, tx, ps).None?
  {
    var i, j :| 0 <= i < j < |ps| && ImportNumber(ps[i]) == ImportNumber(ps[j]);
    var init := ps[..|ps| - 1];
    if !UniqueKeys(init, ImportNumber) {
      ReplacePeriodsRepeat(tx, init);
    } else if PutPeriods(Replace, tx, init).Some? {
      if j < |init| {
        assert false;
      } else {
        ReplacePeriodsCreated(tx, init);
        var t := PutPeriods(Replace, tx, init).value.0;
        assert t.periods[i].number == ps[|ps| - 1].number;
      }
    }
  }

  lemma {:induction false} PutPeriodsGrows(mode: Mode, tx: Tx, ps: seq<ImportPeriod>)
    requires PutPeriods(mode, tx, ps).Some?
    ensures Grows(tx, PutPeriods(mode, tx, ps).value.0)
    ensures PutPeriods(mode, tx, ps).value.0.teachers == tx.teachers
    ensures PutPeriods(mode, tx, ps).value.0.entries == tx.entries
  {
    if ps != [] {
      PutPeriodsGrows(mode, tx, ps[..|ps| - 1]);
    }
  }

  /** In merge mode the periods loop never throws: every period is upserted. */
  lemma {:induction false} MergePeriodsSucceed(tx: Tx, ps: seq<ImportPeriod>)
    ensures PutPeriods(Merge, tx, ps).Some?
  {
    if ps != [] {
      MergePeriodsSucceed(tx, ps[..|ps| - 1]);
    }
  }

  /** In merge mode the stored periods keep their places, ids and numbers,
      and one whose number is not imported is unchanged: a period with an
      imported number is updated, not duplicated. */
  lemma {:induction false} MergePeriodsInPlace(tx: Tx, ps: seq<ImportPeriod>)
    requires PutPeriods(Merge, tx, ps).Some?
    ensures var (t, ids) := PutPeriods(Merge, tx, ps).value;
      && |tx.periods| <= |t.periods|
      && forall k :: 0 <= k < |tx.periods| ==>
           && t.periods[k].id == tx.periods[k].id && t.periods[k].number == tx.periods[k].number
           && (tx.periods[k].number !in ids ==> t.periods[k] == tx.periods[k])
  {
    if ps != [] {
      MergePeriodsSucceed(tx, ps[..|ps| - 1]);
      MergePeriodsInPlace(tx, ps[..|ps| - 1]);
    }
  }

  /** In merge mode the last period of the file with a number is stored,
      under the id recorded for that number, with its times. */
  lemma {:induction false} MergePeriodsLatest(tx: Tx, ps: seq<ImportPeriod>, i: int)
    requires PutPeriods(Merge, tx, ps).Some?
    requires 0 <= i < |ps| && forall j :: i < j < |ps| ==> ImportNumber(ps[j]) != ImportNumber(ps[i])
    ensures var (t, ids) := PutPeriods(Merge, tx, ps).value;
      ps[i].number in ids && StoredAs(t.periods, ids[ps[i].number], ps[i])
  {
    var init := ps[..|ps| - 1];
    var x := ps[|ps| - 1];
    MergePeriodsSucceed(tx, init);
    var (t, ids) := PutPeriods(Merge, tx, init).value;
    var (t', ids') := PutPeriods(Merge, tx, ps).value;
    var at := NumberedAt(t.periods, x.number);
    if i < |init| {
      assert init[i] == ps[i] && ImportNumber(x) != ImportNumber(ps[i]);
      forall j | i < j < |init|
        ensures ImportNumber(init[j]) != ImportNumber(init[i])
      {
        assert init[j] == ps[j];
      }
      MergePeriodsLatest(tx, init, i);
      var k :| 0 <= k < |t.periods| && t.periods[k] == Period(ids[ps[i].number], ps[i].number, ps[i].startTime, ps[i].endTime);
      assert t'.periods[k] == t.periods[k];
    } else if at.Some? {
      assert t'.periods[at.value] == Period(ids'[x.number], x.number, x.startTime, x.endTime);
    } else {
      assert t'.periods[|t.periods|] == Period(ids'[x.number], x.number, x.startTime, x.endTime);
    }
  }

  /** Every teacher, period and entry of `t` was created after `n`. */
  predicate CreatedSince(t: Tx, n: nat)
  {
    && (forall k :: 0 <= k < |t.teachers| ==> t.teachers[k].id >= n)
    && (forall k :: 0 <= k < |t.periods| ==> t.periods[k].id >= n)
    && (forall k :: 0 <= k < |t.entries| ==> t.entries[k].id >= n)
  }

  /** Replace mode keeps nothing of the old store: no sick reports, no
      relief assignments, and every teacher, period and entry is new. */
  lemma ReplaceStartsAfresh(tx: Tx, teachers: seq<ImportTeacher>, periods: seq<ImportPeriod>, entries: seq<ImportEntry>)
    requires Transaction(Replace, tx, teachers, periods, entries).Some?
    ensures var done := Transaction(Replace, tx, teachers, periods, entries).value;
      && done.tx.sickReports == [] && done.tx.assignments == []
      && CreatedSince(done.tx, tx.nextId)
  {
    var done := Transaction(Replace, tx, teachers, periods, entries).value;
    var t0 := Cleared(tx);
    PutPeriodsGrows(Replace, t0, periods);
    ReplacePeriodsCreated(t0, periods);
    var (t1, periodIds) := PutPeriods(Replace, t0, periods).value;
    PutTeachersAppends(Replace, t1, UniqueNames(teachers));
    var t2 := PutTeachers(Replace, t1, UniqueNames(teachers)).0;
    PutEntriesAppends(t2, done.teacherIds, periodIds, entries);
  }

  /** The number of distinct names of a sequence without repeats. */
  lemma {:induction false} DistinctCount(s: seq<string>)
    requires UniqueKeys(s, Itself)
    ensures |set x | x in s| == |s|
  {
    if s != [] {
      var init := s[..|s| - 1];
      assert UniqueKeys(init, Itself);
      DistinctCount(init);
      assert (set x | x in s) == (set x | x in init) + {s[|s| - 1]};
      forall i | 0 <= i < |init|
        ensures init[i] != s[|s| - 1]
      {
        assert Itself(s[i]) != Itself(s[|s| - 1]);
      }
    }
  }

  /** The reported teacher count is the number of distinct imported names. */
  lemma TeacherCountIsDistinctNames(ts: seq<ImportTeacher>)
    ensures |UniqueNames(ts)| == |set t | t in ts :: t.name|
  {
    var names := UniqueNames(ts);
    DistinctCount(names);
    var all := TeacherNames(ts);
    assert Keys(names, Itself) == Keys(all, Itself);
    assert (set x | x in names) == Keys(names, Itself);
    assert (set t | t in ts :: t.name) == Keys(all, Itself) by {
      forall n | n in Keys(all, Itself)
        ensures n in (set t | t in ts :: t.name)
      {
        var i :| 0 <= i < |all| && all[i] == n;
        assert ts[i] in ts;
      }
      forall t | t in ts
        ensures t.name in Keys(all, Itself)
      {
        var i :| 0 <= i < |ts| && ts[i] == t;
        assert all[i] in all && Itself(all[i]) == t.name;
      }
    }
  }
}
