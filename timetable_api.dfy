/** `GET /api/timetable` (one teacher's entries, optionally of one week type,
    by period number) and `POST /api/timetable` (validated, trimmed upsert on
    teacher, weekday, period and week type). */
module TimetableApi {
  import opened Common
  import opened Domain
  import opened Sorting
  import opened JsString
  import opened Store
  import opened Timetable

  /** The entries of `teacherId`, with only those of week type `weekType`
      when one is given: ALL entries are not added to an ODD or EVEN query. */
  predicate Selected(e: TimetableEntry, teacherId: Id, weekType: Option<WeekType>)
  {
    e.teacherId == teacherId && (weekType.Some? ==> e.weekType == weekType.value)
  }

  /** Every listed entry is a selected entry, shown with its own period. */
  predicate OnlySelected(r: seq<Listed>, entries: seq<TimetableEntry>, periods: seq<Period>, teacherId: Id, filter: Option<WeekType>)
  {
    forall i :: 0 <= i < |r| ==>
      && r[i].entry in entries && Selected(r[i].entry, teacherId, filter)
      && PeriodWithId(periods, r[i].entry.periodId) == Some(r[i].period)
  }

  /** Every selected entry whose period is stored is listed. */
  predicate AllSelected(r: seq<Listed>, entries: seq<TimetableEntry>, periods: seq<Period>, teacherId: Id, filter: Option<WeekType>)
  {
    forall i :: 0 <= i < |entries| && Selected(entries[i], teacherId, filter) && PeriodWithId(periods, entries[i].periodId).Some? ==>
      Listed(entries[i], PeriodWithId(periods, entries[i].periodId).value) in r
  }

  /** The selected entries joined with their periods, in table order. */
  function Joined(entries: seq<TimetableEntry>, periods: seq<Period>, teacherId: Id, filter: Option<WeekType>): (r: seq<Listed>)
    ensures OnlySelected(r, entries, periods, teacherId, filter)
    ensures AllSelected(r, entries, periods, teacherId, filter)
    ensures Distinct(entries) ==> Distinct(r)
  {
    var chosen := Filter(entries, (e: TimetableEntry) => Selected(e, teacherId, filter));
    JoinedSelected(entries, periods, teacherId, filter, chosen);
    assert Distinct(entries) ==> Distinct(WithPeriods(chosen, periods)) by {
      if Distinct(entries) {
        DistinctSub(entries, chosen);
        WithPeriodsDistinct(chosen, periods);
      }
    }
    WithPeriods(chosen, periods)
  }

  /** Joining exactly the selected entries with their periods lists each of
      them that has a stored period, and nothing else. */
  lemma JoinedSelected(entries: seq<TimetableEntry>, periods: seq<Period>, teacherId: Id, filter: Option<WeekType>, chosen: seq<TimetableEntry>)
    requires forall k :: 0 <= k < |chosen| ==> chosen[k] in entries && Selected(chosen[k], teacherId, filter)
    requires forall i :: 0 <= i < |entries| && Selected(entries[i], teacherId, filter) ==> entries[i] in chosen
    ensures OnlySelected(WithPeriods(chosen, periods), entries, periods, teacherId, filter)
    ensures AllSelected(WithPeriods(chosen, periods), entries, periods, teacherId, filter)
  {
    var joined := WithPeriods(chosen, periods);
    forall i | 0 <= i < |joined|
      ensures joined[i].entry in entries && Selected(joined[i].entry, teacherId, filter)
    {
      var k :| 0 <= k < |chosen| && chosen[k] == joined[i].entry;
    }
    forall i | 0 <= i < |entries| && Selected(entries[i], teacherId, filter) && PeriodWithId(periods, entries[i].periodId).Some?
      ensures Listed(entries[i], PeriodWithId(periods, entries[i].periodId).value) in joined
    {
      var k :| 0 <= k < |chosen| && chosen[k] == entries[i];
    }
  }

  /** Listing the same members keeps both properties. */
  lemma SameListing(a: seq<Listed>, b: seq<Listed>, entries: seq<TimetableEntry>, periods: seq<Period>, teacherId: Id, filter: Option<WeekType>)
    requires multiset(a) == multiset(b)
    requires OnlySelected(a, entries, periods, teacherId, filter) && AllSelected(a, entries, periods, teacherId, filter)
    ensures OnlySelected(b, entries, periods, teacherId, filter) && AllSelected(b, entries, periods, teacherId, filter)
  {
    SameMembers(a, b);
    forall i | 0 <= i < |b|
      ensures b[i].entry in entries && Selected(b[i].entry, teacherId, filter) && PeriodWithId(periods, b[i].entry.periodId) == Some(b[i].period)
    {
      assert b[i] in a;
    }
  }

  /** The query of a `GET` with a teacher id: the selected entries with
      their periods, by period number ascending. */
  function Query(entries: seq<TimetableEntry>, periods: seq<Period>, teacherId: Id, filter: Option<WeekType>): (r: seq<Listed>)
    ensures Sorted(r, ByPeriodNumber)
    ensures OnlySelected(r, entries, periods, teacherId, filter)
    ensures AllSelected(r, entries, periods, teacherId, filter)
    ensures multiset(r) == multiset(Joined(entries, periods, teacherId, filter))
    ensures Distinct(entries) ==> Distinct(r)
  {
    var joined := Joined(entries, periods, teacherId, filter);
    ByPeriodNumberIsPreorder();
    var sorted := SortBy(joined, ByPeriodNumber);
    SameListing(joined, sorted, entries, periods, teacherId, filter);
    assert Distinct(joined) ==> Distinct(sorted) by {
      if Distinct(joined) {
        DistinctSub(joined, sorted);
      }
    }
    sorted
  }

  /** `GET`: 400 without a teacher id, 500 for a week type the database does
      not know, otherwise 200 and the query's result. */
  function Get(entries: seq<TimetableEntry>, periods: seq<Period>, teacherId: Option<Id>, weekType: WeekTypeField): (r: (int, seq<Listed>))
    ensures r.0 == 400 <==> teacherId.None?
    ensures r.0 == 500 <==> teacherId.Some? && weekType.Unknown?
    ensures r.0 in {200, 400, 500}
    ensures r.0 != 200 ==> r.1 == []
    ensures r.0 == 200 ==>
      var filter := if weekType.Given? then Some(weekType.weekType) else None;
      && Sorted(r.1, ByPeriodNumber)
      && OnlySelected(r.1, entries, periods, teacherId.value, filter)
      && AllSelected(r.1, entries, periods, teacherId.value, filter)
      && multiset(r.1) == multiset(Joined(entries, periods, teacherId.value, filter))
      && (Distinct(entries) ==> Distinct(r.1))
  {
    if teacherId.None? then (400, [])
    else if weekType.Unknown? then (500, [])
    else (200, Query(entries, periods, teacherId.value, if weekType.Given? then Some(weekType.weekType) else None))
  }

  /** The body of a `POST`; `None` stands for a missing or empty value. */
  datatype EntryRequest = EntryRequest(
    teacherId: Option<Id>, dayOfWeek: Option<int>, periodId: Option<Id>,
    className: Option<string>, subject: Option<string>, weekType: WeekTypeField)

  /** `!x?.trim()`: missing, or white space only. */
  predicate BlankText(s: Option<string>)
  {
    s.None? || Trim(s.value) == []
  }

  /** `!teacherId || !dayOfWeek || !periodId || !className?.trim() || !subject?.trim()`:
      a weekday of 0 is falsy too. */
  predicate RejectedEntry(req: EntryRequest)
  {
    || req.teacherId.None? || req.dayOfWeek.None? || req.dayOfWeek == Some(0) || req.periodId.None?
    || BlankText(req.className) || BlankText(req.subject)
  }

  /** `weekType || "ALL"`. */
  function WeekTypeOrAll(f: WeekTypeField): (w: WeekType)
    requires !f.Unknown?
    ensures f.Absent? ==> w == All
    ensures f.Given? ==> w == f.weekType
  {
    if f.Given? then f.weekType else All
  }

  /** `POST`: 400 for a rejected request and 500 for an unknown week type,
      both leaving the table as it was; otherwise 201 and the table upserted
      on the 4-tuple with the trimmed class and subject. */
  method Post(db: Database, req: EntryRequest) returns (status: int, saved: Option<TimetableEntry>)
    requires db.Valid()
    modifies db
    ensures db.Valid()
    ensures db.teachers == old(db.teachers) && db.periods == old(db.periods)
    ensures db.sickReports == old(db.sickReports) && db.assignments == old(db.assignments)
    ensures status == 400 <==> RejectedEntry(req)
    ensures status == 500 <==> !RejectedEntry(req) && req.weekType.Unknown?
    ensures status in {201, 400, 500}
    ensures status != 201 ==> saved == None && db.entries == old(db.entries)
    ensures status == 201 ==>
      && db.entries == UpsertEntry(old(db.entries), req.teacherId.value, req.dayOfWeek.value, req.periodId.value,
                                   WeekTypeOrAll(req.weekType), true, Trim(req.className.value), Trim(req.subject.value), old(db.nextId))
      && saved.Some? && saved.value in db.entries
      && SlotKey(saved.value) == (req.teacherId.value, req.dayOfWeek.value, req.periodId.value, WeekTypeOrAll(req.weekType))
      && saved.value.className == Trim(req.className.value) && saved.value.subject == Trim(req.subject.value)
  {
    if RejectedEntry(req) {
      return 400, None;
    }
    if req.weekType.Unknown? {
      return 500, None;
    }
    var teacherId, dayOfWeek, periodId := req.teacherId.value, req.dayOfWeek.value, req.periodId.value;
    var weekType := WeekTypeOrAll(req.weekType);
    var className, subject := Trim(req.className.value), Trim(req.subject.value);
    var before := db.entries;
    var k := FindIndex(before, (e: TimetableEntry) => Matches(e, teacherId, dayOfWeek, periodId, weekType, true));
    Upsert(db, teacherId, dayOfWeek, periodId, weekType, true, className, subject);
    if k.Some? {
      saved := Some(db.entries[k.value]);
    } else {
      saved := Some(db.entries[|before|]);
    }
    status := 201;
  }
}
