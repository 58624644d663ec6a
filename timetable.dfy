/** The timetable table as the two writers and the reader use it: entries
    listed with their period and ordered by period number, and the upsert
    that either rewrites the class and subject of the entry under a key or
    adds one new entry. */
module Timetable {
  import opened Common
  import opened Domain
  import opened Sorting
  import opened Store

  /** A timetable entry together with its period (`include: { period: true }`). */
  datatype Listed = Listed(entry: TimetableEntry, period: Period)

  /** The entries joined with their periods, in table order; an entry whose
      period is not stored has nothing to join with. */
  function WithPeriods(entries: seq<TimetableEntry>, periods: seq<Period>): (r: seq<Listed>)
    ensures |r| <= |entries|
    ensures forall i :: 0 <= i < |r| ==> r[i].entry in entries && PeriodWithId(periods, r[i].entry.periodId) == Some(r[i].period)
    ensures forall i :: 0 <= i < |entries| && PeriodWithId(periods, entries[i].periodId).Some? ==>
      Listed(entries[i], PeriodWithId(periods, entries[i].periodId).value) in r
  {
    if entries == [] then []
    else
      var init := entries[..|entries| - 1];
      var last := entries[|entries| - 1];
      var rest := WithPeriods(init, periods);
      assert entries == init + [last];
      match PeriodWithId(periods, last.periodId)
      case None => rest
      case Some(p) => rest + [Listed(last, p)]
  }

  /** Distinct entries are listed once each. */
  lemma {:induction false} WithPeriodsDistinct(entries: seq<TimetableEntry>, periods: seq<Period>)
    requires Distinct(entries)
    ensures Distinct(WithPeriods(entries, periods))
  {
    if entries != [] {
      var init := entries[..|entries| - 1];
      var last := entries[|entries| - 1];
      assert entries == init + [last];
      DistinctSub(entries, init);
      WithPeriodsDistinct(init, periods);
      var rest := WithPeriods(init, periods);
      if PeriodWithId(periods, last.periodId).Some? {
        var x := Listed(last, PeriodWithId(periods, last.periodId).value);
        forall i | 0 <= i < |rest| ensures rest[i] != x {
          var k :| 0 <= k < |init| && init[k] == rest[i].entry;
          assert init[k] == entries[k];
        }
        DistinctSnoc(rest, x);
      }
    }
  }

  function ListedNumber(x: Listed): int { x.period.number }

  /** `orderBy: { period: { number: "asc" } }`. */
  predicate ByPeriodNumber(a: Listed, b: Listed)
  {
    ListedNumber(a) <= ListedNumber(b)
  }

  lemma ByPeriodNumberIsPreorder()
    ensures TotalPreorder(ByPeriodNumber)
  {
    IntKeyOrder(ByPeriodNumber, ListedNumber);
  }

  /** The unique key an upsert looks an entry up by: teacher, weekday and
      period, and the week type too when `byWeekType` holds. */
  predicate Matches(e: TimetableEntry, teacherId: Id, dayOfWeek: int, periodId: Id, weekType: WeekType, byWeekType: bool)
  {
    && e.teacherId == teacherId && e.dayOfWeek == dayOfWeek && e.periodId == periodId
    && (byWeekType ==> e.weekType == weekType)
  }

  /** Prisma's `upsert`: the first entry matching the key gets the new class
      and subject; when none matches, one entry with id `freshId` and the
      week type `weekType` is added. */
  function UpsertEntry(entries: seq<TimetableEntry>, teacherId: Id, dayOfWeek: int, periodId: Id, weekType: WeekType,
                       byWeekType: bool, className: string, subject: string, freshId: Id): (r: seq<TimetableEntry>)
    ensures |r| == |entries| || |r| == |entries| + 1
    ensures |r| == |entries| <==> exists i :: 0 <= i < |entries| && Matches(entries[i], teacherId, dayOfWeek, periodId, weekType, byWeekType)
    // the entry the request describes is there afterwards
    ensures exists i :: (0 <= i < |r| && Matches(r[i], teacherId, dayOfWeek, periodId, weekType, byWeekType)
      && r[i].className == className && r[i].subject == subject)
    // an update keeps every id and key and changes at most one entry
    ensures |r| == |entries| ==> forall i :: 0 <= i < |r| ==> r[i].id == entries[i].id && SlotKey(r[i]) == SlotKey(entries[i])
    ensures |r| == |entries| ==> forall i, j :: 0 <= i < j < |r| ==> r[i] == entries[i] || r[j] == entries[j]
    // an insert appends a single new entry with every field of the request
    ensures |r| == |entries| + 1 ==>
      && r[..|entries|] == entries
      && r[|entries|] == TimetableEntry(freshId, teacherId, dayOfWeek, periodId, className, subject, weekType)
    // entries under other keys are untouched
    ensures forall i :: 0 <= i < |entries| && !Matches(entries[i], teacherId, dayOfWeek, periodId, weekType, byWeekType) ==> r[i] == entries[i]
  {
    match FindIndex(entries, (e: TimetableEntry) => Matches(e, teacherId, dayOfWeek, periodId, weekType, byWeekType))
    case Some(k) =>
      var r := entries[k := entries[k].(className := className, subject := subject)];
      assert Matches(r[k], teacherId, dayOfWeek, periodId, weekType, byWeekType);
      r
    case None =>
      var r := entries + [TimetableEntry(freshId, teacherId, dayOfWeek, periodId, className, subject, weekType)];
      assert Matches(r[|entries|], teacherId, dayOfWeek, periodId, weekType, byWeekType);
      r
  }

  /** Either upsert keeps the timetable 4-tuple unique: an update changes no
      key, and an insert happens only when no entry has the new entry's key. */
  lemma UpsertKeepsSlotKeysUnique(entries: seq<TimetableEntry>, teacherId: Id, dayOfWeek: int, periodId: Id, weekType: WeekType,
                                  byWeekType: bool, className: string, subject: string, freshId: Id)
    requires UniqueKeys(entries, SlotKey)
    ensures UniqueKeys(UpsertEntry(entries, teacherId, dayOfWeek, periodId, weekType, byWeekType, className, subject, freshId), SlotKey)
  {
    var r := UpsertEntry(entries, teacherId, dayOfWeek, periodId, weekType, byWeekType, className, subject, freshId);
    if |r| == |entries| + 1 {
      forall i | 0 <= i < |entries| ensures SlotKey(r[i]) != SlotKey(r[|entries|]) {
        assert r[i] == entries[i];
        assert !Matches(entries[i], teacherId, dayOfWeek, periodId, weekType, byWeekType);
      }
    }
  }

  /** Either upsert keeps the ids unique and below the next counter: an
      update changes no id, and an insert adds the fresh one. */
  lemma UpsertKeepsIds(entries: seq<TimetableEntry>, teacherId: Id, dayOfWeek: int, periodId: Id, weekType: WeekType,
                       byWeekType: bool, className: string, subject: string, freshId: Id)
    requires UniqueKeys(entries, EntryKey) && KeysBelow(entries, EntryKey, freshId)
    ensures UniqueKeys(UpsertEntry(entries, teacherId, dayOfWeek, periodId, weekType, byWeekType, className, subject, freshId), EntryKey)
    ensures KeysBelow(UpsertEntry(entries, teacherId, dayOfWeek, periodId, weekType, byWeekType, className, subject, freshId), EntryKey, freshId + 1)
  {
    var r := UpsertEntry(entries, teacherId, dayOfWeek, periodId, weekType, byWeekType, className, subject, freshId);
    if |r| == |entries| + 1 {
      assert r == entries + [r[|entries|]];
      UniqueKeysSnoc(entries, r[|entries|], EntryKey);
    } else {
      forall i, j | 0 <= i < j < |r| ensures EntryKey(r[i]) != EntryKey(r[j]) {
        assert EntryKey(r[i]) == EntryKey(entries[i]) && EntryKey(r[j]) == EntryKey(entries[j]);
      }
    }
  }

  /** `prisma.timetableEntry.upsert`, on the database: the table becomes the
      upserted one, which keeps the 4-tuple unique. */
  method Upsert(db: Database, teacherId: Id, dayOfWeek: int, periodId: Id, weekType: WeekType,
                byWeekType: bool, className: string, subject: string)
    requires db.Valid()
    modifies db
    ensures db.Valid()
    ensures db.teachers == old(db.teachers) && db.periods == old(db.periods)
    ensures db.sickReports == old(db.sickReports) && db.assignments == old(db.assignments)
    ensures db.entries == UpsertEntry(old(db.entries), teacherId, dayOfWeek, periodId, weekType, byWeekType, className, subject, old(db.nextId))
  {
    var id := db.FreshId();
    var before := db.entries;
    UpsertKeepsSlotKeysUnique(before, teacherId, dayOfWeek, periodId, weekType, byWeekType, className, subject, id);
    UpsertKeepsIds(before, teacherId, dayOfWeek, periodId, weekType, byWeekType, className, subject, id);
    db.entries := UpsertEntry(before, teacherId, dayOfWeek, periodId, weekType, byWeekType, className, subject, id);
  }
}
