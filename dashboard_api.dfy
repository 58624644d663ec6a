/** `GET /api/dashboard?date=…&weekType=…`: for one school day, a card per
    teacher off sick with the periods they would have taught, each period
    with its cover (if any) and the teachers free to cover it. */
module DashboardApi {
  import opened Common
  import opened Domain
  import opened Sorting
  import opened WeekParity
  import opened Timetable
  import opened Coverage
  import opened Store

  /** One period of a sick teacher's card. */
  datatype Slot = Slot(
    timetableEntryId: Id, periodId: Id, periodNumber: int, periodStartTime: string, periodEndTime: string,
    className: string, subject: string, isCovered: bool,
    reliefTeacherName: Option<string>, assignmentId: Option<Id>, availableTeachers: seq<Teacher>)

  /** One sick teacher's card. */
  datatype Card = Card(teacherId: Id, teacherName: string, sickReportId: Id, periods: seq<Slot>)

  /** The reply: 400 without a date, 500 when a query is rejected (a date
      or a week type the database cannot take), the weekend notice, or the
      schedule of a school day. */
  datatype DashboardReply =
    | MissingDate
    | QueryFailed
    | Weekend
    | Schedule(weekType: WeekType, cards: seq<Card>, totalUncovered: nat, totalCovered: nat)

  /** `weekOverride || getWeekType(selectedDate)`. */
  function EffectiveWeek(d: Day, wt: WeekTypeField): (w: WeekType)
    requires !wt.Unknown?
    ensures wt.Given? ==> w == wt.weekType
    ensures wt.Absent? ==> w != All && (w == Odd <==> IsoWeekNumber(d) % 2 == 1)
  {
    WeekTypeIsParity(d);
    if wt.Given? then wt.weekType else WeekTypeOf(d)
  }

  function TeacherName(x: Teacher): string { x.name }

  /** `orderBy: { name: "asc" }`. */
  predicate ByName(a: Teacher, b: Teacher)
  {
    StrLe(TeacherName(a), TeacherName(b))
  }

  lemma ByNameIsPreorder()
    ensures TotalPreorder(ByName)
  {
    StrKeyOrder(ByName, TeacherName);
  }

  /** `allTeachers`: every teacher, by name. */
  function Roster(teachers: seq<Teacher>): (r: seq<Teacher>)
    ensures Sorted(r, ByName)
    ensures forall x :: x in r <==> x in teachers
    ensures multiset(r) == multiset(teachers)
  {
    ByNameIsPreorder();
    var r := SortBy(teachers, ByName);
    SameMembers(r, teachers);
    r
  }

  /** An entry of a sick teacher that applies on the day. */
  predicate SickEntry(e: TimetableEntry, sickIds: seq<Id>, dow: int, week: WeekType)
  {
    e.teacherId in sickIds && Applies(e, dow, week)
  }

  /** Every listed entry is a stored sick entry, shown with its own period. */
  predicate OnlySick(r: seq<Listed>, t: Tables, sickIds: seq<Id>, dow: int, week: WeekType)
  {
    forall i :: 0 <= i < |r| ==>
      (&& r[i].entry in t.entries && SickEntry(r[i].entry, sickIds, dow, week)
       && PeriodWithId(t.periods, r[i].entry.periodId) == Some(r[i].period))
  }

  /** Every stored sick entry whose period is stored is listed. */
  predicate AllSick(r: seq<Listed>, t: Tables, sickIds: seq<Id>, dow: int, week: WeekType)
  {
    forall i :: 0 <= i < |t.entries| && SickEntry(t.entries[i], sickIds, dow, week)
                && PeriodWithId(t.periods, t.entries[i].periodId).Some? ==>
      Listed(t.entries[i], PeriodWithId(t.periods, t.entries[i].periodId).value) in r
  }

  /** The sick entries joined with their periods, in table order. */
  function SickJoined(t: Tables, sickIds: seq<Id>, dow: int, week: WeekType): (r: seq<Listed>)
    ensures OnlySick(r, t, sickIds, dow, week) && AllSick(r, t, sickIds, dow, week)
    ensures Distinct(t.entries) ==> Distinct(r)
  {
    var chosen := Filter(t.entries, (e: TimetableEntry) => SickEntry(e, sickIds, dow, week));
    JoinedSick(t, sickIds, dow, week, chosen);
    assert Distinct(t.entries) ==> Distinct(WithPeriods(chosen, t.periods)) by {
      if Distinct(t.entries) {
        DistinctSub(t.entries, chosen);
        WithPeriodsDistinct(chosen, t.periods);
      }
    }
    WithPeriods(chosen, t.periods)
  }

  /** Joining exactly the stored sick entries with their periods lists each
      of them that has a stored period, and nothing else. */
  lemma JoinedSick(t: Tables, sickIds: seq<Id>, dow: int, week: WeekType, chosen: seq<TimetableEntry>)
    requires forall k :: 0 <= k < |chosen| ==> chosen[k] in t.entries && SickEntry(chosen[k], sickIds, dow, week)
    requires forall i :: 0 <= i < |t.entries| && SickEntry(t.entries[i], sickIds, dow, week) ==> t.entries[i] in chosen
    ensures OnlySick(WithPeriods(chosen, t.periods), t, sickIds, dow, week)
    ensures AllSick(WithPeriods(chosen, t.periods), t, sickIds, dow, week)
  {
    var joined := WithPeriods(chosen, t.periods);
    forall i | 0 <= i < |joined|
      ensures joined[i].entry in t.entries && SickEntry(joined[i].entry, sickIds, dow, week)
    {
      var k :| 0 <= k < |chosen| && chosen[k] == joined[i].entry;
    }
    forall i | 0 <= i < |t.entries| && SickEntry(t.entries[i], sickIds, dow, week)
               && PeriodWithId(t.periods, t.entries[i].periodId).Some?
      ensures Listed(t.entries[i], PeriodWithId(t.periods, t.entries[i].periodId).value) in joined
    {
      var k :| 0 <= k < |chosen| && chosen[k] == t.entries[i];
    }
  }

  lemma SameSick(a: seq<Listed>, b: seq<Listed>, t: Tables, sickIds: seq<Id>, dow: int, week: WeekType)
    requires multiset(a) == multiset(b)
    requires OnlySick(a, t, sickIds, dow, week) && AllSick(a, t, sickIds, dow, week)
    ensures OnlySick(b, t, sickIds, dow, week) && AllSick(b, t, sickIds, dow, week)
  {
    SameMembers(a, b);
    forall i | 0 <= i < |b|
      ensures b[i].entry in t.entries && SickEntry(b[i].entry, sickIds, dow, week)
        && PeriodWithId(t.periods, b[i].entry.periodId) == Some(b[i].period)
    {
      assert b[i] in a;
    }
  }

  /** `sickTeacherEntries`: the entries of the sick teachers that apply on the
      day, with their periods, by period number; no query at all when nobody
      is off sick. */
  function SickEntries(t: Tables, sickIds: seq<Id>, dow: int, week: WeekType): (r: seq<Listed>)
    ensures Sorted(r, ByPeriodNumber)
    ensures OnlySick(r, t, sickIds, dow, week) && AllSick(r, t, sickIds, dow, week)
    ensures multiset(r) == multiset(SickJoined(t, sickIds, dow, week))
    ensures Distinct(t.entries) ==> Distinct(r)
  {
    if |sickIds| == 0 then
      FilterNone(t.entries, (e: TimetableEntry) => SickEntry(e, sickIds, dow, week));
      []
    else
      var joined := SickJoined(t, sickIds, dow, week);
      ByPeriodNumberIsPreorder();
      var r := SortBy(joined, ByPeriodNumber);
      SameSick(joined, r, t, sickIds, dow, week);
      assert Distinct(joined) ==> Distinct(r) by {
        if Distinct(joined) {
          DistinctSub(joined, r);
        }
      }
      r
  }

  /** The look-ups the cards are built from. */
  datatype Lookups = Lookups(
    roster: seq<Teacher>, sickIds: seq<Id>,
    busy: map<Id, set<Id>>, covering: map<Id, set<Id>>, byEntry: map<Id, Cover>)

  predicate InGroup(m: map<Id, set<Id>>, k: Id, v: Id)
  {
    k in m && v in m[k]
  }

  /** The filter of `getAvailableTeachers`. */
  predicate Eligible(lk: Lookups, x: Teacher, periodId: Id, sickTeacherId: Id)
  {
    && x.id != sickTeacherId
    && x.id !in lk.sickIds
    && !InGroup(lk.busy, x.id, periodId)
    && !InGroup(lk.covering, x.id, periodId)
  }

  /** `getAvailableTeachers(periodId, sickTeacherId)`: the eligible teachers,
      in roster order. */
  function Available(lk: Lookups, periodId: Id, sickTeacherId: Id): (r: seq<Teacher>)
    ensures forall x :: x in r <==> x in lk.roster && Eligible(lk, x, periodId, sickTeacherId)
    ensures Sorted(lk.roster, ByName) ==> Sorted(r, ByName)
    ensures multiset(r) <= multiset(lk.roster)
  {
    var keep := (x: Teacher) => Eligible(lk, x, periodId, sickTeacherId);
    var r := Filter(lk.roster, keep);
    if Sorted(lk.roster, ByName) then FilterSorted(lk.roster, keep, ByName); r else r
  }

  /** One period of the card, with its cover looked up by entry. */
  function SlotOf(lk: Lookups, l: Listed, sickTeacherId: Id): Slot
  {
    var covered := l.entry.id in lk.byEntry;
    Slot(l.entry.id, l.entry.periodId, l.period.number, l.period.startTime, l.period.endTime,
         l.entry.className, l.entry.subject, covered,
         if covered then Some(lk.byEntry[l.entry.id].reliefTeacherName) else None,
         if covered then Some(lk.byEntry[l.entry.id].assignmentId) else None,
         Available(lk, l.entry.periodId, sickTeacherId))
  }

  function Slots(lk: Lookups, listed: seq<Listed>, sickTeacherId: Id): (r: seq<Slot>)
    ensures |r| == |listed| && forall i :: 0 <= i < |r| ==> r[i] == SlotOf(lk, listed[i], sickTeacherId)
  {
    seq(|listed|, i requires 0 <= i < |listed| => SlotOf(lk, listed[i], sickTeacherId))
  }

  /** `sickTeacherEntries.filter((e) => e.teacherId === sr.teacherId)`. */
  function TeacherEntries(sickEntries: seq<Listed>, teacherId: Id): (r: seq<Listed>)
    ensures forall l :: l in r <==> l in sickEntries && l.entry.teacherId == teacherId
    ensures Sorted(sickEntries, ByPeriodNumber) ==> Sorted(r, ByPeriodNumber)
    ensures multiset(r) <= multiset(sickEntries)
  {
    var mine := (l: Listed) => l.entry.teacherId == teacherId;
    var r := Filter(sickEntries, mine);
    if Sorted(sickEntries, ByPeriodNumber) then FilterSorted(sickEntries, mine, ByPeriodNumber); r else r
  }

  /** The card of one open sick report: its teacher's entries of the day. */
  function CardOf(lk: Lookups, sickEntries: seq<Listed>, a: Absence): Card
  {
    var tid := a.report.teacherId;
    Card(tid, a.teacher.name, a.report.id, Slots(lk, TeacherEntries(sickEntries, tid), tid))
  }

  function NonEmptyCard(lk: Lookups, sickEntries: seq<Listed>, a: Absence): Option<Card>
  {
    var c := CardOf(lk, sickEntries, a);
    if |c.periods| > 0 then Some(c) else None
  }

  /** `sickReports.map(…).filter((card) => card.periods.length > 0)`. */
  function Cards(lk: Lookups, sickEntries: seq<Listed>, absences: seq<Absence>): seq<Card>
  {
    FilterMap(absences, (a: Absence) => NonEmptyCard(lk, sickEntries, a))
  }

  predicate IsCovered(s: Slot) { s.isCovered }
  predicate IsUncovered(s: Slot) { !s.isCovered }

  /** The `reduce` of the totals: the covered (or uncovered) periods of all cards. */
  function Tally(cards: seq<Card>, covered: bool): nat
  {
    if cards == [] then 0
    else Tally(cards[..|cards| - 1], covered) + Count(cards[|cards| - 1].periods, if covered then IsCovered else IsUncovered)
  }

  /** The number of periods on all cards. */
  function SlotTotal(cards: seq<Card>): nat
  {
    if cards == [] then 0 else SlotTotal(cards[..|cards| - 1]) + |cards[|cards| - 1].periods|
  }

  /** The look-ups of one day, as the route builds them. */
  function LookupsOn(t: Tables, d: Day, week: WeekType, absences: seq<Absence>): Lookups
  {
    Lookups(Roster(t.teachers), SickIds(absences),
            Group(BusyPairs(t.entries, JsWeekday(d), week)),
            Group(CoverPairs(t.assignments, t.entries, d)),
            ByEntry(Flatten(absences)))
  }

  function SickEntriesOn(t: Tables, d: Day, week: WeekType): seq<Listed>
  {
    SickEntries(t, SickIds(Absences(t, d)), JsWeekday(d), week)
  }

  function DayLookups(t: Tables, d: Day, week: WeekType): Lookups
  {
    LookupsOn(t, d, week, Absences(t, d))
  }

  /** The cards of a school day `d` read in week type `week`. */
  function CardsOn(t: Tables, d: Day, week: WeekType): seq<Card>
  {
    Cards(DayLookups(t, d, week), SickEntriesOn(t, d, week), Absences(t, d))
  }

  /** The whole reply of the route for the stored tables `t`. */
  function Dashboard(t: Tables, date: DateInput, wt: WeekTypeField): (r: DashboardReply)
    ensures r == MissingDate <==> date.Blank?
    ensures r == Weekend <==> date.OnDay? && (JsWeekday(date.day) == 0 || JsWeekday(date.day) == 6)
    ensures r == QueryFailed <==>
      date.Unparsable? || (date.OnDay? && 1 <= JsWeekday(date.day) <= 5 && wt.Unknown?)
    ensures r.Schedule? ==>
      (&& date.OnDay? && r.weekType == EffectiveWeek(date.day, wt)
       && r.cards == CardsOn(t, date.day, r.weekType)
       && r.totalUncovered == Tally(r.cards, false) && r.totalCovered == Tally(r.cards, true))
  {
    match date
    case Blank => MissingDate
    case Unparsable => QueryFailed
    case OnDay(d) =>
      var dow := JsWeekday(d);
      if dow == 0 || dow == 6 then Weekend
      else if wt.Unknown? then QueryFailed
      else
        var week := EffectiveWeek(d, wt);
        var cards := CardsOn(t, d, week);
        Schedule(week, cards, Tally(cards, false), Tally(cards, true))
  }

  /** The route's `Map<string, Set<string>>` loops (`teacherBusyPeriods`
      and `teacherCoveringPeriods`): the set of each
      first component grows by its second component. */
  method GroupPairs(pairs: seq<(Id, Id)>) returns (m: map<Id, set<Id>>)
    ensures m == Group(pairs)
  {
    m := map[];
    var i := 0;
    while i < |pairs|
      invariant 0 <= i <= |pairs|
      invariant m == Group(pairs[..i])
    {
      var (k, v) := pairs[i];
      if k !in m {
        m := m[k := {}];
      }
      m := m[k := m[k] + {v}];
      assert pairs[..i + 1][..i] == pairs[..i];
      i := i + 1;
    }
    assert pairs[..i] == pairs;
  }

  /** `assignmentByEntry`: every cover of every open report, later ones
      replacing earlier ones of the same entry. */
  method IndexCovers(absences: seq<Absence>) returns (m: map<Id, Cover>)
    ensures m == ByEntry(Flatten(absences))
  {
    m := map[];
    var i := 0;
    while i < |absences|
      invariant 0 <= i <= |absences|
      invariant m == ByEntry(Flatten(absences[..i]))
    {
      m := IndexAbsence(m, Flatten(absences[..i]), absences[i].covers);
      assert absences[..i + 1][..i] == absences[..i];
      i := i + 1;
    }
    assert absences[..i] == absences;
  }

  /** The inner loop over one absence's covers. */
  method IndexAbsence(m0: map<Id, Cover>, ghost before: seq<Cover>, covers: seq<Cover>) returns (m: map<Id, Cover>)
    requires m0 == ByEntry(before)
    ensures m == ByEntry(before + covers)
  {
    m := m0;
    var j := 0;
    assert before + covers[..0] == before;
    while j < |covers|
      invariant 0 <= j <= |covers|
      invariant m == ByEntry(before + covers[..j])
    {
      IndexStep(before, covers, j);
      m := m[covers[j].entryId := covers[j]];
      j := j + 1;
    }
    assert covers[..j] == covers;
  }

  lemma IndexStep(before: seq<Cover>, covers: seq<Cover>, j: nat)
    requires j < |covers|
    ensures ByEntry(before + covers[..j + 1]) == ByEntry(before + covers[..j])[covers[j].entryId := covers[j]]
  {
    var s := before + covers[..j + 1];
    assert s[..|s| - 1] == before + covers[..j];
    assert s[|s| - 1] == covers[j];
  }

  /** The route: the branches in their order, the look-ups built by the
      loops, the cards and totals by `map`, `filter` and `reduce`. */
  method Get(t: Tables, date: DateInput, wt: WeekTypeField) returns (reply: DashboardReply)
    ensures reply == Dashboard(t, date, wt)
  {
    if date.Blank? {
      return MissingDate;
    }
    if date.Unparsable? {
      return QueryFailed;
    }
    var d := date.day;
    var dow := JsWeekday(d);
    if dow == 0 || dow == 6 {
      return Weekend;
    }
    if wt.Unknown? {
      return QueryFailed;
    }
    var week := EffectiveWeek(d, wt);
    var absences := Absences(t, d);
    var sickIds := SickIds(absences);
    var sickEntries := SickEntries(t, sickIds, dow, week);
    var roster := Roster(t.teachers);
    var busy := GroupPairs(BusyPairs(t.entries, dow, week));
    var covering := GroupPairs(CoverPairs(t.assignments, t.entries, d));
    var byEntry := IndexCovers(absences);
    var lk := Lookups(roster, sickIds, busy, covering, byEntry);
    assert lk == LookupsOn(t, d, week, absences);
    var cards := Cards(lk, sickEntries, absences);
    reply := Schedule(week, cards, Tally(cards, false), Tally(cards, true));
  }

  /** The slot `s` shows entry `e` in period `p`. */
  predicate Shows(s: Slot, e: TimetableEntry, p: Period)
  {
    && s.timetableEntryId == e.id && s.periodId == e.periodId
    && s.periodNumber == p.number && s.periodStartTime == p.startTime && s.periodEndTime == p.endTime
    && s.className == e.className && s.subject == e.subject
  }

  /** The teacher has an open sick report on `d` (and is stored). */
  predicate OffSick(t: Tables, d: Day, id: Id)
  {
    exists j :: 0 <= j < |Absences(t, d)| && Absences(t, d)[j].report.teacherId == id
  }

  /** Every card is the card of one of the absences, and has periods. */
  lemma CardInCards(lk: Lookups, se: seq<Listed>, absences: seq<Absence>, c: Card)
    requires c in Cards(lk, se, absences)
    ensures |c.periods| > 0
    ensures exists i :: 0 <= i < |absences| && c == CardOf(lk, se, absences[i])
  {
    var i :| 0 <= i < |absences| && NonEmptyCard(lk, se, absences[i]) == Some(c);
  }

  /** Every period on a card is the slot of one of its teacher's entries. */
  lemma SlotInCard(lk: Lookups, se: seq<Listed>, a: Absence, s: Slot)
    requires s in CardOf(lk, se, a).periods
    ensures exists l :: l in se && l.entry.teacherId == a.report.teacherId && s == SlotOf(lk, l, a.report.teacherId)
  {
    var listed := TeacherEntries(se, a.report.teacherId);
    var k :| 0 <= k < |listed| && CardOf(lk, se, a).periods[k] == s;
    assert listed[k] in listed;
  }

  /** The absence and the listed entry a period on a card comes from. */
  lemma SlotSource(lk: Lookups, se: seq<Listed>, absences: seq<Absence>, c: Card, s: Slot) returns (a: Absence, l: Listed)
    requires c in Cards(lk, se, absences) && s in c.periods
    ensures a in absences && c == CardOf(lk, se, a)
    ensures l in se && l.entry.teacherId == c.teacherId && s == SlotOf(lk, l, c.teacherId)
  {
    CardInCards(lk, se, absences, c);
    var i :| 0 <= i < |absences| && c == CardOf(lk, se, absences[i]);
    a := absences[i];
    SlotInCard(lk, se, a, s);
    l :| l in se && l.entry.teacherId == a.report.teacherId && s == SlotOf(lk, l, a.report.teacherId);
  }

  /** What `OnlySick` says of one listed entry. */
  lemma ListedIsSick(se: seq<Listed>, t: Tables, sickIds: seq<Id>, dow: int, week: WeekType, l: Listed)
    requires OnlySick(se, t, sickIds, dow, week) && l in se
    ensures l.entry in t.entries && SickEntry(l.entry, sickIds, dow, week)
    ensures PeriodWithId(t.periods, l.period.id) == Some(l.period) || PeriodWithId(t.periods, l.entry.periodId) == Some(l.period)
  {
    var k :| 0 <= k < |se| && se[k] == l;
  }

  /** A card belongs to a stored teacher whose sick report is open on `d`. */
  lemma CardIsAbsence(t: Tables, d: Day, week: WeekType, c: Card)
    requires c in CardsOn(t, d, week)
    ensures |c.periods| > 0
    ensures exists r :: (&& r in t.sickReports && Overlaps(r, d) && r.id == c.sickReportId && r.teacherId == c.teacherId
      && TeacherWithId(t.teachers, r.teacherId).Some? && TeacherWithId(t.teachers, r.teacherId).value.name == c.teacherName)
  {
    var absences := Absences(t, d);
    CardInCards(DayLookups(t, d, week), SickEntriesOn(t, d, week), absences, c);
    var i :| 0 <= i < |absences| && c == CardOf(DayLookups(t, d, week), SickEntriesOn(t, d, week), absences[i]);
    assert absences[i].report.id == c.sickReportId;
  }

  /** Every period on a card is a lesson the sick teacher would teach that
      day: their entry for the weekday in the week type or ALL, shown with
      its stored period. */
  lemma SlotIsMissedLesson(t: Tables, d: Day, week: WeekType, c: Card, s: Slot)
    requires c in CardsOn(t, d, week) && s in c.periods
    ensures exists e :: (&& e in t.entries && e.teacherId == c.teacherId && Applies(e, JsWeekday(d), week)
      && PeriodWithId(t.periods, e.periodId).Some? && Shows(s, e, PeriodWithId(t.periods, e.periodId).value))
  {
    var absences := Absences(t, d);
    var lk, se := DayLookups(t, d, week), SickEntriesOn(t, d, week);
    var a, l := SlotSource(lk, se, absences, c, s);
    ListedIsSick(se, t, SickIds(absences), JsWeekday(d), week, l);
    assert Shows(s, l.entry, l.period);
  }

  /** The periods of a card are in period-number order. */
  lemma CardPeriodsSorted(t: Tables, d: Day, week: WeekType, c: Card)
    requires c in CardsOn(t, d, week)
    ensures forall i, j :: 0 <= i < j < |c.periods| ==> c.periods[i].periodNumber <= c.periods[j].periodNumber
  {
    var absences := Absences(t, d);
    var lk, se := DayLookups(t, d, week), SickEntriesOn(t, d, week);
    CardInCards(lk, se, absences, c);
    var k :| 0 <= k < |absences| && c == CardOf(lk, se, absences[k]);
    var listed := TeacherEntries(se, absences[k].report.teacherId);
    assert Sorted(listed, ByPeriodNumber);
  }

  /** With unique entry ids, each lesson appears on a card once: no two
      periods of a card are of the same entry. */
  lemma CardPeriodsOnce(t: Tables, d: Day, week: WeekType, c: Card)
    requires UniqueKeys(t.entries, EntryKey)
    requires c in CardsOn(t, d, week)
    ensures forall i, j :: 0 <= i < j < |c.periods| ==> c.periods[i].timetableEntryId != c.periods[j].timetableEntryId
  {
    var absences := Absences(t, d);
    var lk, se := DayLookups(t, d, week), SickEntriesOn(t, d, week);
    CardInCards(lk, se, absences, c);
    var k :| 0 <= k < |absences| && c == CardOf(lk, se, absences[k]);
    var listed := TeacherEntries(se, absences[k].report.teacherId);
    UniqueKeysDistinct(t.entries, EntryKey);
    DistinctSub(se, listed);
    forall i, j | 0 <= i < j < |listed| ensures listed[i].entry.id != listed[j].entry.id {
      ListedIdsDiffer(t, SickIds(absences), JsWeekday(d), week, se, listed[i], listed[j]);
    }
  }

  /** Two different sick listings are of entries with different ids. */
  lemma ListedIdsDiffer(t: Tables, sickIds: seq<Id>, dow: int, week: WeekType, se: seq<Listed>, a: Listed, b: Listed)
    requires UniqueKeys(t.entries, EntryKey) && OnlySick(se, t, sickIds, dow, week)
    requires a in se && b in se && a != b
    ensures a.entry.id != b.entry.id
  {
    var i :| 0 <= i < |se| && se[i] == a;
    var j :| 0 <= j < |se| && se[j] == b;
    var x :| 0 <= x < |t.entries| && t.entries[x] == a.entry;
    var y :| 0 <= y < |t.entries| && t.entries[y] == b.entry;
    assert x != y ==> EntryKey(t.entries[x]) != EntryKey(t.entries[y]);
  }

  /** Every lesson a sick teacher would teach that day appears on the card
      of each of their open reports. */
  lemma CardsComplete(t: Tables, d: Day, week: WeekType, r: SickReport, e: TimetableEntry)
    requires r in t.sickReports && Overlaps(r, d) && TeacherWithId(t.teachers, r.teacherId).Some?
    requires e in t.entries && e.teacherId == r.teacherId && Applies(e, JsWeekday(d), week)
    requires PeriodWithId(t.periods, e.periodId).Some?
    ensures exists c, s :: (&& c in CardsOn(t, d, week) && c.sickReportId == r.id && s in c.periods
      && Shows(s, e, PeriodWithId(t.periods, e.periodId).value))
  {
    var absences := Absences(t, d);
    var k := AbsentIn(t, d, r);
    var p := PeriodWithId(t.periods, e.periodId).value;
    var lk, se := DayLookups(t, d, week), SickEntriesOn(t, d, week);
    ListedSick(t, SickIds(absences), JsWeekday(d), week, se, e, k);
    var c, m := CardWithSlot(lk, se, absences, k, Listed(e, p));
    assert Shows(c.periods[m], e, p);
  }

  /** The card of the `k`th absence is on the list and holds the slot of
      each listed entry of its teacher. */
  lemma CardWithSlot(lk: Lookups, se: seq<Listed>, absences: seq<Absence>, k: nat, l: Listed) returns (c: Card, m: nat)
    requires k < |absences| && l in se && l.entry.teacherId == absences[k].report.teacherId
    ensures c in Cards(lk, se, absences) && c.sickReportId == absences[k].report.id
    ensures m < |c.periods| && c.periods[m] == SlotOf(lk, l, absences[k].report.teacherId)
  {
    m := SlotAt(lk, se, absences[k], l);
    c := CardOf(lk, se, absences[k]);
    assert NonEmptyCard(lk, se, absences[k]) == Some(c);
  }

  /** An open report of a stored teacher is among the absences, at an index
      whose sick id is its teacher. */
  lemma AbsentIn(t: Tables, d: Day, r: SickReport) returns (k: nat)
    requires r in t.sickReports && Overlaps(r, d) && TeacherWithId(t.teachers, r.teacherId).Some?
    ensures k < |Absences(t, d)| && Some(Absences(t, d)[k]) == AbsenceOn(t, d, r)
    ensures Absences(t, d)[k].report == r && SickIds(Absences(t, d))[k] == r.teacherId
  {
    var absences := Absences(t, d);
    var ri :| 0 <= ri < |t.sickReports| && t.sickReports[ri] == r;
    assert AbsenceOn(t, d, r).value in absences;
    k :| 0 <= k < |absences| && absences[k] == AbsenceOn(t, d, r).value;
  }

  /** A sick teacher's entry of the day with a stored period is listed. */
  lemma ListedSick(t: Tables, sickIds: seq<Id>, dow: int, week: WeekType, se: seq<Listed>, e: TimetableEntry, k: nat)
    requires AllSick(se, t, sickIds, dow, week)
    requires e in t.entries && k < |sickIds| && e.teacherId == sickIds[k] && Applies(e, dow, week)
    requires PeriodWithId(t.periods, e.periodId).Some?
    ensures Listed(e, PeriodWithId(t.periods, e.periodId).value) in se
  {
    var ei :| 0 <= ei < |t.entries| && t.entries[ei] == e;
    assert SickEntry(t.entries[ei], sickIds, dow, week);
  }

  /** A listed entry of the card's teacher has its slot on the card. */
  lemma SlotAt(lk: Lookups, se: seq<Listed>, a: Absence, l: Listed) returns (m: nat)
    requires l in se && l.entry.teacherId == a.report.teacherId
    ensures m < |CardOf(lk, se, a).periods| && CardOf(lk, se, a).periods[m] == SlotOf(lk, l, a.report.teacherId)
  {
    var listed := TeacherEntries(se, a.report.teacherId);
    m :| 0 <= m < |listed| && listed[m] == l;
  }

  /** The teachers offered for a period are exactly the stored teachers
      other than the sick one who are not off sick themselves, have no
      lesson of their own in that period that day, and cover nothing else in
      it that day; they come in name order. Offering a teacher thus never
      leads to the double booking the ledger forbids. */
  lemma Candidates(t: Tables, d: Day, week: WeekType, c: Card, s: Slot, x: Teacher)
    requires c in CardsOn(t, d, week) && s in c.periods
    ensures Sorted(s.availableTeachers, ByName)
    ensures x in s.availableTeachers <==>
      (&& x in t.teachers && x.id != c.teacherId && !OffSick(t, d, x.id)
       && !BusyIn(t.entries, JsWeekday(d), week, x.id, s.periodId)
       && !HasConflict(t.assignments, t.entries, x.id, d, s.periodId))
  {
    var absences := Absences(t, d);
    var lk, se := DayLookups(t, d, week), SickEntriesOn(t, d, week);
    var a, l := SlotSource(lk, se, absences, c, s);
    Offered(lk, l, c.teacherId, x);
    assert s.periodId == l.entry.periodId;
    assert x in lk.roster <==> x in t.teachers by {
      assert lk.roster == Roster(t.teachers);
    }
    assert x.id in lk.sickIds <==> OffSick(t, d, x.id) by {
      assert lk.sickIds == SickIds(absences);
      SickIdsAreOffSick(t, d, x.id);
    }
    assert InGroup(lk.busy, x.id, s.periodId) <==> BusyIn(t.entries, JsWeekday(d), week, x.id, s.periodId) by {
      assert lk.busy == Group(BusyPairs(t.entries, JsWeekday(d), week));
      BusyLookup(t.entries, JsWeekday(d), week, x.id, s.periodId);
    }
    assert InGroup(lk.covering, x.id, s.periodId) <==> HasConflict(t.assignments, t.entries, x.id, d, s.periodId) by {
      assert lk.covering == Group(CoverPairs(t.assignments, t.entries, d));
      CoveringLookup(t.assignments, t.entries, d, x.id, s.periodId);
    }
  }

  /** Who is offered in a slot, in terms of the look-ups. */
  lemma Offered(lk: Lookups, l: Listed, tid: Id, x: Teacher)
    ensures x in SlotOf(lk, l, tid).availableTeachers <==> x in lk.roster && Eligible(lk, x, l.entry.periodId, tid)
    ensures Sorted(lk.roster, ByName) ==> Sorted(SlotOf(lk, l, tid).availableTeachers, ByName)
  {
  }

  lemma SickIdsAreOffSick(t: Tables, d: Day, id: Id)
    ensures id in SickIds(Absences(t, d)) <==> OffSick(t, d, id)
  {
    var absences := Absences(t, d);
    if id in SickIds(absences) {
      var j :| 0 <= j < |SickIds(absences)| && SickIds(absences)[j] == id;
      assert absences[j].report.teacherId == id;
    }
  }

  /** Some cover of `covers` is for the entry `entryId`. */
  predicate CoveredIn(covers: seq<Cover>, entryId: Id)
  {
    exists k :: 0 <= k < |covers| && covers[k].entryId == entryId
  }

  /** The slot shows the relief teacher and assignment of the LAST cover of
      `covers` for its entry. */
  predicate ShowsLastCover(covers: seq<Cover>, s: Slot)
  {
    exists k :: (&& 0 <= k < |covers| && covers[k].entryId == s.timetableEntryId
      && s.reliefTeacherName == Some(covers[k].reliefTeacherName) && s.assignmentId == Some(covers[k].assignmentId)
      && forall j :: k < j < |covers| ==> covers[j].entryId != s.timetableEntryId)
  }

  /** A period is covered exactly when an assignment of an open report on
      that date is for its entry; it then shows the last such assignment and
      its relief teacher, and otherwise neither. */
  lemma SlotCover(t: Tables, d: Day, week: WeekType, c: Card, s: Slot)
    requires c in CardsOn(t, d, week) && s in c.periods
    ensures s.isCovered <==> CoveredIn(Flatten(Absences(t, d)), s.timetableEntryId)
    ensures !s.isCovered ==> s.reliefTeacherName == None && s.assignmentId == None
    ensures s.isCovered ==> ShowsLastCover(Flatten(Absences(t, d)), s)
  {
    var absences := Absences(t, d);
    var lk, se := DayLookups(t, d, week), SickEntriesOn(t, d, week);
    var a, l := SlotSource(lk, se, absences, c, s);
    assert lk.byEntry == ByEntry(Flatten(absences));
    SlotCoverBy(lk, Flatten(absences), l, c.teacherId, s);
  }

  /** `SlotCover` for any look-ups whose cover index is built from `covers`. */
  lemma SlotCoverBy(lk: Lookups, covers: seq<Cover>, l: Listed, sickTeacherId: Id, s: Slot)
    requires lk.byEntry == ByEntry(covers) && s == SlotOf(lk, l, sickTeacherId)
    ensures s.isCovered <==> CoveredIn(covers, s.timetableEntryId)
    ensures !s.isCovered ==> s.reliefTeacherName == None && s.assignmentId == None
    ensures s.isCovered ==> ShowsLastCover(covers, s)
  {
    ByEntryLast(covers, s.timetableEntryId);
  }

  /** Each card's periods are either covered or not. */
  lemma {:induction false} SlotsSplit(slots: seq<Slot>)
    ensures Count(slots, IsCovered) + Count(slots, IsUncovered) == |slots|
  {
    if slots != [] {
      SlotsSplit(slots[..|slots| - 1]);
    }
  }

  /** The two totals account for every period on every card once. */
  lemma {:induction false} TotalsAddUp(cards: seq<Card>)
    ensures Tally(cards, true) + Tally(cards, false) == SlotTotal(cards)
  {
    if cards != [] {
      TotalsAddUp(cards[..|cards| - 1]);
      SlotsSplit(cards[|cards| - 1].periods);
    }
  }
}
