/** `generateReliefSummary`: the plain-text relief summary of one day, with
    the absent teachers, the covered lessons grouped by relief teacher and
    the lessons nobody covers. */
module ReliefSummary {
  import opened Common
  import opened Sorting
  import opened JsString

  /** A lesson of an absent teacher as the dashboard shows it; a missing
      relief teacher name is `None`. */
  datatype PeriodSlot = PeriodSlot(
    periodStartTime: string, periodEndTime: string, className: string, subject: string,
    isCovered: bool, reliefTeacherName: Option<string>)

  datatype SickTeacherCard = SickTeacherCard(teacherName: string, periods: seq<PeriodSlot>)

  /** One line's worth of a lesson, before formatting. */
  datatype Item = Item(time: string, className: string, subject: string, sickTeacher: string, startTime: string)

  function ItemOf(teacher: SickTeacherCard, slot: PeriodSlot): Item
  {
    Item(slot.periodStartTime + "–" + slot.periodEndTime, slot.className, slot.subject, teacher.teacherName, slot.periodStartTime)
  }

  /** The relief teacher a slot is listed under: `slot.isCovered &&
      slot.reliefTeacherName`, where an empty name counts as none. */
  function ReliefOf(slot: PeriodSlot): Option<string>
  {
    if slot.isCovered && slot.reliefTeacherName.Some? && slot.reliefTeacherName.value != "" then slot.reliefTeacherName
    else None
  }

  // ----- The grouping loop of `generateReliefSummary`.

  /** `reliefMap` with its keys in insertion order, and `uncovered`. */
  datatype Buckets = Buckets(relief: map<string, seq<Item>>, order: seq<string>, uncovered: seq<Item>)

  /** One slot's item goes to its relief teacher's list, or to `uncovered`. */
  function Place(b: Buckets, item: Item, relief: Option<string>): Buckets
  {
    match relief
    case Some(name) =>
      if name in b.relief then b.(relief := b.relief[name := b.relief[name] + [item]])
      else b.(relief := b.relief[name := [item]], order := b.order + [name])
    case None => b.(uncovered := b.uncovered + [item])
  }

  function PlaceSlots(b: Buckets, teacher: SickTeacherCard, slots: seq<PeriodSlot>): Buckets
  {
    if slots == [] then b
    else
      var last := slots[|slots| - 1];
      Place(PlaceSlots(b, teacher, slots[..|slots| - 1]), ItemOf(teacher, last), ReliefOf(last))
  }

  function Group(cards: seq<SickTeacherCard>): Buckets
  {
    if cards == [] then Buckets(map[], [], [])
    else
      var last := cards[|cards| - 1];
      PlaceSlots(Group(cards[..|cards| - 1]), last, last.periods)
  }

  // ----- The lines.

  function Header(date: string): string
  {
    "RELIEF SUMMARY — " + date
  }

  function AbsentLines(cards: seq<SickTeacherCard>): seq<string>
  {
    seq(|cards|, i requires 0 <= i < |cards| => "• " + cards[i].teacherName)
  }

  function StartOf(a: Item): string { a.startTime }

  predicate ByStart(a: Item, b: Item)
  {
    StrLe(a.startTime, b.startTime)
  }

  lemma ByStartIsPreorder()
    ensures TotalPreorder(ByStart)
  {
    StrKeyOrder(ByStart, StartOf);
  }

  function Itself(s: string): string { s }

  lemma StrLeIsPreorder()
    ensures TotalPreorder(StrLe)
  {
    StrKeyOrder(StrLe, Itself);
  }

  function AssignmentLine(a: Item): string
  {
    "• " + a.time + " → " + a.className + " " + a.subject + " (replacing " + a.sickTeacher + ")"
  }

  function UncoveredLine(u: Item): string
  {
    "• " + u.time + " → " + u.className + " " + u.subject + " (" + u.sickTeacher + ") — no relief assigned"
  }

  function AssignmentLines(items: seq<Item>): seq<string>
  {
    seq(|items|, i requires 0 <= i < |items| => AssignmentLine(items[i]))
  }

  function UncoveredLines(items: seq<Item>): seq<string>
  {
    seq(|items|, i requires 0 <= i < |items| => UncoveredLine(items[i]))
  }

  /** One relief teacher's block: the name in capitals, the lessons by start
      time, a blank line. */
  function TeacherBlock(name: string, items: seq<Item>): seq<string>
  {
    ByStartIsPreorder();
    [ToUpper(name)] + AssignmentLines(SortBy(items, ByStart)) + [""]
  }

  function ReliefBlocks(relief: map<string, seq<Item>>, names: seq<string>): seq<string>
    requires forall i :: 0 <= i < |names| ==> names[i] in relief
  {
    if names == [] then []
    else
      var last := names[|names| - 1];
      ReliefBlocks(relief, names[..|names| - 1]) + TeacherBlock(last, relief[last])
  }

  /** The relief teachers in name order. */
  function SortedTeachers(b: Buckets): seq<string>
  {
    StrLeIsPreorder();
    SortBy(b.order, StrLe)
  }

  /** The keys of `reliefMap` are exactly the names in `order`, each once. */
  ghost predicate WellKept(b: Buckets)
  {
    (forall n :: n in b.order <==> n in b.relief) && UniqueKeys(b.order, Itself)
  }

  function ReliefSection(b: Buckets): seq<string>
    requires WellKept(b)
  {
    if |b.relief| > 0 then
      var names := SortedTeachers(b);
      SameMembers(names, b.order);
      ["RELIEF ASSIGNMENTS:", ""] + ReliefBlocks(b.relief, names)
    else []
  }

  function UncoveredSection(b: Buckets): seq<string>
  {
    if |b.uncovered| > 0 then
      ByStartIsPreorder();
      ["UNCOVERED:"] + UncoveredLines(SortBy(b.uncovered, ByStart)) + [""]
    else []
  }

  function SummaryLines(cards: seq<SickTeacherCard>, date: string): seq<string>
  {
    var b := Group(cards);
    GroupWellKept(cards);
    [Header(date), "", "ABSENT:"] + AbsentLines(cards) + [""] + ReliefSection(b) + UncoveredSection(b)
  }

  /** The summary: empty without absent teachers, otherwise the lines joined
      by newlines with the trailing white space cut off, so it never ends in
      white space. */
  function Summary(cards: seq<SickTeacherCard>, date: string): (s: string)
    ensures s == [] || !IsSpace(s[|s| - 1])
  {
    if cards == [] then "" else TrimEnd(Join(SummaryLines(cards, date), "\n"))
  }

  // ----- Facts about the grouping.

  lemma PlaceWellKept(b: Buckets, item: Item, relief: Option<string>)
    requires WellKept(b)
    ensures WellKept(Place(b, item, relief))
  {
    if relief.Some? && relief.value !in b.relief {
      forall i | 0 <= i < |b.order|
        ensures Itself(b.order[i]) != Itself(relief.value)
      {
        assert b.order[i] in b.order;
      }
      UniqueKeysSnoc(b.order, relief.value, Itself);
    }
  }

  lemma {:induction false} PlaceSlotsWellKept(b: Buckets, teacher: SickTeacherCard, slots: seq<PeriodSlot>)
    requires WellKept(b)
    ensures WellKept(PlaceSlots(b, teacher, slots))
  {
    if slots != [] {
      var last := slots[|slots| - 1];
      PlaceSlotsWellKept(b, teacher, slots[..|slots| - 1]);
      PlaceWellKept(PlaceSlots(b, teacher, slots[..|slots| - 1]), ItemOf(teacher, last), ReliefOf(last));
    }
  }

  lemma {:induction false} GroupWellKept(cards: seq<SickTeacherCard>)
    ensures WellKept(Group(cards))
  {
    if cards != [] {
      var last := cards[|cards| - 1];
      GroupWellKept(cards[..|cards| - 1]);
      PlaceSlotsWellKept(Group(cards[..|cards| - 1]), last, last.periods);
    }
  }

  // ----- Every lesson is listed exactly once, in its own bucket.

  /** A lesson of an absent teacher with the relief teacher it is listed under. */
  datatype Lesson = Lesson(item: Item, relief: Option<string>)

  function SlotLessons(teacher: SickTeacherCard, slots: seq<PeriodSlot>): seq<Lesson>
  {
    seq(|slots|, j requires 0 <= j < |slots| => Lesson(ItemOf(teacher, slots[j]), ReliefOf(slots[j])))
  }

  /** All lessons of all cards, card by card, in input order. */
  function Lessons(cards: seq<SickTeacherCard>): seq<Lesson>
  {
    if cards == [] then []
    else
      var last := cards[|cards| - 1];
      Lessons(cards[..|cards| - 1]) + SlotLessons(last, last.periods)
  }

  /** The items of the lessons listed under `relief`, in order. */
  function ListedUnder(ls: seq<Lesson>, relief: Option<string>): seq<Item>
  {
    if ls == [] then []
    else
      var last := ls[|ls| - 1];
      ListedUnder(ls[..|ls| - 1], relief) + (if last.relief == relief then [last.item] else [])
  }

  /** `b` holds exactly the lessons `ls`: each relief teacher's list and the
      uncovered list are the lessons listed under it, in order, and a name
      with no list has no lessons. */
  ghost predicate Holds(b: Buckets, ls: seq<Lesson>)
  {
    && b.uncovered == ListedUnder(ls, None)
    && (forall n :: n in b.relief ==> b.relief[n] == ListedUnder(ls, Some(n)) && b.relief[n] != [])
    && (forall n :: n !in b.relief ==> ListedUnder(ls, Some(n)) == [])
  }

  lemma ListedUnderSnoc(ls: seq<Lesson>, l: Lesson, relief: Option<string>)
    ensures ListedUnder(ls + [l], relief) == ListedUnder(ls, relief) + (if l.relief == relief then [l.item] else [])
  {
    assert (ls + [l])[..|ls|] == ls;
  }

  lemma PlaceHolds(b: Buckets, ls: seq<Lesson>, item: Item, relief: Option<string>)
    requires Holds(b, ls)
    ensures Holds(Place(b, item, relief), ls + [Lesson(item, relief)])
  {
    var l := Lesson(item, relief);
    ListedUnderSnoc(ls, l, None);
    forall n
      ensures ListedUnder(ls + [l], Some(n)) == ListedUnder(ls, Some(n)) + (if relief == Some(n) then [item] else [])
    {
      ListedUnderSnoc(ls, l, Some(n));
    }
  }

  lemma {:induction false} PlaceSlotsHolds(b: Buckets, ls: seq<Lesson>, teacher: SickTeacherCard, slots: seq<PeriodSlot>)
    requires Holds(b, ls)
    ensures Holds(PlaceSlots(b, teacher, slots), ls + SlotLessons(teacher, slots))
  {
    if slots != [] {
      var init := slots[..|slots| - 1];
      var last := slots[|slots| - 1];
      var mid := ls + SlotLessons(teacher, init);
      var l := Lesson(ItemOf(teacher, last), ReliefOf(last));
      PlaceSlotsHolds(b, ls, teacher, init);
      PlaceHolds(PlaceSlots(b, teacher, init), mid, l.item, l.relief);
      assert SlotLessons(teacher, slots) == SlotLessons(teacher, init) + [l];
      assert ls + SlotLessons(teacher, slots) == mid + [l];
      assert PlaceSlots(b, teacher, slots) == Place(PlaceSlots(b, teacher, init), l.item, l.relief);
    } else {
      assert ls + SlotLessons(teacher, slots) == ls;
    }
  }

  /** The grouping loop lists every lesson exactly once: an uncovered lesson (or a
      covered one without a relief teacher's name) under UNCOVERED, any other
      under its relief teacher, each list in input order. */
  lemma {:induction false} GroupHolds(cards: seq<SickTeacherCard>)
    ensures Holds(Group(cards), Lessons(cards))
  {
    if cards != [] {
      var init := cards[..|cards| - 1];
      var last := cards[|cards| - 1];
      GroupHolds(init);
      PlaceSlotsHolds(Group(init), Lessons(init), last, last.periods);
    }
  }

  /** The lesson of slot `j` of card `i` is among `Lessons(cards)`, and every
      lesson there is one of them. */
  ghost predicate LessonOf(cards: seq<SickTeacherCard>, l: Lesson)
  {
    exists i, j :: 0 <= i < |cards| && 0 <= j < |cards[i].periods| && l == Lesson(ItemOf(cards[i], cards[i].periods[j]), ReliefOf(cards[i].periods[j]))
  }

  lemma {:induction false} LessonsAreSlots(cards: seq<SickTeacherCard>)
    ensures forall k :: 0 <= k < |Lessons(cards)| ==> LessonOf(cards, Lessons(cards)[k])
    ensures forall i, j :: 0 <= i < |cards| && 0 <= j < |cards[i].periods| ==>
              Lesson(ItemOf(cards[i], cards[i].periods[j]), ReliefOf(cards[i].periods[j])) in Lessons(cards)
  {
    if cards != [] {
      var init := cards[..|cards| - 1];
      var last := cards[|cards| - 1];
      LessonsAreSlots(init);
      var front := Lessons(init);
      var back := SlotLessons(last, last.periods);
      forall k | 0 <= k < |Lessons(cards)|
        ensures LessonOf(cards, Lessons(cards)[k])
      {
        if k < |front| {
          var l := front[k];
          assert LessonOf(init, l);
          var i, j :| 0 <= i < |init| && 0 <= j < |init[i].periods| && l == Lesson(ItemOf(init[i], init[i].periods[j]), ReliefOf(init[i].periods[j]));
          assert init[i] == cards[i];
        } else {
          var j := k - |front|;
          assert Lessons(cards)[k] == back[j];
          assert cards[|cards| - 1] == last;
        }
      }
      forall i, j | 0 <= i < |cards| && 0 <= j < |cards[i].periods|
        ensures Lesson(ItemOf(cards[i], cards[i].periods[j]), ReliefOf(cards[i].periods[j])) in Lessons(cards)
      {
        if i < |init| {
          assert cards[i] == init[i];
        } else {
          assert back[j] in Lessons(cards);
        }
      }
    }
  }

  lemma {:induction false} ListedUnderHas(ls: seq<Lesson>, k: int)
    requires 0 <= k < |ls|
    ensures ls[k].item in ListedUnder(ls, ls[k].relief)
  {
    var init := ls[..|ls| - 1];
    if k < |ls| - 1 {
      assert ls[k] == init[k];
      ListedUnderHas(init, k);
    }
  }

  lemma {:induction false} ListedUnderFrom(ls: seq<Lesson>, relief: Option<string>)
    requires ListedUnder(ls, relief) != []
    ensures exists k :: 0 <= k < |ls| && ls[k].relief == relief
  {
    var init := ls[..|ls| - 1];
    if ls[|ls| - 1].relief != relief {
      ListedUnderFrom(init, relief);
      var k :| 0 <= k < |init| && init[k].relief == relief;
      assert ls[k] == init[k];
    }
  }

  /** Some lesson of some absent teacher is listed under a relief teacher. */
  ghost predicate SomeCovered(cards: seq<SickTeacherCard>)
  {
    exists i, j :: 0 <= i < |cards| && 0 <= j < |cards[i].periods| && ReliefOf(cards[i].periods[j]).Some?
  }

  /** Some lesson of some absent teacher is listed as uncovered. */
  ghost predicate SomeUncovered(cards: seq<SickTeacherCard>)
  {
    exists i, j :: 0 <= i < |cards| && 0 <= j < |cards[i].periods| && ReliefOf(cards[i].periods[j]).None?
  }

  lemma SlotListed(cards: seq<SickTeacherCard>, i: int, j: int) returns (k: int)
    requires 0 <= i < |cards| && 0 <= j < |cards[i].periods|
    ensures 0 <= k < |Lessons(cards)| && Lessons(cards)[k].relief == ReliefOf(cards[i].periods[j])
  {
    LessonsAreSlots(cards);
    var l := Lesson(ItemOf(cards[i], cards[i].periods[j]), ReliefOf(cards[i].periods[j]));
    assert l in Lessons(cards);
    k :| 0 <= k < |Lessons(cards)| && Lessons(cards)[k] == l;
  }

  lemma ListedSlot(cards: seq<SickTeacherCard>, k: int) returns (i: int, j: int)
    requires 0 <= k < |Lessons(cards)|
    ensures 0 <= i < |cards| && 0 <= j < |cards[i].periods| && Lessons(cards)[k].relief == ReliefOf(cards[i].periods[j])
  {
    LessonsAreSlots(cards);
    assert LessonOf(cards, Lessons(cards)[k]);
    i, j :| 0 <= i < |cards| && 0 <= j < |cards[i].periods|
      && Lessons(cards)[k] == Lesson(ItemOf(cards[i], cards[i].periods[j]), ReliefOf(cards[i].periods[j]));
  }

  /** The RELIEF ASSIGNMENTS section is printed exactly when
      some lesson has a relief teacher with a name. */
  lemma ReliefSectionIff(cards: seq<SickTeacherCard>)
    ensures WellKept(Group(cards)) && (ReliefSection(Group(cards)) != [] <==> SomeCovered(cards))
  {
    var b := Group(cards);
    var ls := Lessons(cards);
    GroupWellKept(cards);
    GroupHolds(cards);
    if SomeCovered(cards) {
      var i, j :| 0 <= i < |cards| && 0 <= j < |cards[i].periods| && ReliefOf(cards[i].periods[j]).Some?;
      var k := SlotListed(cards, i, j);
      ListedUnderHas(ls, k);
      assert ReliefOf(cards[i].periods[j]).value in b.relief;
    }
    if |b.relief| > 0 {
      assert b.relief.Keys != {};
      var n :| n in b.relief.Keys;
      ListedUnderFrom(ls, Some(n));
      var k :| 0 <= k < |ls| && ls[k].relief == Some(n);
      var i, j := ListedSlot(cards, k);
    }
  }

  /** The UNCOVERED section is printed exactly when some lesson
      has no named relief teacher. */
  lemma UncoveredSectionIff(cards: seq<SickTeacherCard>)
    ensures UncoveredSection(Group(cards)) != [] <==> SomeUncovered(cards)
  {
    var b := Group(cards);
    var ls := Lessons(cards);
    GroupHolds(cards);
    if SomeUncovered(cards) {
      var i, j :| 0 <= i < |cards| && 0 <= j < |cards[i].periods| && ReliefOf(cards[i].periods[j]).None?;
      var k := SlotListed(cards, i, j);
      ListedUnderHas(ls, k);
    }
    if |b.uncovered| > 0 {
      ListedUnderFrom(ls, None);
      var k :| 0 <= k < |ls| && ls[k].relief == None;
      var i, j := ListedSlot(cards, k);
    }
  }

  /** `sortedTeachers`: the relief teachers come in name order, each of them and
      no one else. */
  lemma SortedTeachersOrder(b: Buckets)
    requires WellKept(b)
    ensures Sorted(SortedTeachers(b), StrLe)
    ensures forall n :: n in SortedTeachers(b) <==> n in b.relief
    ensures |SortedTeachers(b)| == |b.order|
  {
    SameMembers(SortedTeachers(b), b.order);
  }

  // ----- The text.

  lemma JoinCons(x: string, rest: seq<string>)
    requires |rest| >= 1
    ensures Join([x] + rest, "\n") == x + "\n" + Join(rest, "\n")
  {
    assert ([x] + rest)[1..] == rest;
  }

  lemma JoinOpening(header: string, rest: seq<string>)
    requires |rest| >= 1
    ensures Join([header, "", "ABSENT:"] + rest, "\n") == header + "\n\nABSENT:" + "\n" + Join(rest, "\n")
  {
    var r3 := ["ABSENT:"] + rest;
    var r2 := [""] + r3;
    var r1 := [header] + r2;
    ThreeCons(header, "", "ABSENT:", rest);
    JoinCons("ABSENT:", rest);
    JoinCons("", r3);
    JoinCons(header, r2);
    OpeningText(header, Join(rest, "\n"));
  }

  lemma ThreeCons<T>(a: T, b: T, c: T, rest: seq<T>)
    ensures [a] + ([b] + ([c] + rest)) == [a, b, c] + rest
  {
  }

  lemma OpeningText(header: string, tail: string)
    ensures header + "\n" + ("" + "\n" + ("ABSENT:" + "\n" + tail)) == header + "\n\nABSENT:" + "\n" + tail
  {
    var j2 := "ABSENT:" + "\n" + tail;
    assert "" + "\n" + j2 == "\n" + j2;
    assert "\n" + "\n" + "ABSENT:" == "\n\nABSENT:";
    calc {
      header + "\n" + ("\n" + j2);
      header + ("\n" + "\n" + j2);
      header + ("\n" + "\n" + "ABSENT:" + "\n" + tail);
      header + ("\n\nABSENT:" + "\n" + tail);
      header + "\n\nABSENT:" + "\n" + tail;
    }
  }

  /** Cutting trailing white space keeps a prefix that ends in a visible
      character. */
  lemma TrimEndKeeps(text: string, p: string)
    requires p <= text && p != [] && !IsSpace(p[|p| - 1])
    ensures p <= TrimEnd(text)
  {
  }

  lemma LinesShape(header: string, absent: seq<string>, relief: seq<string>, uncovered: seq<string>)
    ensures [header, "", "ABSENT:"] + absent + [""] + relief + uncovered == [header, "", "ABSENT:"] + (absent + [""] + relief + uncovered)
    ensures forall i :: 0 <= i < |absent| ==> ([header, "", "ABSENT:"] + absent + [""] + relief + uncovered)[3 + i] == absent[i]
  {
  }

  lemma SummaryLinesShape(cards: seq<SickTeacherCard>, date: string) returns (rest: seq<string>)
    ensures SummaryLines(cards, date) == [Header(date), "", "ABSENT:"] + rest && |rest| >= 1
    ensures forall i :: 0 <= i < |cards| ==> SummaryLines(cards, date)[3 + i] == "• " + cards[i].teacherName
  {
    var b := Group(cards);
    GroupWellKept(cards);
    var absent := AbsentLines(cards);
    rest := absent + [""] + ReliefSection(b) + UncoveredSection(b);
    LinesShape(Header(date), absent, ReliefSection(b), UncoveredSection(b));
  }

  /** The opening of the summary: without absent teachers the summary is empty;
      otherwise it opens with the header, a blank line and "ABSENT:", and
      lists the absent teachers in input order. */
  lemma SummaryOpening(cards: seq<SickTeacherCard>, date: string)
    ensures cards == [] <==> Summary(cards, date) == ""
    ensures cards != [] ==> Header(date) + "\n\nABSENT:" <= Summary(cards, date)
    ensures forall i :: 0 <= i < |cards| ==> SummaryLines(cards, date)[3 + i] == "• " + cards[i].teacherName
  {
    var rest := SummaryLinesShape(cards, date);
    if cards != [] {
      OpeningKept(Header(date), rest, Join(SummaryLines(cards, date), "\n"));
    }
  }

  /** Joined lines that open with the header, a blank line and "ABSENT:"
      keep that opening through `trimEnd`. */
  lemma OpeningKept(header: string, rest: seq<string>, text: string)
    requires |rest| >= 1 && text == Join([header, "", "ABSENT:"] + rest, "\n")
    ensures header + "\n\nABSENT:" <= TrimEnd(text)
  {
    var opening := header + "\n\nABSENT:";
    JoinOpening(header, rest);
    PrefixOfAppend(opening, "\n" + Join(rest, "\n"));
    assert opening + "\n" + Join(rest, "\n") == opening + ("\n" + Join(rest, "\n"));
    TrimEndKeeps(text, opening);
  }

  lemma PrefixOfAppend<T>(p: seq<T>, q: seq<T>)
    ensures p <= p + q
  {
    assert (p + q)[..|p|] == p;
  }

  // ----- The function as the program runs it, pushing lines in loops.

  /** The grouping loop into `reliefMap` and `uncovered`. */
  method GroupSlots(sickTeachers: seq<SickTeacherCard>) returns (reliefMap: map<string, seq<Item>>, order: seq<string>, uncovered: seq<Item>)
    ensures Buckets(reliefMap, order, uncovered) == Group(sickTeachers)
  {
    reliefMap, order, uncovered := map[], [], [];
    for i := 0 to |sickTeachers|
      invariant Buckets(reliefMap, order, uncovered) == Group(sickTeachers[..i])
    {
      assert sickTeachers[..i + 1][..i] == sickTeachers[..i];
      var teacher := sickTeachers[i];
      ghost var before := Buckets(reliefMap, order, uncovered);
      for j := 0 to |teacher.periods|
        invariant Buckets(reliefMap, order, uncovered) == PlaceSlots(before, teacher, teacher.periods[..j])
      {
        assert teacher.periods[..j + 1][..j] == teacher.periods[..j];
        var slot := teacher.periods[j];
        var entry := Item(slot.periodStartTime + "–" + slot.periodEndTime, slot.className, slot.subject,
                          teacher.teacherName, slot.periodStartTime);
        assert entry == ItemOf(teacher, slot);
        if slot.isCovered && slot.reliefTeacherName.Some? && slot.reliefTeacherName.value != "" {
          var name := slot.reliefTeacherName.value;
          var existing := if name in reliefMap then reliefMap[name] else [];
          existing := existing + [entry];
          assert name !in reliefMap ==> existing == [entry];
          if name !in reliefMap {
            order := order + [name];
          }
          reliefMap := reliefMap[name := existing];
        } else {
          uncovered := uncovered + [entry];
        }
      }
      assert teacher.periods[..|teacher.periods|] == teacher.periods;
    }
    assert sickTeachers[..|sickTeachers|] == sickTeachers;
  }

  /** The loop over one relief teacher's assignments. */
  method PushAssignments(lines: seq<string>, assignments: seq<Item>) returns (out: seq<string>)
    ensures out == lines + AssignmentLines(assignments)
  {
    out := lines;
    for i := 0 to |assignments|
      invariant out == lines + AssignmentLines(assignments[..i])
    {
      assert AssignmentLines(assignments[..i + 1]) == AssignmentLines(assignments[..i]) + [AssignmentLine(assignments[i])];
      out := out + [AssignmentLine(assignments[i])];
    }
    assert assignments[..|assignments|] == assignments;
  }

  /** The loop over the uncovered lessons. */
  method PushUncovered(lines: seq<string>, uncovered: seq<Item>) returns (out: seq<string>)
    ensures out == lines + UncoveredLines(uncovered)
  {
    out := lines;
    for i := 0 to |uncovered|
      invariant out == lines + UncoveredLines(uncovered[..i])
    {
      assert UncoveredLines(uncovered[..i + 1]) == UncoveredLines(uncovered[..i]) + [UncoveredLine(uncovered[i])];
      out := out + [UncoveredLine(uncovered[i])];
    }
    assert uncovered[..|uncovered|] == uncovered;
  }

  /** One relief teacher's block. */
  method PushTeacher(lines: seq<string>, teacherName: string, assignments: seq<Item>) returns (out: seq<string>)
    ensures out == lines + TeacherBlock(teacherName, assignments)
  {
    out := lines + [ToUpper(teacherName)];
    ByStartIsPreorder();
    var sorted := SortBy(assignments, ByStart);
    out := PushAssignments(out, sorted);
    out := out + [""];
  }

  lemma ReliefBlocksStep(relief: map<string, seq<Item>>, names: seq<string>, k: int)
    requires forall i :: 0 <= i < |names| ==> names[i] in relief
    requires 0 <= k < |names|
    ensures ReliefBlocks(relief, names[..k + 1]) == ReliefBlocks(relief, names[..k]) + TeacherBlock(names[k], relief[names[k]])
  {
    assert names[..k + 1][..k] == names[..k];
  }

  /** The loop over `sortedTeachers`: the blocks of the relief teachers, in the given order. */
  method PushBlocks(lines: seq<string>, reliefMap: map<string, seq<Item>>, sortedTeachers: seq<string>) returns (out: seq<string>)
    requires forall i :: 0 <= i < |sortedTeachers| ==> sortedTeachers[i] in reliefMap
    ensures out == lines + ReliefBlocks(reliefMap, sortedTeachers)
  {
    out := lines;
    for k := 0 to |sortedTeachers|
      invariant out == lines + ReliefBlocks(reliefMap, sortedTeachers[..k])
    {
      out := PushNext(lines, out, reliefMap, sortedTeachers, k);
    }
    assert sortedTeachers[..|sortedTeachers|] == sortedTeachers;
  }

  /** One turn of the loop over `sortedTeachers`. */
  method PushNext(lines: seq<string>, done: seq<string>, reliefMap: map<string, seq<Item>>, sortedTeachers: seq<string>, k: int)
      returns (out: seq<string>)
    requires forall i :: 0 <= i < |sortedTeachers| ==> sortedTeachers[i] in reliefMap
    requires 0 <= k < |sortedTeachers|
    requires done == lines + ReliefBlocks(reliefMap, sortedTeachers[..k])
    ensures out == lines + ReliefBlocks(reliefMap, sortedTeachers[..k + 1])
  {
    var teacherName := sortedTeachers[k];
    ReliefBlocksStep(reliefMap, sortedTeachers, k);
    out := PushTeacher(done, teacherName, reliefMap[teacherName]);
    AppendRegroup(lines, ReliefBlocks(reliefMap, sortedTeachers[..k]), TeacherBlock(teacherName, reliefMap[teacherName]), done, out);
  }

  lemma AppendRegroup(lines: seq<string>, front: seq<string>, back: seq<string>, done: seq<string>, out: seq<string>)
    requires done == lines + front && out == done + back
    ensures out == lines + (front + back)
  {
  }

  /** The RELIEF ASSIGNMENTS section, when there is one. */
  method PushRelief(lines: seq<string>, b: Buckets) returns (out: seq<string>)
    requires WellKept(b)
    ensures out == lines + ReliefSection(b)
  {
    out := lines;
    if |b.relief| > 0 {
      out := out + ["RELIEF ASSIGNMENTS:", ""];
      var sortedTeachers := SortedTeachers(b);
      ReliefSectionIs(b);
      out := PushBlocks(out, b.relief, sortedTeachers);
    }
  }

  lemma SortedTeachersKept(b: Buckets)
    requires WellKept(b)
    ensures forall i :: 0 <= i < |SortedTeachers(b)| ==> SortedTeachers(b)[i] in b.relief
  {
    SameMembers(SortedTeachers(b), b.order);
  }

  lemma ReliefSectionIs(b: Buckets)
    requires WellKept(b) && |b.relief| > 0
    ensures && (forall i :: 0 <= i < |SortedTeachers(b)| ==> SortedTeachers(b)[i] in b.relief)
            && ReliefSection(b) == ["RELIEF ASSIGNMENTS:", ""] + ReliefBlocks(b.relief, SortedTeachers(b))
  {
    SortedTeachersKept(b);
  }

  /** The loop over the absent teachers: one bullet line each, in order. */
  method PushAbsent(lines: seq<string>, cards: seq<SickTeacherCard>) returns (out: seq<string>)
    ensures out == lines + AbsentLines(cards)
  {
    out := lines;
    for i := 0 to |cards|
      invariant out == lines + AbsentLines(cards[..i])
    {
      assert AbsentLines(cards[..i + 1]) == AbsentLines(cards[..i]) + ["• " + cards[i].teacherName];
      out := out + ["• " + cards[i].teacherName];
    }
    assert cards[..|cards|] == cards;
  }

  /** The UNCOVERED section, pushed only when some lesson has no cover. */
  method PushUncoveredSection(lines: seq<string>, b: Buckets) returns (out: seq<string>)
    ensures out == lines + UncoveredSection(b)
  {
    out := lines;
    if |b.uncovered| > 0 {
      out := out + ["UNCOVERED:"];
      ByStartIsPreorder();
      var sorted := SortBy(b.uncovered, ByStart);
      out := PushUncovered(out, sorted);
      out := out + [""];
    }
  }

  method GenerateReliefSummary(sickTeachers: seq<SickTeacherCard>, formattedDate: string) returns (summary: string)
    ensures summary == Summary(sickTeachers, formattedDate)
  {
    if |sickTeachers| == 0 {
      return "";
    }
    var lines: seq<string> := [];
    lines := lines + ["RELIEF SUMMARY — " + formattedDate];
    lines := lines + [""];
    lines := lines + ["ABSENT:"];
    assert lines == [Header(formattedDate), "", "ABSENT:"];
    lines := PushAbsent(lines, sickTeachers);
    lines := lines + [""];
    var reliefMap, order, uncovered := GroupSlots(sickTeachers);
    var b := Buckets(reliefMap, order, uncovered);
    GroupWellKept(sickTeachers);
    lines := PushRelief(lines, b);
    lines := PushUncoveredSection(lines, b);
    summary := TrimEnd(Join(lines, "\n"));
  }
}
