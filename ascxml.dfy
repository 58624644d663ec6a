/** `parseAscXml`: an aSc Timetables XML export, already split by the XML
    parser into element records, becomes the teachers, periods and entries of
    one import. An attribute the element lacks is the empty string, which is
    what every `getAttribute(…) || ""` of the source turns a missing one into. */
module AscXml {
  import opened Common
  import opened Domain
  import opened JsString

  datatype PeriodEl = PeriodEl(period: string, starttime: string, endtime: string)
  datatype TeacherEl = TeacherEl(id: string, firstname: string, lastname: string, short: string)
  /** A `<subject>` or a `<class>`. */
  datatype NamedEl = NamedEl(id: string, short: string, name: string)
  datatype LessonEl = LessonEl(id: string, teacherids: string, subjectid: string, classids: string)
  datatype CardEl = CardEl(lessonid: string, period: string, days: string)

  /** The document, or the `parsererror` the XML parser reports instead. */
  datatype Xml =
    | Malformed
    | Document(periods: seq<PeriodEl>, teachers: seq<TeacherEl>, subjects: seq<NamedEl>,
               classes: seq<NamedEl>, lessons: seq<LessonEl>, cards: seq<CardEl>)

  datatype ParsedTeacher = ParsedTeacher(name: string)
  datatype ParsedPeriod = ParsedPeriod(number: int, startTime: string, endTime: string)
  /** `periodNumber` is `None` where the card's period text parses to `NaN`. */
  datatype ParsedEntry = ParsedEntry(
    teacherName: string, dayOfWeek: int, periodNumber: Option<int>,
    className: string, subject: string, weekType: WeekType)
  datatype ParseResult = ParseResult(teachers: seq<ParsedTeacher>, periods: seq<ParsedPeriod>, entries: seq<ParsedEntry>)

  /** The result, or the error thrown for a malformed document. */
  datatype Parsed = ParseFailed | Parsed(result: ParseResult)

  /** `x || fallback`. */
  function OrElse(x: string, fallback: string): string
  {
    if x != "" then x else fallback
  }

  /** `parseInt(attr || "0", 10)`. */
  function NumberAttr(attr: string): Option<int>
  {
    ParseInt10(if attr != "" then attr else "0")
  }

  // ---------------------------------------------------------------- periods

  /** A period is kept when its number is positive and both times are given. */
  function PeriodOf(el: PeriodEl): (r: Option<ParsedPeriod>)
    ensures r.Some? <==> (&& NumberAttr(el.period).Some? && NumberAttr(el.period).value > 0
                          && el.starttime != "" && el.endtime != "")
    ensures r.Some? ==> r.value == ParsedPeriod(NumberAttr(el.period).value, el.starttime, el.endtime)
  {
    var num := NumberAttr(el.period);
    if num.Some? && num.value > 0 && el.starttime != "" && el.endtime != "" then
      Some(ParsedPeriod(num.value, el.starttime, el.endtime))
    else None
  }

  /** The kept periods, in document order. */
  function Periods(els: seq<PeriodEl>): seq<ParsedPeriod>
  {
    FilterMap(els, PeriodOf)
  }

  /** Exactly the periods with a positive number and both times are kept,
      one for each such element. */
  lemma PeriodsKept(els: seq<PeriodEl>)
    ensures forall p :: p in Periods(els) ==> p.number > 0 && p.startTime != "" && p.endTime != ""
    ensures forall i :: 0 <= i < |els| && PeriodOf(els[i]).Some? ==> PeriodOf(els[i]).value in Periods(els)
    ensures |Periods(els)| == Count(els, Defined(PeriodOf))
  {
    FilterMapLength(els, PeriodOf);
    var r := Periods(els);
    forall p | p in r ensures p.number > 0 && p.startTime != "" && p.endTime != "" {
      var j :| 0 <= j < |r| && r[j] == p;
      var i :| 0 <= i < |els| && PeriodOf(els[i]) == Some(p);
    }
  }

  method ParsePeriods(els: seq<PeriodEl>) returns (periods: seq<ParsedPeriod>)
    ensures periods == Periods(els)
  {
    periods := [];
    for i := 0 to |els|
      invariant periods == Periods(els[..i])
    {
      var period := PeriodOf(els[i]);
      if period.Some? {
        periods := periods + [period.value];
      }
      assert els[..i + 1][..i] == els[..i];
    }
    assert els[..|els|] == els;
  }

  // --------------------------------------------------------------- teachers

  /** "first last" when both trimmed names are given, else the last name,
      else the first name, else the short code. */
  function TeacherName(el: TeacherEl): string
  {
    var first, last, short := Trim(el.firstname), Trim(el.lastname), Trim(el.short);
    if first != "" && last != "" then first + " " + last
    else if last != "" then last
    else if first != "" then first
    else short
  }

  /** The id and name an element registers, when both are non-empty. */
  function TeacherPair(el: TeacherEl): Option<(string, string)>
  {
    if el.id != "" && TeacherName(el) != "" then Some((el.id, TeacherName(el))) else None
  }

  function NamedTeacher(el: TeacherEl): Option<ParsedTeacher>
  {
    if TeacherPair(el).Some? then Some(ParsedTeacher(TeacherName(el))) else None
  }

  function NameKey(t: ParsedTeacher): string { t.name }

  /** `teacherMap`: id to name, a later element replacing an earlier one. */
  function TeacherIndex(els: seq<TeacherEl>): map<string, string>
  {
    Indexed(els, TeacherPair)
  }

  /** The names registered, one per element with a non-empty id and name, in
      document order. */
  function Registered(els: seq<TeacherEl>): seq<ParsedTeacher>
  {
    FilterMap(els, NamedTeacher)
  }

  /** `teachers`: each registered name once, at its first occurrence. */
  function TeacherList(els: seq<TeacherEl>): seq<ParsedTeacher>
  {
    DedupOn(Registered(els), NameKey)
  }

  /** The names of the teachers `ts`. */
  function Names(ts: seq<ParsedTeacher>): set<string>
  {
    set j | 0 <= j < |ts| :: ts[j].name
  }

  lemma NamesSnoc(ts: seq<ParsedTeacher>, t: ParsedTeacher)
    ensures Names(ts + [t]) == Names(ts) + {t.name}
  {
    assert (ts + [t])[|ts|].name == t.name;
    forall n | n in Names(ts + [t])
      ensures n in Names(ts) + {t.name}
    {
      var j :| 0 <= j < |ts| + 1 && (ts + [t])[j].name == n;
      if j < |ts| {
        assert ts[j].name == n;
      }
    }
    forall n | n in Names(ts)
      ensures n in Names(ts + [t])
    {
      var j :| 0 <= j < |ts| && ts[j].name == n;
      assert (ts + [t])[j].name == n;
    }
  }

  /** How one more element extends the index and the list. */
  lemma TeacherStep(els: seq<TeacherEl>, i: int)
    requires 0 <= i < |els|
    ensures TeacherIndex(els[..i + 1]) ==
      if TeacherPair(els[i]).None? then TeacherIndex(els[..i]) else TeacherIndex(els[..i])[els[i].id := TeacherName(els[i])]
    ensures TeacherList(els[..i + 1]) ==
      if TeacherPair(els[i]).None? then TeacherList(els[..i])
      else if TeacherName(els[i]) in Names(TeacherList(els[..i])) then TeacherList(els[..i])
      else TeacherList(els[..i]) + [ParsedTeacher(TeacherName(els[i]))]
  {
    var prefix := els[..i];
    assert els[..i + 1] == prefix + [els[i]];
    IndexedSnoc(prefix, els[i], TeacherPair);
    FilterMapSnoc(prefix, els[i], NamedTeacher);
    var list := TeacherList(prefix);
    DedupSnoc(Registered(prefix), ParsedTeacher(TeacherName(els[i])), NameKey);
    assert TeacherName(els[i]) in Names(list) <==> exists j :: 0 <= j < |list| && NameKey(list[j]) == TeacherName(els[i]);
  }

  /** The teachers loop of `parseAscXml`, with the `teacherNames` set. */
  method ParseTeachers(els: seq<TeacherEl>) returns (index: map<string, string>, teachers: seq<ParsedTeacher>)
    ensures index == TeacherIndex(els)
    ensures teachers == TeacherList(els)
  {
    index, teachers := map[], [];
    var seen: set<string> := {};
    for i := 0 to |els|
      invariant index == TeacherIndex(els[..i])
      invariant teachers == TeacherList(els[..i])
      invariant seen == Names(teachers)
    {
      var el := els[i];
      var name := TeacherName(el);
      TeacherStep(els, i);
      if el.id != "" && name != "" {
        index := index[el.id := name];
        if name !in seen {
          NamesSnoc(teachers, ParsedTeacher(name));
          seen := seen + {name};
          teachers := teachers + [ParsedTeacher(name)];
        }
      }
    }
    assert els[..|els|] == els;
  }

  // ------------------------------------------------ subjects, classes, lessons

  /** `short || name`, registered under a non-empty id when not empty. */
  function ShortPair(el: NamedEl): Option<(string, string)>
  {
    var short := OrElse(el.short, el.name);
    if el.id != "" && short != "" then Some((el.id, short)) else None
  }

  /** `subjectMap` and `classMap`. */
  function ShortIndex(els: seq<NamedEl>): map<string, string>
  {
    Indexed(els, ShortPair)
  }

  method ParseShortNames(els: seq<NamedEl>) returns (index: map<string, string>)
    ensures index == ShortIndex(els)
  {
    index := map[];
    for i := 0 to |els|
      invariant index == ShortIndex(els[..i])
    {
      var el := els[i];
      var short := OrElse(el.short, el.name);
      if el.id != "" && short != "" {
        index := index[el.id := short];
      }
      assert els[..i + 1] == els[..i] + [el];
      IndexedSnoc(els[..i], el, ShortPair);
    }
    assert els[..|els|] == els;
  }

  datatype LessonInfo = LessonInfo(teacherIds: seq<string>, subjectId: string, classIds: seq<string>)

  /** A lesson is registered under a non-empty id with at least one teacher. */
  function LessonPair(el: LessonEl): Option<(string, LessonInfo)>
  {
    var teacherIds := SplitNonEmpty(el.teacherids, ',');
    if el.id != "" && |teacherIds| > 0 then Some((el.id, LessonInfo(teacherIds, el.subjectid, SplitNonEmpty(el.classids, ','))))
    else None
  }

  /** `lessonMap`. */
  function LessonIndex(els: seq<LessonEl>): map<string, LessonInfo>
  {
    Indexed(els, LessonPair)
  }

  lemma LessonStep(els: seq<LessonEl>, i: int)
    requires 0 <= i < |els|
    ensures LessonIndex(els[..i + 1]) ==
      if LessonPair(els[i]).None? then LessonIndex(els[..i]) else LessonIndex(els[..i])[els[i].id := LessonPair(els[i]).value.1]
  {
    assert els[..i + 1] == els[..i] + [els[i]];
    IndexedSnoc(els[..i], els[i], LessonPair);
  }

  method ParseLessons(els: seq<LessonEl>) returns (index: map<string, LessonInfo>)
    ensures index == LessonIndex(els)
  {
    index := map[];
    for i := 0 to |els|
      invariant index == LessonIndex(els[..i])
    {
      var el := els[i];
      var teacherIds := SplitNonEmpty(el.teacherids, ',');
      var subjectId := el.subjectid;
      var classIds := SplitNonEmpty(el.classids, ',');
      if el.id != "" && |teacherIds| > 0 {
        index := index[el.id := LessonInfo(teacherIds, subjectId, classIds)];
      }
      LessonStep(els, i);
    }
    assert els[..|els|] == els;
  }

  /** Every registered lesson has at least one teacher id, none of them empty. */
  lemma LessonsHaveTeachers(els: seq<LessonEl>, id: string)
    requires id in LessonIndex(els)
    ensures |LessonIndex(els)[id].teacherIds| > 0 && id != ""
    ensures forall k :: 0 <= k < |LessonIndex(els)[id].teacherIds| ==> LessonIndex(els)[id].teacherIds[k] != ""
  {
    IndexedLast(els, LessonPair, id);
  }

  // ------------------------------------------------------------------ cards

  /** The look-ups the cards are expanded with. */
  datatype Lookups = Lookups(
    teachers: map<string, string>, subjects: map<string, string>,
    classes: map<string, string>, lessons: map<string, LessonInfo>)

  /** `days.indexOf("1") + 1`: the first day the bitmask marks, 0 for none. */
  function CardDay(card: CardEl): (day: int)
    ensures 0 <= day <= |card.days|
    ensures day >= 1 ==> card.days[day - 1] == '1' && '1' !in card.days[..day - 1]
    ensures day == 0 <==> '1' !in card.days
  {
    IndexOf(card.days, '1') + 1
  }

  /** `subjectMap.get(subjectId) || "Unknown"`. */
  function SubjectName(lk: Lookups, subjectId: string): string
  {
    if subjectId in lk.subjects && lk.subjects[subjectId] != "" then lk.subjects[subjectId] else "Unknown"
  }

  /** `classIds.map((cid) => classMap.get(cid) || "Unknown").join(", ")`. */
  function ClassName(lk: Lookups, classIds: seq<string>): string
  {
    Join(seq(|classIds|, i requires 0 <= i < |classIds| =>
           if classIds[i] in lk.classes && lk.classes[classIds[i]] != "" then lk.classes[classIds[i]] else "Unknown"), ", ")
  }

  /** The entry a lesson teacher id yields on a card, if it names a teacher. */
  function EntryFor(lk: Lookups, tid: string, day: int, period: Option<int>, className: string, subject: string, weekType: WeekType): Option<ParsedEntry>
  {
    if tid in lk.teachers && lk.teachers[tid] != "" then
      Some(ParsedEntry(lk.teachers[tid], day, period, className, subject, weekType))
    else None
  }

  /** The entries of the lesson teacher ids `tids` that name a teacher, in order. */
  function LessonEntries(lk: Lookups, tids: seq<string>, day: int, period: Option<int>, className: string, subject: string, weekType: WeekType): seq<ParsedEntry>
  {
    if tids == [] then []
    else
      LessonEntries(lk, tids[..|tids| - 1], day, period, className, subject, weekType)
      + match EntryFor(lk, tids[|tids| - 1], day, period, className, subject, weekType)
        case Some(e) => [e]
        case None => []
  }

  /** The card is expanded: its lesson is known, its period is not 0 and its
      day lies in Monday..Friday. */
  predicate Expands(lk: Lookups, card: CardEl)
  {
    card.lessonid in lk.lessons && NumberAttr(card.period) != Some(0) && 1 <= CardDay(card) <= 5
  }

  /** The entries of one card: one per lesson teacher id that names a teacher. */
  function CardEntries(lk: Lookups, card: CardEl, weekType: WeekType): seq<ParsedEntry>
  {
    if !Expands(lk, card) then []
    else
      var lesson := lk.lessons[card.lessonid];
      var className, subject := ClassName(lk, lesson.classIds), SubjectName(lk, lesson.subjectId);
      LessonEntries(lk, lesson.teacherIds, CardDay(card), NumberAttr(card.period), className, subject, weekType)
  }

  /** The entries of all cards, card after card. */
  function Expand(lk: Lookups, cards: seq<CardEl>, weekType: WeekType): seq<ParsedEntry>
  {
    if cards == [] then [] else Expand(lk, cards[..|cards| - 1], weekType) + CardEntries(lk, cards[|cards| - 1], weekType)
  }

  /** The inner loop over a lesson's teacher ids: one entry per id that
      names a teacher. */
  method TeacherEntries(lk: Lookups, tids: seq<string>, day: int, period: Option<int>, className: string, subject: string, weekType: WeekType)
    returns (entries: seq<ParsedEntry>)
    ensures entries == LessonEntries(lk, tids, day, period, className, subject, weekType)
  {
    entries := [];
    for j := 0 to |tids|
      invariant entries == LessonEntries(lk, tids[..j], day, period, className, subject, weekType)
    {
      var tid := tids[j];
      assert tids[..j + 1][..j] == tids[..j];
      if tid in lk.teachers && lk.teachers[tid] != "" {
        entries := entries + [ParsedEntry(lk.teachers[tid], day, period, className, subject, weekType)];
      }
    }
    assert tids[..|tids|] == tids;
  }

  /** One turn of the cards loop of `parseAscXml`: the card's entries. */
  method ExpandCard(lk: Lookups, card: CardEl, weekType: WeekType) returns (entries: seq<ParsedEntry>)
    ensures entries == CardEntries(lk, card, weekType)
  {
    var periodNum := NumberAttr(card.period);
    if card.lessonid !in lk.lessons || periodNum == Some(0) {
      return [];
    }
    var lesson := lk.lessons[card.lessonid];
    var dayOfWeek := IndexOf(card.days, '1') + 1;
    assert dayOfWeek == CardDay(card);
    if dayOfWeek < 1 || dayOfWeek > 5 {
      return [];
    }
    assert Expands(lk, card);
    var subjectName := SubjectName(lk, lesson.subjectId);
    var className := ClassName(lk, lesson.classIds);
    entries := TeacherEntries(lk, lesson.teacherIds, dayOfWeek, periodNum, className, subjectName, weekType);
  }

  /** The cards loop of `parseAscXml`, over all cards. */
  method ExpandCards(lk: Lookups, cards: seq<CardEl>, weekType: WeekType) returns (entries: seq<ParsedEntry>)
    ensures entries == Expand(lk, cards, weekType)
  {
    entries := [];
    for i := 0 to |cards|
      invariant entries == Expand(lk, cards[..i], weekType)
    {
      var cardEntries := ExpandCard(lk, cards[i], weekType);
      assert cards[..i + 1][..i] == cards[..i];
      entries := entries + cardEntries;
    }
    assert cards[..|cards|] == cards;
  }

  /** The entry the `k`-th teacher id of an expanded card's lesson yields. */
  function CardEntry(lk: Lookups, card: CardEl, k: int, weekType: WeekType): Option<ParsedEntry>
    requires Expands(lk, card) && 0 <= k < |lk.lessons[card.lessonid].teacherIds|
  {
    var lesson := lk.lessons[card.lessonid];
    EntryFor(lk, lesson.teacherIds[k], CardDay(card), NumberAttr(card.period),
             ClassName(lk, lesson.classIds), SubjectName(lk, lesson.subjectId), weekType)
  }

  lemma {:induction false} LessonEntriesSource(lk: Lookups, tids: seq<string>, day: int, period: Option<int>,
                                               className: string, subject: string, weekType: WeekType, e: ParsedEntry)
    returns (k: int)
    requires e in LessonEntries(lk, tids, day, period, className, subject, weekType)
    ensures 0 <= k < |tids| && EntryFor(lk, tids[k], day, period, className, subject, weekType) == Some(e)
  {
    var init := tids[..|tids| - 1];
    if e in LessonEntries(lk, init, day, period, className, subject, weekType) {
      k := LessonEntriesSource(lk, init, day, period, className, subject, weekType, e);
      assert tids[k] == init[k];
    } else {
      k := |tids| - 1;
    }
  }

  lemma {:induction false} LessonEntriesComplete(lk: Lookups, tids: seq<string>, day: int, period: Option<int>,
                                                 className: string, subject: string, weekType: WeekType, k: int)
    requires 0 <= k < |tids| && EntryFor(lk, tids[k], day, period, className, subject, weekType).Some?
    ensures EntryFor(lk, tids[k], day, period, className, subject, weekType).value
              in LessonEntries(lk, tids, day, period, className, subject, weekType)
  {
    var init := tids[..|tids| - 1];
    if k < |tids| - 1 {
      assert init[k] == tids[k];
      LessonEntriesComplete(lk, init, day, period, className, subject, weekType, k);
    }
  }

  /** Every entry comes from an expanded card (known lesson, period other than
      0, day in Monday..Friday) and from one of its lesson's teacher ids that
      names a teacher. */
  lemma {:induction false} ExpandSource(lk: Lookups, cards: seq<CardEl>, weekType: WeekType, e: ParsedEntry)
    returns (i: int, k: int)
    requires e in Expand(lk, cards, weekType)
    ensures 0 <= i < |cards| && Expands(lk, cards[i])
    ensures 0 <= k < |lk.lessons[cards[i].lessonid].teacherIds| && CardEntry(lk, cards[i], k, weekType) == Some(e)
  {
    var init := cards[..|cards| - 1];
    if e in Expand(lk, init, weekType) {
      i, k := ExpandSource(lk, init, weekType, e);
      assert cards[i] == init[i];
    } else {
      i := |cards| - 1;
      var card := cards[i];
      var lesson := lk.lessons[card.lessonid];
      k := LessonEntriesSource(lk, lesson.teacherIds, CardDay(card), NumberAttr(card.period),
                               ClassName(lk, lesson.classIds), SubjectName(lk, lesson.subjectId), weekType, e);
    }
  }

  /** Conversely, every teacher id of an expanded card that names a teacher
      yields its entry. */
  lemma {:induction false} ExpandComplete(lk: Lookups, cards: seq<CardEl>, weekType: WeekType, i: int, k: int)
    requires 0 <= i < |cards| && Expands(lk, cards[i])
    requires 0 <= k < |lk.lessons[cards[i].lessonid].teacherIds| && CardEntry(lk, cards[i], k, weekType).Some?
    ensures CardEntry(lk, cards[i], k, weekType).value in Expand(lk, cards, weekType)
  {
    var init := cards[..|cards| - 1];
    if i < |cards| - 1 {
      assert init[i] == cards[i];
      ExpandComplete(lk, init, weekType, i, k);
    } else {
      var card := cards[i];
      var lesson := lk.lessons[card.lessonid];
      LessonEntriesComplete(lk, lesson.teacherIds, CardDay(card), NumberAttr(card.period),
                            ClassName(lk, lesson.classIds), SubjectName(lk, lesson.subjectId), weekType, k);
    }
  }

  /** No two listed teachers share a name. */
  lemma TeacherNamesUnique(els: seq<TeacherEl>)
    ensures forall p, q :: 0 <= p < q < |TeacherList(els)| ==> TeacherList(els)[p].name != TeacherList(els)[q].name
  {
    var r := TeacherList(els);
    assert UniqueKeys(r, NameKey);
    forall p, q | 0 <= p < q < |r|
      ensures r[p].name != r[q].name
    {
      assert NameKey(r[p]) != NameKey(r[q]);
    }
  }

  /** Each listed name is that of an element with a non-empty id and name. */
  lemma ListedTeacherSource(els: seq<TeacherEl>, t: ParsedTeacher) returns (i: int)
    requires t in TeacherList(els)
    ensures 0 <= i < |els| && els[i].id != "" && TeacherName(els[i]) != "" && TeacherName(els[i]) == t.name
  {
    var cands := Registered(els);
    assert t in cands;
    var j :| 0 <= j < |cands| && cands[j] == t;
    i :| 0 <= i < |els| && NamedTeacher(els[i]) == Some(cands[j]);
  }

  /** Each element with a non-empty id and name has its name listed. */
  lemma RegisteredTeacherListed(els: seq<TeacherEl>, i: int)
    requires 0 <= i < |els| && els[i].id != "" && TeacherName(els[i]) != ""
    ensures TeacherName(els[i]) in Names(TeacherList(els))
  {
    var cands, r := Registered(els), TeacherList(els);
    var t := ParsedTeacher(TeacherName(els[i]));
    assert NamedTeacher(els[i]) == Some(t);
    assert t in cands;
    assert NameKey(t) in Keys(cands, NameKey);
    var x :| x in r && NameKey(x) == NameKey(t);
    var p :| 0 <= p < |r| && r[p] == x;
    assert r[p].name == t.name;
  }

  /** The list keeps first occurrences in document order: a listed teacher is
      registered before every registration of a later-listed name. */
  lemma TeachersInFirstOccurrenceOrder(els: seq<TeacherEl>, p: int, q: int)
    requires 0 <= p < q < |TeacherList(els)|
    ensures forall j :: 0 <= j < |Registered(els)| && Registered(els)[j].name == TeacherList(els)[q].name ==>
      exists i :: 0 <= i < j && Registered(els)[i] == TeacherList(els)[p]
  {
    DedupOrder(Registered(els), NameKey, p, q);
  }

  /** A name the id index holds is a listed teacher's name. */
  lemma IndexedTeacherListed(els: seq<TeacherEl>, id: string)
    requires id in TeacherIndex(els)
    ensures TeacherIndex(els)[id] != "" && TeacherIndex(els)[id] in Names(TeacherList(els))
  {
    IndexedLast(els, TeacherPair, id);
    var i :| 0 <= i < |els| && TeacherPair(els[i]) == Some((id, TeacherIndex(els)[id]));
    RegisteredTeacherListed(els, i);
  }

  // ------------------------------------------------------------------ whole

  function LookupsOf(doc: Xml): Lookups
    requires doc.Document?
  {
    Lookups(TeacherIndex(doc.teachers), ShortIndex(doc.subjects), ShortIndex(doc.classes), LessonIndex(doc.lessons))
  }

  /** What `parseAscXml(xml, weekType)` returns, or its throw. */
  function Parse(xml: Xml, weekType: WeekType): (r: Parsed)
    ensures r.ParseFailed? <==> xml.Malformed?
  {
    match xml
    case Malformed => ParseFailed
    case Document(_, _, _, _, _, _) =>
      Parsed(ParseResult(TeacherList(xml.teachers), Periods(xml.periods), Expand(LookupsOf(xml), xml.cards, weekType)))
  }

  method ParseAscXml(xml: Xml, weekType: WeekType) returns (r: Parsed)
    ensures r == Parse(xml, weekType)
  {
    if xml.Malformed? {
      return ParseFailed;
    }
    var periods := ParsePeriods(xml.periods);
    var teacherMap, teachers := ParseTeachers(xml.teachers);
    var subjectMap := ParseShortNames(xml.subjects);
    var classMap := ParseShortNames(xml.classes);
    var lessonMap := ParseLessons(xml.lessons);
    var entries := ExpandCards(Lookups(teacherMap, subjectMap, classMap, lessonMap), xml.cards, weekType);
    return Parsed(ParseResult(teachers, periods, entries));
  }

  /** Every entry of a parsed document falls on Monday..Friday, carries the
      requested week type and a period number other than 0, and names a
      teacher of the parsed teacher list. */
  lemma ParsedEntryWellFormed(xml: Xml, weekType: WeekType, e: ParsedEntry)
    requires xml.Document? && e in Parse(xml, weekType).result.entries
    ensures 1 <= e.dayOfWeek <= 5 && e.weekType == weekType && e.periodNumber != Some(0)
    ensures e.teacherName in Names(Parse(xml, weekType).result.teachers)
  {
    var lk := LookupsOf(xml);
    var i, k := ExpandSource(lk, xml.cards, weekType, e);
    var tid := lk.lessons[xml.cards[i].lessonid].teacherIds[k];
    assert tid in lk.teachers && e.teacherName == lk.teachers[tid];
    IndexedTeacherListed(xml.teachers, tid);
  }
}
