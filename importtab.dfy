/** `mergeParseResults` of the import tab: the parse results of the ODD-week
    and the EVEN-week export become one import, teachers de-duplicated by
    name and periods by number with the ODD file's first, entries of both
    kept. */
module ImportMerge {
  import opened Common
  import opened AscXml

  datatype Merged = Merged(
    teachers: seq<ParsedTeacher>, periods: seq<ParsedPeriod>, entries: seq<ParsedEntry>,
    oddEntryCount: nat, evenEntryCount: nat)

  function PeriodKey(p: ParsedPeriod): int { p.number }

  /** What `mergeParseResults(odd, even)` returns; the entries are the ODD
      file's followed by the EVEN file's, as the two counts say. */
  function MergedOf(odd: ParseResult, even: ParseResult): (m: Merged)
    ensures |m.entries| == m.oddEntryCount + m.evenEntryCount
    ensures m.entries[..m.oddEntryCount] == odd.entries && m.entries[m.oddEntryCount..] == even.entries
  {
    var entries := odd.entries + even.entries;
    assert entries[..|odd.entries|] == odd.entries && entries[|odd.entries|..] == even.entries;
    Merged(DedupOn(odd.teachers + even.teachers, NameKey), DedupOn(odd.periods + even.periods, PeriodKey),
           entries, |odd.entries|, |even.entries|)
  }

  /** The `seen`-set loops of `mergeParseResults`: the first element of each
      key, in order. */
  method KeepFirst<T, K(==)>(s: seq<T>, key: T -> K) returns (kept: seq<T>)
    ensures kept == DedupOn(s, key)
  {
    kept := [];
    var seen: set<K> := {};
    for i := 0 to |s|
      invariant kept == DedupOn(s[..i], key)
      invariant seen == Keys(kept, key)
    {
      DedupStep(s, key, i);
      if key(s[i]) !in seen {
        seen := seen + {key(s[i])};
        kept := kept + [s[i]];
      }
    }
    assert s[..|s|] == s;
  }

  method MergeParseResults(odd: ParseResult, even: ParseResult) returns (m: Merged)
    ensures m == MergedOf(odd, even)
  {
    var teachers := KeepFirst(odd.teachers + even.teachers, NameKey);
    var periods := KeepFirst(odd.periods + even.periods, PeriodKey);
    m := Merged(teachers, periods, odd.entries + even.entries, |odd.entries|, |even.entries|);
  }

  /** No two merged teachers share a name, and the ODD file's teachers come
      first, de-duplicated in their own order. */
  lemma MergedTeachers(odd: ParseResult, even: ParseResult)
    ensures forall p, q :: 0 <= p < q < |MergedOf(odd, even).teachers| ==>
      MergedOf(odd, even).teachers[p].name != MergedOf(odd, even).teachers[q].name
    ensures |DedupOn(odd.teachers, NameKey)| <= |MergedOf(odd, even).teachers|
    ensures MergedOf(odd, even).teachers[..|DedupOn(odd.teachers, NameKey)|] == DedupOn(odd.teachers, NameKey)
  {
    var r := MergedOf(odd, even).teachers;
    DedupPrefix(odd.teachers, even.teachers, NameKey);
    forall p, q | 0 <= p < q < |r|
      ensures r[p].name != r[q].name
    {
      assert NameKey(r[p]) != NameKey(r[q]);
    }
  }

  /** Every teacher name of either file is among the merged ones. */
  lemma MergedTeachersComplete(odd: ParseResult, even: ParseResult, t: ParsedTeacher)
    requires t in odd.teachers || t in even.teachers
    ensures t.name in Names(MergedOf(odd, even).teachers)
  {
    var all := odd.teachers + even.teachers;
    var r := MergedOf(odd, even).teachers;
    assert t in all;
    assert NameKey(t) in Keys(all, NameKey);
    var x :| x in r && NameKey(x) == NameKey(t);
    var p :| 0 <= p < |r| && r[p] == x;
    assert r[p].name == t.name;
  }

  /** No two merged periods share a number, and a number the ODD file has
      keeps the ODD file's (first) period of that number. */
  lemma MergedPeriods(odd: ParseResult, even: ParseResult, x: ParsedPeriod)
    requires x in MergedOf(odd, even).periods
    ensures forall y :: y in MergedOf(odd, even).periods && y.number == x.number ==> y == x
    ensures (exists q :: q in odd.periods && q.number == x.number) ==>
      exists i :: 0 <= i < |odd.periods| && odd.periods[i] == x && forall j :: 0 <= j < i ==> odd.periods[j].number != x.number
  {
    var all := odd.periods + even.periods;
    var r := MergedOf(odd, even).periods;
    forall y | y in r && y.number == x.number
      ensures y == x
    {
      var a :| 0 <= a < |r| && r[a] == x;
      var b :| 0 <= b < |r| && r[b] == y;
      assert PeriodKey(r[a]) == PeriodKey(r[b]);
    }
    if exists q :: q in odd.periods && q.number == x.number {
      var q :| q in odd.periods && q.number == x.number;
      var k :| 0 <= k < |odd.periods| && odd.periods[k] == q;
      DedupKeepsFirst(all, PeriodKey, x);
      var i :| 0 <= i < |all| && all[i] == x && forall j :: 0 <= j < i ==> PeriodKey(all[j]) != PeriodKey(x);
      assert all[k] == q;
      assert i <= k;
      assert odd.periods[i] == x;
      forall j | 0 <= j < i
        ensures odd.periods[j].number != x.number
      {
        assert all[j] == odd.periods[j];
      }
    }
  }
}
