/** Ordering and sorting. Prisma's `orderBy` and JavaScript's
    `Array.prototype.sort` with a `localeCompare` comparator are modelled by
    one stable insertion sort over a total preorder; string comparison is the
    lexicographic order on characters, standing for the locale collation. */
module Sorting {
  import opened Common

  /** Lexicographic order on strings (a prefix comes first). */
  predicate StrLe(a: string, b: string)
  {
    if a == [] then true
    else if b == [] then false
    else if a[0] != b[0] then a[0] < b[0]
    else StrLe(a[1..], b[1..])
  }

  lemma {:induction false} StrLeTotal(a: string, b: string)
    ensures StrLe(a, b) || StrLe(b, a)
  {
    if a != [] && b != [] && a[0] == b[0] {
      StrLeTotal(a[1..], b[1..]);
    }
  }

  lemma {:induction false} StrLeTransitive(a: string, b: string, c: string)
    requires StrLe(a, b) && StrLe(b, c)
    ensures StrLe(a, c)
  {
    if a != [] && b != [] && c != [] && a[0] == b[0] && b[0] == c[0] {
      StrLeTransitive(a[1..], b[1..], c[1..]);
    }
  }

  lemma {:induction false} StrLeAntisymmetric(a: string, b: string)
    requires StrLe(a, b) && StrLe(b, a)
    ensures a == b
  {
    if a != [] && b != [] {
      StrLeAntisymmetric(a[1..], b[1..]);
      assert a == [a[0]] + a[1..] && b == [b[0]] + b[1..];
    }
  }

  /** `le` is total and transitive: the comparators the program sorts with. */
  ghost predicate TotalPreorder<T(!new)>(le: (T, T) -> bool)
  {
    && (forall x, y :: le(x, y) || le(y, x))
    && (forall x, y, z :: le(x, y) && le(y, z) ==> le(x, z))
  }

  predicate Sorted<T>(s: seq<T>, le: (T, T) -> bool)
  {
    forall i, j :: 0 <= i < j < |s| ==> le(s[i], s[j])
  }

  /** Insert `x` into sorted `s` after every element not above it. */
  function Insert<T(!new)>(x: T, s: seq<T>, le: (T, T) -> bool): (r: seq<T>)
    requires TotalPreorder(le) && Sorted(s, le)
    ensures Sorted(r, le)
    ensures multiset(r) == multiset(s) + multiset{x}
    ensures |r| == |s| + 1
  {
    if s == [] then [x]
    else if le(s[0], x) then
      var rest := Insert(x, s[1..], le);
      assert s == [s[0]] + s[1..];
      AllAbove(s[0], s[1..], x, rest, le);
      ConsSorted(s[0], rest, le);
      [s[0]] + rest
    else
      [x] + s
  }

  /** Every element of `rest`, which holds those of `s` and `x`, is above `h`
      when they all are. */
  lemma AllAbove<T>(h: T, s: seq<T>, x: T, rest: seq<T>, le: (T, T) -> bool)
    requires multiset(rest) == multiset(s) + multiset{x}
    requires le(h, x) && forall i :: 0 <= i < |s| ==> le(h, s[i])
    ensures forall j :: 0 <= j < |rest| ==> le(h, rest[j])
  {
    forall j | 0 <= j < |rest|
      ensures le(h, rest[j])
    {
      assert rest[j] in multiset(rest);
      if rest[j] != x {
        assert rest[j] in multiset(s);
        var i :| 0 <= i < |s| && s[i] == rest[j];
      }
    }
  }

  lemma ConsSorted<T>(h: T, rest: seq<T>, le: (T, T) -> bool)
    requires Sorted(rest, le) && forall j :: 0 <= j < |rest| ==> le(h, rest[j])
    ensures Sorted([h] + rest, le)
  {
    var r := [h] + rest;
    forall i, j | 0 <= i < j < |r|
      ensures le(r[i], r[j])
    {
      assert r[j] == rest[j - 1];
      if i > 0 {
        assert r[i] == rest[i - 1];
      }
    }
  }

  /** The elements of `s` in `le` order; equal elements keep their order. */
  function SortBy<T(!new)>(s: seq<T>, le: (T, T) -> bool): (r: seq<T>)
    requires TotalPreorder(le)
    ensures Sorted(r, le)
    ensures multiset(r) == multiset(s)
    ensures |r| == |s|
  {
    if s == [] then []
    else
      assert s == s[..|s| - 1] + [s[|s| - 1]];
      Insert(s[|s| - 1], SortBy(s[..|s| - 1], le), le)
  }

  /** The elements that `le` ranks level with `c`. */
  function SameRank<T>(le: (T, T) -> bool, c: T): T -> bool
  {
    (y: T) => le(c, y) && le(y, c)
  }

  /** Filtering out every element leaves nothing. */
  lemma FilterNone<T>(s: seq<T>, p: T -> bool)
    requires forall i :: 0 <= i < |s| ==> !p(s[i])
    ensures Filter(s, p) == []
  {
  }

  /** Filtering a sequence with one more element in front. */
  lemma FilterCons<T>(h: T, t: seq<T>, p: T -> bool)
    ensures Filter([h] + t, p) == (if p(h) then [h] else []) + Filter(t, p)
  {
    FilterAppend([h], t, p);
    FilterSingle(h, p);
  }

  /** Filtering one element keeps it exactly when it passes. */
  lemma FilterSingle<T>(h: T, p: T -> bool)
    ensures Filter([h], p) == if p(h) then [h] else []
  {
    assert [h][..0] == [];
  }

  /** Nothing in a sorted `s` that starts above `x` is level with `x`. */
  lemma AboveNoneLevel<T(!new)>(x: T, s: seq<T>, le: (T, T) -> bool, c: T)
    requires TotalPreorder(le) && Sorted(s, le)
    requires s != [] && !le(s[0], x) && SameRank(le, c)(x)
    ensures Filter(s, SameRank(le, c)) == []
  {
    var p := SameRank(le, c);
    forall i | 0 <= i < |s| ensures !p(s[i]) {
      if i > 0 {
        assert le(s[0], s[i]);
      }
    }
    FilterNone(s, p);
  }

  /** Insertion puts `x` after every element of its rank: among the elements
      level with `c`, `x` comes last. */
  lemma {:induction false} InsertStable<T(!new)>(x: T, s: seq<T>, le: (T, T) -> bool, c: T)
    requires TotalPreorder(le) && Sorted(s, le)
    ensures Filter(Insert(x, s, le), SameRank(le, c))
         == Filter(s, SameRank(le, c)) + (if SameRank(le, c)(x) then [x] else [])
    decreases |s|, 1
  {
    var p := SameRank(le, c);
    if s == [] {
      FilterCons(x, [], p);
    } else if le(s[0], x) {
      InsertPastHead(x, s, le, c);
    } else {
      assert Insert(x, s, le) == [x] + s;
      FilterCons(x, s, p);
      if p(x) {
        AboveNoneLevel(x, s, le, c);
      }
    }
  }

  /** `InsertStable` when `x` goes after the head of `s`. */
  lemma {:induction false} InsertPastHead<T(!new)>(x: T, s: seq<T>, le: (T, T) -> bool, c: T)
    requires TotalPreorder(le) && Sorted(s, le) && s != [] && le(s[0], x)
    ensures Filter(Insert(x, s, le), SameRank(le, c))
         == Filter(s, SameRank(le, c)) + (if SameRank(le, c)(x) then [x] else [])
    decreases |s|, 0
  {
    var p := SameRank(le, c);
    var rest := Insert(x, s[1..], le);
    assert Insert(x, s, le) == [s[0]] + rest;
    InsertStable(x, s[1..], le, c);
    FilterConsBoth(s[0], s[1..], rest, if p(x) then [x] else [], p);
    assert s == [s[0]] + s[1..];
  }

  /** Putting the same element in front of two sequences keeps an equation
      between their filtered forms. */
  lemma FilterConsBoth<T>(h: T, t: seq<T>, u: seq<T>, extra: seq<T>, p: T -> bool)
    requires Filter(u, p) == Filter(t, p) + extra
    ensures Filter([h] + u, p) == Filter([h] + t, p) + extra
  {
    var a := if p(h) then [h] else [];
    FilterCons(h, u, p);
    FilterCons(h, t, p);
    Regroup(a, Filter(t, p), extra);
  }

  /** Concatenation is associative. */
  lemma Regroup<T>(a: seq<T>, b: seq<T>, c: seq<T>)
    ensures a + (b + c) == (a + b) + c
  {
  }


  /** `SortBy` is stable: the elements of any one rank appear in the result
      exactly as, and in the order, they appear in the input. */
  lemma {:induction false} SortByStable<T(!new)>(s: seq<T>, le: (T, T) -> bool, c: T)
    requires TotalPreorder(le)
    ensures Filter(SortBy(s, le), SameRank(le, c)) == Filter(s, SameRank(le, c))
  {
    if s != [] {
      var init := s[..|s| - 1];
      SortByStable(init, le, c);
      InsertStable(s[|s| - 1], SortBy(init, le), le, c);
    }
  }

  /** Ordering by an integer key is a total preorder. */
  lemma IntKeyOrder<T(!new)>(le: (T, T) -> bool, key: T -> int)
    requires forall x, y :: le(x, y) == (key(x) <= key(y))
    ensures TotalPreorder(le)
  {
  }

  /** Ordering by a string key is a total preorder. */
  lemma StrKeyOrder<T(!new)>(le: (T, T) -> bool, key: T -> string)
    requires forall x, y :: le(x, y) == StrLe(key(x), key(y))
    ensures TotalPreorder(le)
  {
    forall x, y ensures le(x, y) || le(y, x) {
      StrLeTotal(key(x), key(y));
    }
    forall x, y, z | le(x, y) && le(y, z) ensures le(x, z) {
      StrLeTransitive(key(x), key(y), key(z));
    }
  }

  /** Filtering a sorted sequence leaves it sorted. */
  lemma {:induction false} FilterSorted<T>(s: seq<T>, p: T -> bool, le: (T, T) -> bool)
    requires Sorted(s, le)
    ensures Sorted(Filter(s, p), le)
  {
    if s != [] {
      var init := s[..|s| - 1];
      FilterSorted(init, p, le);
      var r := Filter(init, p);
      forall i | 0 <= i < |r| ensures le(r[i], s[|s| - 1]) {
        var k :| 0 <= k < |init| && init[k] == r[i];
      }
    }
  }
}
