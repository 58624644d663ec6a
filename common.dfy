/** Generic helpers shared by the whole model: optional values and the
    order-preserving sequence operations (find, filter, de-duplicate) that
    the program performs with `Array.prototype.find`/`filter`, Prisma
    look-ups and `Set`-guarded `push` loops. */
module Common {

  datatype Option<+T> = None | Some(value: T)

  /** The first element of `s` satisfying `p` (`Array.prototype.find`,
      Prisma `findFirst`/`findUnique` over an in-memory table). */
  function First<T>(s: seq<T>, p: T -> bool): (r: Option<T>)
    ensures r.Some? ==> r.value in s && p(r.value)
    ensures r.None? <==> forall i :: 0 <= i < |s| ==> !p(s[i])
    ensures r.Some? ==> exists i :: 0 <= i < |s| && s[i] == r.value && forall j :: 0 <= j < i ==> !p(s[j])
  {
    if s == [] then None
    else if p(s[0]) then Some(s[0])
    else
      var r := First(s[1..], p);
      assert r.Some? ==> exists i :: 1 <= i < |s| && s[i] == r.value && forall j :: 1 <= j < i ==> !p(s[j]) by {
        if r.Some? {
          var i :| 0 <= i < |s[1..]| && s[1..][i] == r.value && forall j :: 0 <= j < i ==> !p(s[1..][j]);
          assert s[i + 1] == r.value;
          forall j | 1 <= j < i + 1 ensures !p(s[j]) { assert s[j] == s[1..][j - 1]; }
        }
      }
      r
  }

  /** Appending elements after the first match does not change it. */
  lemma {:induction false} FirstPrefix<T>(a: seq<T>, b: seq<T>, p: T -> bool)
    requires |a| <= |b| && b[..|a|] == a && First(a, p).Some?
    ensures First(b, p) == First(a, p)
  {
    assert b[0] == a[0];
    if !p(a[0]) {
      assert b[1..][..|a| - 1] == a[1..];
      FirstPrefix(a[1..], b[1..], p);
    }
  }

  /** The index of the first element of `s` satisfying `p`. */
  function FindIndex<T>(s: seq<T>, p: T -> bool): (r: Option<nat>)
    ensures r.Some? ==> r.value < |s| && p(s[r.value]) && forall j :: 0 <= j < r.value ==> !p(s[j])
    ensures r.None? <==> forall i :: 0 <= i < |s| ==> !p(s[i])
  {
    if s == [] then None
    else if p(s[0]) then Some(0)
    else
      var r := FindIndex(s[1..], p);
      if r.None? then None
      else
        assert forall j :: 1 <= j < r.value + 1 ==> s[j] == s[1..][j - 1];
        Some(r.value + 1)
  }

  /** The elements of `s` satisfying `p`, in their original order
      (`Array.prototype.filter`). */
  function Filter<T>(s: seq<T>, p: T -> bool): (r: seq<T>)
    ensures forall i :: 0 <= i < |r| ==> r[i] in s && p(r[i])
    ensures forall i :: 0 <= i < |s| && p(s[i]) ==> s[i] in r
    ensures |r| <= |s|
    ensures multiset(r) <= multiset(s)
  {
    if s == [] then []
    else
      var rest := Filter(s[..|s| - 1], p);
      assert s == s[..|s| - 1] + [s[|s| - 1]];
      if p(s[|s| - 1]) then rest + [s[|s| - 1]] else rest
  }

  /** Filtering distributes over concatenation, so it keeps relative order. */
  lemma {:induction false} FilterAppend<T>(a: seq<T>, b: seq<T>, p: T -> bool)
    ensures Filter(a + b, p) == Filter(a, p) + Filter(b, p)
  {
    if b == [] {
      assert a + b == a;
    } else {
      var b' := b[..|b| - 1];
      assert (a + b)[..|a + b| - 1] == a + b';
      assert (a + b)[|a + b| - 1] == b[|b| - 1];
      FilterAppend(a, b', p);
    }
  }

  /** Filtering with a predicate that every element satisfies changes nothing. */
  lemma {:induction false} FilterAll<T>(s: seq<T>, p: T -> bool)
    requires forall i :: 0 <= i < |s| ==> p(s[i])
    ensures Filter(s, p) == s
  {
    if s != [] {
      FilterAll(s[..|s| - 1], p);
      assert s == s[..|s| - 1] + [s[|s| - 1]];
    }
  }

  /** Filtering out some element shortens the sequence. */
  lemma {:induction false} FilterShrinks<T>(s: seq<T>, p: T -> bool, i: nat)
    requires i < |s| && !p(s[i])
    ensures |Filter(s, p)| < |s|
  {
    if i < |s| - 1 {
      FilterShrinks(s[..|s| - 1], p, i);
    }
  }

  /** Filtering out the key of one element of a sequence with unique keys
      removes exactly that element and keeps the rest in order. */
  lemma FilterOutKey<T, K>(s: seq<T>, key: T -> K, k: nat, p: T -> bool)
    requires UniqueKeys(s, key) && k < |s|
    requires forall i :: 0 <= i < |s| ==> (p(s[i]) <==> key(s[i]) != key(s[k]))
    ensures Filter(s, p) == s[..k] + s[k + 1..]
  {
    var front, back := s[..k], s[k + 1..];
    forall i | 0 <= i < |front| ensures p(front[i]) {
      assert front[i] == s[i];
    }
    forall i | 0 <= i < |back| ensures p(back[i]) {
      assert back[i] == s[k + 1 + i];
    }
    FilterAll(front, p);
    FilterAll(back, p);
    assert Filter([s[k]], p) == [] by {
      assert [s[k]][..0] == [];
    }
    SplitAt(s, k);
    FilterAppend(front + [s[k]], back, p);
    FilterAppend(front, [s[k]], p);
  }

  /** A sequence is its part before index `k`, the element at `k` and its part after. */
  lemma SplitAt<T>(s: seq<T>, k: nat)
    requires k < |s|
    ensures s == s[..k] + [s[k]] + s[k + 1..]
  {
  }

  /** Filtering keeps keys unique. */
  lemma {:induction false} FilterKeepsUniqueKeys<T, K>(s: seq<T>, p: T -> bool, key: T -> K)
    requires UniqueKeys(s, key)
    ensures UniqueKeys(Filter(s, p), key)
  {
    if s != [] {
      var init := s[..|s| - 1];
      var last := s[|s| - 1];
      var rest := Filter(init, p);
      FilterKeepsUniqueKeys(init, p, key);
      if p(last) {
        var r := rest + [last];
        forall i, j | 0 <= i < j < |r| ensures key(r[i]) != key(r[j]) {
          if j == |rest| {
            var k :| 0 <= k < |init| && init[k] == r[i];
            assert s[k] == r[i] && s[|s| - 1] == r[j];
          } else {
            assert r[i] == rest[i] && r[j] == rest[j];
          }
        }
      }
    }
  }

  /** The defined results of `f` over `s`, in order: a `filter` and `map`
      in one, as a join that drops rows without a partner does. */
  function FilterMap<T, U>(s: seq<T>, f: T -> Option<U>): (r: seq<U>)
    ensures |r| <= |s|
    ensures forall j :: 0 <= j < |r| ==> exists i :: 0 <= i < |s| && f(s[i]) == Some(r[j])
    ensures forall i :: 0 <= i < |s| && f(s[i]).Some? ==> f(s[i]).value in r
  {
    if s == [] then []
    else
      var init := s[..|s| - 1];
      var rest := FilterMap(init, f);
      assert forall i :: 0 <= i < |init| ==> init[i] == s[i];
      match f(s[|s| - 1])
      case None => rest
      case Some(y) => rest + [y]
  }

  /** One more element extends the result by its own value, if any. */
  lemma FilterMapSnoc<T, U>(s: seq<T>, x: T, f: T -> Option<U>)
    ensures FilterMap(s + [x], f) == if f(x).None? then FilterMap(s, f) else FilterMap(s, f) + [f(x).value]
  {
    assert (s + [x])[..|s|] == s;
  }

  /** `FilterMap` distributes over concatenation. */
  lemma {:induction false} FilterMapAppend<T, U>(a: seq<T>, b: seq<T>, f: T -> Option<U>)
    ensures FilterMap(a + b, f) == FilterMap(a, f) + FilterMap(b, f)
  {
    if b == [] {
      assert a + b == a;
    } else {
      var b' := b[..|b| - 1];
      var x := b[|b| - 1];
      assert a + b == (a + b') + [x] && b == b' + [x];
      FilterMapAppend(a, b', f);
      FilterMapSnoc(a + b', x, f);
      FilterMapSnoc(b', x, f);
    }
  }

  /** `FilterMap` keeps the order of its input: the values of two elements
      come out in the order the elements go in. */
  lemma FilterMapOrder<T, U>(s: seq<T>, f: T -> Option<U>, i1: nat, i2: nat) returns (j1: nat, j2: nat)
    requires i1 < i2 < |s| && f(s[i1]).Some? && f(s[i2]).Some?
    ensures j1 < j2 < |FilterMap(s, f)|
    ensures FilterMap(s, f)[j1] == f(s[i1]).value && FilterMap(s, f)[j2] == f(s[i2]).value
  {
    var a, m, b := s[..i1], s[i1 + 1..i2], s[i2 + 1..];
    var rest := m + [s[i2]] + b;
    assert s == a + [s[i1]] + rest;
    FilterMapAround(a, s[i1], rest, f);
    FilterMapAround(m, s[i2], b, f);
    var front, middle := FilterMap(a, f), FilterMap(m, f);
    j1, j2 := |front|, |front| + 1 + |middle|;
  }

  /** The value of one element sits between those of its neighbours. */
  lemma FilterMapAround<T, U>(a: seq<T>, x: T, b: seq<T>, f: T -> Option<U>)
    requires f(x).Some?
    ensures FilterMap(a + [x] + b, f) == FilterMap(a, f) + [f(x).value] + FilterMap(b, f)
  {
    FilterMapAppend(a + [x], b, f);
    FilterMapSnoc(a, x, f);
  }

  /** When the values of any two elements differ, `FilterMap` lists each
      value once. */
  lemma {:induction false} FilterMapDistinct<T, U>(s: seq<T>, f: T -> Option<U>)
    requires forall i, j :: 0 <= i < j < |s| && f(s[i]).Some? ==> f(s[i]) != f(s[j])
    ensures Distinct(FilterMap(s, f))
  {
    if s != [] {
      var init := s[..|s| - 1];
      var x := s[|s| - 1];
      assert s == init + [x];
      forall i, j | 0 <= i < j < |init| && f(init[i]).Some? ensures f(init[i]) != f(init[j]) {
        assert init[i] == s[i] && init[j] == s[j];
      }
      FilterMapDistinct(init, f);
      FilterMapSnoc(init, x, f);
      var rest := FilterMap(init, f);
      if f(x).Some? {
        forall j | 0 <= j < |rest| ensures rest[j] != f(x).value {
          var i :| 0 <= i < |init| && f(init[i]) == Some(rest[j]);
          assert init[i] == s[i];
        }
        DistinctSnoc(rest, f(x).value);
      }
    }
  }

  /** Appending a value not yet present keeps a sequence distinct. */
  lemma DistinctSnoc<T>(s: seq<T>, x: T)
    requires Distinct(s) && x !in s
    ensures Distinct(s + [x])
  {
  }

  /** `f` gives a value at the element. */
  function Defined<T, U>(f: T -> Option<U>): T -> bool
  {
    (x: T) => f(x).Some?
  }

  /** Each element with a value contributes exactly one to the result. */
  lemma {:induction false} FilterMapLength<T, U>(s: seq<T>, f: T -> Option<U>)
    ensures |FilterMap(s, f)| == Count(s, Defined(f))
  {
    if s != [] {
      FilterMapLength(s[..|s| - 1], f);
    }
  }

  /** The number of elements of `s` that satisfy `p`. */
  function Count<T>(s: seq<T>, p: T -> bool): (n: nat)
    ensures n == |Filter(s, p)|
    ensures n <= |s|
  {
    if s == [] then 0
    else Count(s[..|s| - 1], p) + (if p(s[|s| - 1]) then 1 else 0)
  }

  /** Elements satisfying `p` and elements failing it together account for
      every element exactly once. */
  lemma {:induction false} CountSplit<T>(s: seq<T>, p: T -> bool)
    ensures Count(s, p) + Count(s, x => !p(x)) == |s|
  {
    if s != [] {
      CountSplit(s[..|s| - 1], p);
    }
  }

  /** No element occurs twice in `s`. */
  predicate Distinct<T(==)>(s: seq<T>)
  {
    forall i, j :: 0 <= i < j < |s| ==> s[i] != s[j]
  }

  /** A distinct sequence holds each value at most once. */
  lemma {:induction false} DistinctAtMostOnce<T>(s: seq<T>, x: T)
    requires Distinct(s)
    ensures multiset(s)[x] <= 1
  {
    if s != [] {
      var init := s[..|s| - 1];
      var last := s[|s| - 1];
      assert s == init + [last];
      assert Distinct(init) by {
        forall i, j | 0 <= i < j < |init| ensures init[i] != init[j] {
          assert init[i] == s[i] && init[j] == s[j];
        }
      }
      DistinctAtMostOnce(init, x);
      if x == last {
        forall i | 0 <= i < |init| ensures init[i] != x {
          assert init[i] == s[i];
        }
        assert x !in multiset(init);
      }
    }
  }

  /** Reordering or dropping elements of a distinct sequence keeps it
      distinct: a sub-multiset of a distinct sequence has no repeats. */
  lemma DistinctSub<T>(a: seq<T>, b: seq<T>)
    requires Distinct(a) && multiset(b) <= multiset(a)
    ensures Distinct(b)
  {
    forall i, j | 0 <= i < j < |b| ensures b[i] != b[j] {
      DistinctAtMostOnce(a, b[i]);
      RepeatCounts(b, i, j);
    }
  }

  /** A value at two positions occurs at least twice. */
  lemma RepeatCounts<T>(b: seq<T>, i: nat, j: nat)
    requires i < j < |b|
    ensures b[i] == b[j] ==> multiset(b)[b[i]] >= 2
  {
    SplitAt(b, j);
    assert b[..j][i] == b[i];
    assert multiset(b) == multiset(b[..j]) + multiset{b[j]} + multiset(b[j + 1..]);
  }

  /** Unique keys make the elements themselves distinct. */
  lemma UniqueKeysDistinct<T, K>(s: seq<T>, key: T -> K)
    requires UniqueKeys(s, key)
    ensures Distinct(s)
  {
  }

  /** Sequences with the same multiset have the same members. */
  lemma SameMembers<T>(a: seq<T>, b: seq<T>)
    requires multiset(a) == multiset(b)
    ensures forall x :: x in a <==> x in b
  {
    forall x ensures x in a <==> x in b {
      assert x in a <==> x in multiset(a);
      assert x in b <==> x in multiset(b);
    }
  }

  /** The keys of the elements of `s`. */
  ghost function Keys<T, K>(s: seq<T>, key: T -> K): set<K>
  {
    set x | x in s :: key(x)
  }

  /** No two elements of `s` share a key. */
  predicate UniqueKeys<T, K(==)>(s: seq<T>, key: T -> K)
  {
    forall i, j :: 0 <= i < j < |s| ==> key(s[i]) != key(s[j])
  }

  /** Appending an element with a key no element has keeps keys unique. */
  lemma UniqueKeysSnoc<T, K>(s: seq<T>, x: T, key: T -> K)
    requires UniqueKeys(s, key)
    requires forall i :: 0 <= i < |s| ==> key(s[i]) != key(x)
    ensures UniqueKeys(s + [x], key)
  {
    var r := s + [x];
    forall i, j | 0 <= i < j < |r|
      ensures key(r[i]) != key(r[j])
    {
      assert r[i] == s[i];
    }
  }

  /** Replacing an element by one with the same key keeps keys unique. */
  lemma UniqueKeysUpdate<T, K>(s: seq<T>, k: int, x: T, key: T -> K)
    requires UniqueKeys(s, key)
    requires 0 <= k < |s| && key(x) == key(s[k])
    ensures UniqueKeys(s[k := x], key)
  {
    var r := s[k := x];
    forall i, j | 0 <= i < j < |r|
      ensures key(r[i]) != key(r[j])
    {
      assert key(r[i]) == key(s[i]) && key(r[j]) == key(s[j]);
    }
  }

  /** The elements of `s` whose key has not been seen before, in order: the
      `if (!seen.has(k)) { seen.add(k); out.push(x) }` loop. */
  function DedupOn<T, K(==)>(s: seq<T>, key: T -> K): (r: seq<T>)
    ensures UniqueKeys(r, key)
    ensures Keys(r, key) == Keys(s, key)
    ensures forall i :: 0 <= i < |r| ==> r[i] in s
    ensures |r| <= |s|
  {
    if s == [] then []
    else
      var init := s[..|s| - 1];
      var last := s[|s| - 1];
      var rest := DedupOn(init, key);
      assert s == init + [last];
      assert Keys(s, key) == Keys(init, key) + {key(last)};
      if exists i :: 0 <= i < |rest| && key(rest[i]) == key(last) then rest
      else
        var r := rest + [last];
        assert Keys(r, key) == Keys(rest, key) + {key(last)};
        r
  }

  /** One more element is kept exactly when its key is new. */
  lemma DedupSnoc<T, K>(s: seq<T>, x: T, key: T -> K)
    ensures DedupOn(s + [x], key) ==
      if exists i :: 0 <= i < |DedupOn(s, key)| && key(DedupOn(s, key)[i]) == key(x) then DedupOn(s, key)
      else DedupOn(s, key) + [x]
  {
    assert (s + [x])[..|s|] == s;
  }

  /** One more element of `s` is kept exactly when its key is not yet among
      the kept ones: the step of the `seen` loop. */
  lemma DedupStep<T, K>(s: seq<T>, key: T -> K, i: int)
    requires 0 <= i < |s|
    ensures DedupOn(s[..i + 1], key) ==
      if key(s[i]) in Keys(DedupOn(s[..i], key), key) then DedupOn(s[..i], key) else DedupOn(s[..i], key) + [s[i]]
  {
    var r := DedupOn(s[..i], key);
    assert s[..i + 1] == s[..i] + [s[i]];
    DedupSnoc(s[..i], s[i], key);
    if key(s[i]) in Keys(r, key) {
      var x :| x in r && key(x) == key(s[i]);
      var j :| 0 <= j < |r| && r[j] == x;
      assert key(r[j]) == key(s[i]);
    } else {
      forall j | 0 <= j < |r|
        ensures key(r[j]) != key(s[i])
      {
        assert r[j] in r;
      }
    }
  }

  /** Each element that de-duplication keeps is the FIRST element of the input
      with that key. */
  lemma {:induction false} DedupKeepsFirst<T, K>(s: seq<T>, key: T -> K, x: T)
    requires x in DedupOn(s, key)
    ensures exists i :: 0 <= i < |s| && s[i] == x && forall j :: 0 <= j < i ==> key(s[j]) != key(x)
    decreases |s|, 1
  {
    if x in DedupOn(s[..|s| - 1], key) {
      DedupKeptEarlier(s, key, x);
    } else {
      DedupKeptLast(s, key, x);
    }
  }

  /** `DedupKeepsFirst` for an element already kept from all but the last. */
  lemma {:induction false} DedupKeptEarlier<T, K>(s: seq<T>, key: T -> K, x: T)
    requires s != [] && x in DedupOn(s[..|s| - 1], key)
    ensures exists i :: 0 <= i < |s| && s[i] == x && forall j :: 0 <= j < i ==> key(s[j]) != key(x)
    decreases |s|, 0
  {
    var init := s[..|s| - 1];
    DedupKeepsFirst(init, key, x);
    var i :| 0 <= i < |init| && init[i] == x && forall j :: 0 <= j < i ==> key(init[j]) != key(x);
    assert s[i] == x;
    forall j | 0 <= j < i ensures key(s[j]) != key(x) {
      assert s[j] == init[j];
    }
  }

  /** `DedupKeepsFirst` for the last element, kept because its key is new. */
  lemma DedupKeptLast<T, K>(s: seq<T>, key: T -> K, x: T)
    requires x in DedupOn(s, key) && s != [] && x !in DedupOn(s[..|s| - 1], key)
    ensures exists i :: 0 <= i < |s| && s[i] == x && forall j :: 0 <= j < i ==> key(s[j]) != key(x)
  {
    var init := s[..|s| - 1];
    var last := s[|s| - 1];
    assert !HasKey(DedupOn(init, key), key, key(last)) && x == last;
    NewKeyUnseen(init, key, key(last));
    forall j | 0 <= j < |s| - 1 ensures key(s[j]) != key(x) {
      assert s[j] == init[j];
    }
  }

  /** De-duplicating a concatenation keeps the first part's result as a prefix. */
  lemma {:induction false} DedupPrefix<T, K>(a: seq<T>, b: seq<T>, key: T -> K)
    ensures |DedupOn(a, key)| <= |DedupOn(a + b, key)|
    ensures DedupOn(a + b, key)[..|DedupOn(a, key)|] == DedupOn(a, key)
  {
    if b != [] {
      var b' := b[..|b| - 1];
      assert (a + b)[..|a + b| - 1] == a + b';
      DedupPrefix(a, b', key);
    } else {
      assert a + b == a;
    }
  }

  /** Some element of `r` has key `k`. */
  predicate HasKey<T, K(==)>(r: seq<T>, key: T -> K, k: K)
  {
    exists i :: 0 <= i < |r| && key(r[i]) == k
  }

  /** De-duplication keeps first occurrences in order: a kept element occurs
      in `s` before every element with the key of a later kept one. */
  lemma {:induction false} DedupOrder<T, K>(s: seq<T>, key: T -> K, p: int, q: int)
    requires 0 <= p < q < |DedupOn(s, key)|
    ensures forall j :: 0 <= j < |s| && key(s[j]) == key(DedupOn(s, key)[q]) ==>
      exists i :: 0 <= i < j && s[i] == DedupOn(s, key)[p]
    decreases |s|, 2
  {
    var init := s[..|s| - 1];
    var last := s[|s| - 1];
    assert s == init + [last];
    DedupSnoc(init, last, key);
    if exists i :: 0 <= i < |DedupOn(init, key)| && key(DedupOn(init, key)[i]) == key(last) {
      DedupOrderSeen(s, key, p, q);
    } else {
      DedupOrderNew(s, key, p, q);
    }
  }

  /** `DedupOrder` when the last element's key was already kept. */
  lemma {:induction false} DedupOrderSeen<T, K>(s: seq<T>, key: T -> K, p: int, q: int)
    requires 0 <= p < q < |DedupOn(s, key)|
    requires |s| > 0 && HasKey(DedupOn(s[..|s| - 1], key), key, key(s[|s| - 1]))
    ensures forall j :: 0 <= j < |s| && key(s[j]) == key(DedupOn(s, key)[q]) ==>
      exists i :: 0 <= i < j && s[i] == DedupOn(s, key)[p]
    decreases |s|, 0
  {
    var r := DedupOn(s, key);
    var init := s[..|s| - 1];
    var last := s[|s| - 1];
    var rest := DedupOn(init, key);
    assert s == init + [last];
    DedupSnoc(init, last, key);
    assert r == rest;
    forall j | 0 <= j < |s| && key(s[j]) == key(r[q])
      ensures exists i :: 0 <= i < j && s[i] == r[p]
    {
      if j < |init| {
        DedupOrder(init, key, p, q);
        var i :| 0 <= i < j && init[i] == rest[p];
        assert s[i] == r[p];
      } else {
        KeptEarlier(init, last, key, rest[p]);
      }
    }
  }

  /** `DedupOrder` when the last element is kept as a new key. */
  lemma {:induction false} DedupOrderNew<T, K>(s: seq<T>, key: T -> K, p: int, q: int)
    requires 0 <= p < q < |DedupOn(s, key)|
    requires |s| > 0 && !HasKey(DedupOn(s[..|s| - 1], key), key, key(s[|s| - 1]))
    ensures forall j :: 0 <= j < |s| && key(s[j]) == key(DedupOn(s, key)[q]) ==>
      exists i :: 0 <= i < j && s[i] == DedupOn(s, key)[p]
    decreases |s|, 1
  {
    var r := DedupOn(s, key);
    forall j | 0 <= j < |s| && key(s[j]) == key(r[q])
      ensures exists i :: 0 <= i < j && s[i] == r[p]
    {
      var i := DedupOrderNewAt(s, key, p, q, j);
    }
  }

  /** The earlier position `DedupOrderNew` finds for one position `j`. */
  lemma {:induction false} DedupOrderNewAt<T, K>(s: seq<T>, key: T -> K, p: int, q: int, j: int) returns (i: nat)
    requires 0 <= p < q < |DedupOn(s, key)|
    requires |s| > 0 && !HasKey(DedupOn(s[..|s| - 1], key), key, key(s[|s| - 1]))
    requires 0 <= j < |s| && key(s[j]) == key(DedupOn(s, key)[q])
    ensures i < j && s[i] == DedupOn(s, key)[p]
    decreases |s|, 0
  {
    var r := DedupOn(s, key);
    var init := s[..|s| - 1];
    var last := s[|s| - 1];
    var rest := DedupOn(init, key);
    assert s == init + [last];
    DedupSnoc(init, last, key);
    assert r == rest + [last];
    NewKeyUnseen(init, key, key(last));
    if q < |rest| {
      assert key(r[q]) != key(last);
      assert j < |init| && init[j] == s[j];
      DedupOrder(init, key, p, q);
      i :| 0 <= i < j && init[i] == rest[p];
      assert s[i] == init[i];
    } else {
      assert r[q] == last && r[p] == rest[p];
      KeptEarlier(init, last, key, rest[p]);
      i :| 0 <= i < |init| && (init + [last])[i] == rest[p];
    }
  }

  /** A key the de-duplicated sequence lacks is the key of no element. */
  lemma NewKeyUnseen<T, K>(s: seq<T>, key: T -> K, k: K)
    requires !HasKey(DedupOn(s, key), key, k)
    ensures forall j :: 0 <= j < |s| ==> key(s[j]) != k
  {
    var rest := DedupOn(s, key);
    forall j | 0 <= j < |s|
      ensures key(s[j]) != k
    {
      assert key(s[j]) in Keys(s, key);
      var x :| x in rest && key(x) == key(s[j]);
      var i :| 0 <= i < |rest| && rest[i] == x;
      assert key(rest[i]) == key(s[j]);
    }
  }

  lemma KeptEarlier<T, K>(init: seq<T>, last: T, key: T -> K, x: T)
    requires x in DedupOn(init, key)
    ensures exists i :: 0 <= i < |init| && (init + [last])[i] == x
  {
    var i :| 0 <= i < |init| && init[i] == x;
    assert (init + [last])[i] == x;
  }

  /** The `Map` a `for … of` loop fills with `map.set(k, v)` for each element
      that `f` maps to a pair: a later pair replaces an earlier one. */
  function Indexed<T, K, V>(s: seq<T>, f: T -> Option<(K, V)>): map<K, V>
  {
    if s == [] then map[]
    else
      var m := Indexed(s[..|s| - 1], f);
      match f(s[|s| - 1])
      case None => m
      case Some(kv) => m[kv.0 := kv.1]
  }

  /** One more element extends the index by its own pair, if any. */
  lemma IndexedSnoc<T, K, V>(s: seq<T>, x: T, f: T -> Option<(K, V)>)
    ensures Indexed(s + [x], f) == if f(x).None? then Indexed(s, f) else Indexed(s, f)[f(x).value.0 := f(x).value.1]
  {
    assert (s + [x])[..|s|] == s;
  }

  /** A key is in the map exactly when some element maps to it, and its value
      is that of the LAST such element. */
  lemma {:induction false} IndexedLast<T, K, V>(s: seq<T>, f: T -> Option<(K, V)>, k: K)
    ensures k in Indexed(s, f) <==> exists i :: 0 <= i < |s| && f(s[i]).Some? && f(s[i]).value.0 == k
    ensures k in Indexed(s, f) ==> exists i :: (&& 0 <= i < |s| && f(s[i]) == Some((k, Indexed(s, f)[k]))
      && forall j :: i < j < |s| ==> f(s[j]).None? || f(s[j]).value.0 != k)
  {
    if s != [] {
      var init := s[..|s| - 1];
      IndexedLast(init, f, k);
      var last := f(s[|s| - 1]);
      if last.None? || last.value.0 != k {
        if k in Indexed(init, f) {
          var i :| && 0 <= i < |init| && f(init[i]) == Some((k, Indexed(init, f)[k]))
            && forall j :: i < j < |init| ==> f(init[j]).None? || f(init[j]).value.0 != k;
          assert s[i] == init[i];
        }
        if exists i :: 0 <= i < |s| && f(s[i]).Some? && f(s[i]).value.0 == k {
          var i :| 0 <= i < |s| && f(s[i]).Some? && f(s[i]).value.0 == k;
          assert init[i] == s[i];
        }
      } else {
        assert f(s[|s| - 1]) == Some((k, Indexed(s, f)[k]));
      }
    }
  }
}
