/**
 * Final standings: `[...players].sort((a, b) => b.score - a.score)`.
 * JavaScript's `Array.prototype.sort` is stable, so the model is a stable
 * insertion sort into non-increasing key order, together with the facts
 * the final-results rules need: the head of the sorted list holds the
 * largest key, and the first two keys are equal exactly when at least two
 * elements share the largest key.
 */
module Ranking {
  import opened Common

  /** Keys in non-increasing order. */
  ghost predicate SortedDesc<T>(s: seq<T>, key: T -> int) {
    forall i, j :: 0 <= i < j < |s| ==> key(s[i]) >= key(s[j])
  }

  /** Puts `x` in front of the first element whose key is not larger than its own. */
  function Insert<T(==)>(x: T, s: seq<T>, key: T -> int): (r: seq<T>)
    requires SortedDesc(s, key)
    ensures SortedDesc(r, key)
    ensures multiset(r) == multiset(s) + multiset{x}
    ensures |r| == |s| + 1
    ensures r[0] == x || (|s| > 0 && r[0] == s[0])
  {
    if s == [] || key(x) >= key(s[0]) then [x] + s
    else
      var rest := Insert(x, s[1..], key);
      assert s == [s[0]] + s[1..];
      assert key(rest[0]) <= key(s[0]);
      assert forall j :: 0 <= j < |rest| ==> key(rest[0]) >= key(rest[j]);
      [s[0]] + rest
  }

  /** Stable sort, largest key first: each element is placed before the later elements with an equal key. */
  function SortDesc<T(==)>(s: seq<T>, key: T -> int): (r: seq<T>)
    ensures SortedDesc(r, key)
    ensures multiset(r) == multiset(s)
    ensures |r| == |s|
  {
    if s == [] then []
    else
      assert s == [s[0]] + s[1..];
      Insert(s[0], SortDesc(s[1..], key), key)
  }

  /** How many elements have a key of at least `m`. */
  function CountAtLeast<T>(s: seq<T>, key: T -> int, m: int): nat {
    if s == [] then 0 else (if key(s[0]) >= m then 1 else 0) + CountAtLeast(s[1..], key, m)
  }

  /** The largest key. */
  function MaxKey<T>(s: seq<T>, key: T -> int): int
    requires |s| > 0
  {
    if |s| == 1 then key(s[0])
    else var m := MaxKey(s[1..], key); if key(s[0]) >= m then key(s[0]) else m
  }

  /** At least two elements hold the largest key. */
  ghost predicate TopShared<T>(s: seq<T>, key: T -> int) {
    |s| > 0 && CountAtLeast(s, key, MaxKey(s, key)) >= 2
  }

  lemma {:induction false} MaxKeyIsMax<T>(s: seq<T>, key: T -> int)
    requires |s| > 0
    ensures forall k :: 0 <= k < |s| ==> key(s[k]) <= MaxKey(s, key)
    ensures exists k :: 0 <= k < |s| && key(s[k]) == MaxKey(s, key)
  {
    if |s| == 1 {
      assert key(s[0]) == MaxKey(s, key);
    } else {
      MaxKeyIsMax(s[1..], key);
      var k :| 0 <= k < |s[1..]| && key(s[1..][k]) == MaxKey(s[1..], key);
      assert key(s[k + 1]) == MaxKey(s[1..], key);
      if key(s[0]) >= MaxKey(s[1..], key) {
        assert key(s[0]) == MaxKey(s, key);
      } else {
        assert key(s[k + 1]) == MaxKey(s, key);
      }
    }
  }

  lemma {:induction false} InsertCount<T>(x: T, s: seq<T>, key: T -> int, m: int)
    requires SortedDesc(s, key)
    ensures CountAtLeast(Insert(x, s, key), key, m) == CountAtLeast(s, key, m) + (if key(x) >= m then 1 else 0)
  {
    if s == [] || key(x) >= key(s[0]) {
      assert ([x] + s)[1..] == s;
    } else {
      InsertCount(x, s[1..], key, m);
      var r := Insert(x, s, key);
      assert r[1..] == Insert(x, s[1..], key);
    }
  }

  lemma {:induction false} InsertMax<T>(x: T, s: seq<T>, key: T -> int)
    requires SortedDesc(s, key)
    ensures s == [] ==> MaxKey(Insert(x, s, key), key) == key(x)
    ensures s != [] ==> MaxKey(Insert(x, s, key), key) == (if key(x) >= MaxKey(s, key) then key(x) else MaxKey(s, key))
  {
    var r := Insert(x, s, key);
    if s == [] {
      assert r == [x];
    } else if key(x) >= key(s[0]) {
      assert r[1..] == s;
    } else {
      assert r[1..] == Insert(x, s[1..], key);
      InsertMax(x, s[1..], key);
    }
  }

  lemma {:induction false} SortCount<T>(s: seq<T>, key: T -> int, m: int)
    ensures CountAtLeast(SortDesc(s, key), key, m) == CountAtLeast(s, key, m)
  {
    if s != [] {
      SortCount(s[1..], key, m);
      InsertCount(s[0], SortDesc(s[1..], key), key, m);
    }
  }

  lemma {:induction false} SortMax<T>(s: seq<T>, key: T -> int)
    requires |s| > 0
    ensures MaxKey(SortDesc(s, key), key) == MaxKey(s, key)
  {
    var rest := SortDesc(s[1..], key);
    InsertMax(s[0], rest, key);
    if |s| > 1 {
      SortMax(s[1..], key);
    }
  }

  /** In a list sorted by non-increasing key, the head holds the largest key. */
  lemma {:induction false} SortedHeadIsMax<T>(r: seq<T>, key: T -> int)
    requires |r| > 0 && SortedDesc(r, key)
    ensures MaxKey(r, key) == key(r[0])
  {
    MaxKeyIsMax(r, key);
  }

  lemma {:induction false} CountNone<T>(s: seq<T>, key: T -> int, m: int)
    requires forall k :: 0 <= k < |s| ==> key(s[k]) < m
    ensures CountAtLeast(s, key, m) == 0
  {
    if s != [] {
      CountNone(s[1..], key, m);
    }
  }

  /** In a sorted list, two elements reach `m` exactly when the second one does. */
  lemma SortedCountTwo<T>(r: seq<T>, key: T -> int, m: int)
    requires SortedDesc(r, key)
    ensures CountAtLeast(r, key, m) >= 2 <==> |r| >= 2 && key(r[1]) >= m
  {
    if |r| >= 2 {
      assert r[1..][1..] == r[2..];
      if key(r[1]) < m {
        CountNone(r[2..], key, m);
      }
    } else if |r| == 1 {
      assert r[1..] == [];
    }
  }

  /**
   * The sorted list starts with the largest key, and its first two keys are
   * equal exactly when at least two elements of the input share that key.
   */
  lemma {:induction false} SortedTop<T>(s: seq<T>, key: T -> int)
    requires |s| > 0
    ensures key(SortDesc(s, key)[0]) == MaxKey(s, key)
    ensures TopShared(s, key) <==> |s| > 1 && key(SortDesc(s, key)[0]) == key(SortDesc(s, key)[1])
  {
    var r := SortDesc(s, key);
    SortMax(s, key);
    SortedHeadIsMax(r, key);
    SortCount(s, key, MaxKey(s, key));
    SortedCountTwo(r, key, key(r[0]));
  }

  lemma SwapEmpty<T>(a: seq<T>, b: seq<T>, t: seq<T>)
    requires a == [] || b == []
    ensures a + (b + t) == b + (a + t)
  {
    if a == [] {
      assert [] + (b + t) == b + t;
    } else {
      assert [] + t == t;
    }
  }

  /** Inserting `x` leaves the elements of any one key in order, with `x` ahead of those already there. */
  lemma {:induction false} InsertFilter<T>(x: T, s: seq<T>, key: T -> int, m: int, eq: T -> bool)
    requires SortedDesc(s, key)
    requires forall y :: eq(y) == (key(y) == m)
    ensures Filter(Insert(x, s, key), eq) == (if key(x) == m then [x] else []) + Filter(s, eq)
    decreases |s|, 1
  {
    if s == [] || key(x) >= key(s[0]) {
      FilterCons(x, s, eq);
    } else {
      InsertFurtherFilter(x, s, key, m, eq);
    }
  }

  /** The case where `x` goes after the head of `s`, whose key is then larger than that of `x`. */
  lemma {:induction false} InsertFurtherFilter<T>(x: T, s: seq<T>, key: T -> int, m: int, eq: T -> bool)
    requires SortedDesc(s, key) && s != [] && key(x) < key(s[0])
    requires forall y :: eq(y) == (key(y) == m)
    ensures Filter(Insert(x, s, key), eq) == (if key(x) == m then [x] else []) + Filter(s, eq)
    decreases |s|, 0
  {
    var head := if key(x) == m then [x] else [];
    var first := if eq(s[0]) then [s[0]] else [];
    var rest := Insert(x, s[1..], key);
    assert Insert(x, s, key) == [s[0]] + rest;
    InsertFilter(x, s[1..], key, m, eq);
    FilterCons(s[0], rest, eq);
    assert Filter(s, eq) == first + Filter(s[1..], eq);
    assert first == [] || head == [];
    SwapEmpty(first, head, Filter(s[1..], eq));
  }

  /**
   * The sort is stable: the elements sharing any one key appear in the
   * sorted list in the order they had in the input.
   */
  lemma {:induction false} SortStable<T>(s: seq<T>, key: T -> int, m: int, eq: T -> bool)
    requires forall y :: eq(y) == (key(y) == m)
    ensures Filter(SortDesc(s, key), eq) == Filter(s, eq)
  {
    if s != [] {
      SortStable(s[1..], key, m, eq);
      InsertFilter(s[0], SortDesc(s[1..], key), key, m, eq);
    }
  }

  /**
   * Stability carries over to a mapping: picking out, after sorting and
   * mapping, the images of the elements with key `m` gives those elements in
   * their input order.
   */
  lemma SortMapStable<T, U>(s: seq<T>, key: T -> int, f: T -> U, m: int, p: T -> bool, q: U -> bool)
    requires forall y :: p(y) == (key(y) == m)
    requires forall y :: q(f(y)) == p(y)
    ensures Filter(MapSeq(SortDesc(s, key), f), q) == MapSeq(Filter(s, p), f)
  {
    FilterMapSeq(SortDesc(s, key), f, p, q);
    SortStable(s, key, m, p);
  }

  /** Sorting and then mapping is the same as mapping and then sorting, when the mapping keeps the keys. */
  lemma MapKeepsSorted<T, U>(s: seq<T>, key: T -> int, f: T -> U, fkey: U -> int)
    requires SortedDesc(s, key)
    requires forall y :: fkey(f(y)) == key(y)
    ensures SortedDesc(MapSeq(s, f), fkey)
  {
    var ms := MapSeq(s, f);
    forall i, j | 0 <= i < j < |ms| ensures fkey(ms[i]) >= fkey(ms[j]) {
      assert fkey(ms[i]) == key(s[i]) && fkey(ms[j]) == key(s[j]);
    }
  }

  lemma {:induction false} InsertCommutesWithMap<T, U>(x: T, s: seq<T>, key: T -> int, f: T -> U, fkey: U -> int)
    requires SortedDesc(s, key)
    requires forall y :: fkey(f(y)) == key(y)
    ensures SortedDesc(MapSeq(s, f), fkey)
    ensures MapSeq(Insert(x, s, key), f) == Insert(f(x), MapSeq(s, f), fkey)
    decreases |s|, 1
  {
    MapKeepsSorted(s, key, f, fkey);
    if s == [] || key(x) >= key(s[0]) {
      MapSeqCons(x, s, f);
    } else {
      InsertFurther(x, s, key, f, fkey);
    }
  }

  /** The case where `x` goes after the head of `s`. */
  lemma {:induction false} InsertFurther<T, U>(x: T, s: seq<T>, key: T -> int, f: T -> U, fkey: U -> int)
    requires SortedDesc(s, key) && SortedDesc(MapSeq(s, f), fkey)
    requires forall y :: fkey(f(y)) == key(y)
    requires s != [] && key(x) < key(s[0])
    ensures MapSeq(Insert(x, s, key), f) == Insert(f(x), MapSeq(s, f), fkey)
    decreases |s|, 0
  {
    var ms := MapSeq(s, f);
    var rest := Insert(x, s[1..], key);
    assert Insert(x, s, key) == [s[0]] + rest;
    assert ms[0] == f(s[0]) && fkey(f(x)) < fkey(ms[0]);
    assert Insert(f(x), ms, fkey) == [ms[0]] + Insert(f(x), ms[1..], fkey);
    assert ms[1..] == MapSeq(s[1..], f) by {
      assert s == [s[0]] + s[1..];
      MapSeqCons(s[0], s[1..], f);
    }
    InsertCommutesWithMap(x, s[1..], key, f, fkey);
    MapSeqCons(s[0], rest, f);
  }

  lemma {:induction false} SortCommutesWithMap<T, U>(s: seq<T>, key: T -> int, f: T -> U, fkey: U -> int)
    requires forall y :: fkey(f(y)) == key(y)
    ensures MapSeq(SortDesc(s, key), f) == SortDesc(MapSeq(s, f), fkey)
  {
    if s != [] {
      SortCommutesWithMap(s[1..], key, f, fkey);
      assert MapSeq(s, f)[1..] == MapSeq(s[1..], f);
      InsertCommutesWithMap(s[0], SortDesc(s[1..], key), key, f, fkey);
    }
  }
}
