/**
 * The ordering engine: the list operations the handlers perform on an ordered list
 * of ids before they rewrite positions, and `ORDER BY position` itself, modelled as
 * a stable sort.
 *
 * - `InsertAt` is `splice(clamp(k, 0, len), 0, x)`: insertion into a column
 *   (the target side of a cross-column move).
 * - `RemoveAll` is `filter(a => a.id !== x)`: the source side of a cross-column
 *   move, and what deleting a row does to a column's order.
 * - `Reorder` is `splice(i, 1)` followed by `splice(clamp(k, 0, len - 1), 0, removed)`:
 *   a same-column move and a column reorder.
 * - `SortBy` is the stable sort the store's `ORDER BY position` stands for.
 */
module Ordering {
  import opened JsText

  predicate Distinct<T(==,!new)>(s: seq<T>) {
    forall i, j | 0 <= i < j < |s| :: s[i] != s[j]
  }

  predicate Sorted<T(!new)>(s: seq<T>, key: T -> int) {
    forall i, j | 0 <= i < j < |s| :: key(s[i]) <= key(s[j])
  }

  /** The positions along `s` are exactly 0, 1, ..., |s| - 1: dense and in list order. */
  predicate Indexed<T(!new)>(s: seq<T>, key: T -> int) {
    forall i | 0 <= i < |s| :: key(s[i]) == i
  }

  /** The elements of `s` that satisfy `p`, in their order in `s`. */
  function Filter<T(!new)>(s: seq<T>, p: T -> bool): (r: seq<T>)
    ensures |r| <= |s|
  {
    if s == [] then []
    else Filter(s[..|s| - 1], p) + (if p(s[|s| - 1]) then [s[|s| - 1]] else [])
  }

  lemma FilterSnoc<T(!new)>(s: seq<T>, x: T, p: T -> bool)
    ensures Filter(s + [x], p) == Filter(s, p) + (if p(x) then [x] else [])
  {
    assert (s + [x])[..|s|] == s;
  }

  /** What survives the filter is exactly what is in `s` and satisfies `p`. */
  lemma {:induction false} FilterMembers<T(!new)>(s: seq<T>, p: T -> bool)
    ensures forall x :: x in Filter(s, p) <==> x in s && p(x)
  {
    if s != [] {
      var s' := s[..|s| - 1];
      assert s == s' + [s[|s| - 1]];
      FilterMembers(s', p);
    }
  }

  lemma {:induction false} FilterAppend<T(!new)>(s: seq<T>, t: seq<T>, p: T -> bool)
    ensures Filter(s + t, p) == Filter(s, p) + Filter(t, p)
  {
    if t != [] {
      var t' := t[..|t| - 1];
      var y := t[|t| - 1];
      assert t == t' + [y];
      assert s + t == (s + t') + [y];
      FilterAppend(s, t', p);
      FilterSnoc(s + t', y, p);
      FilterSnoc(t', y, p);
      var e := if p(y) then [y] else [];
      assert (Filter(s, p) + Filter(t', p)) + e == Filter(s, p) + (Filter(t', p) + e);
    } else {
      assert s + t == s;
    }
  }

  /** Filtering depends only on what the predicate says about the elements present. */
  lemma {:induction false} FilterCongruent<T(!new)>(s: seq<T>, p: T -> bool, q: T -> bool)
    requires forall i | 0 <= i < |s| :: p(s[i]) == q(s[i])
    ensures Filter(s, p) == Filter(s, q)
  {
    if s != [] {
      FilterCongruent(s[..|s| - 1], p, q);
    }
  }

  lemma {:induction false} FilterMultiset<T(!new)>(s: seq<T>, p: T -> bool)
    ensures multiset(Filter(s, p)) <= multiset(s)
    ensures forall x | x in multiset(s) && p(x) :: multiset(Filter(s, p))[x] == multiset(s)[x]
  {
    if s != [] {
      var s' := s[..|s| - 1];
      assert s == s' + [s[|s| - 1]];
      FilterMultiset(s', p);
    }
  }

  lemma FilterDistinct<T(!new)>(s: seq<T>, p: T -> bool)
    requires Distinct(s)
    ensures Distinct(Filter(s, p))
  {
    var r := Filter(s, p);
    FilterMultiset(s, p);
    DistinctMultiset(s);
    forall x | x in multiset(r) ensures multiset(r)[x] == 1 {
      assert multiset(r)[x] <= multiset(s)[x];
    }
    MultisetDistinct(r);
  }

  /** A sequence is duplicate-free exactly when every element occurs once in its multiset. */
  lemma {:induction false} DistinctMultiset<T(!new)>(s: seq<T>)
    requires Distinct(s)
    ensures forall x | x in multiset(s) :: multiset(s)[x] == 1
  {
    if s != [] {
      var s' := s[..|s| - 1];
      assert s == s' + [s[|s| - 1]];
      DistinctMultiset(s');
      assert s[|s| - 1] !in s';
    }
  }

  lemma {:induction false} MultisetDistinct<T(!new)>(s: seq<T>)
    requires forall x | x in multiset(s) :: multiset(s)[x] == 1
    ensures Distinct(s)
  {
    if s != [] {
      var s' := s[..|s| - 1];
      var y := s[|s| - 1];
      assert s == s' + [y];
      assert multiset(s) == multiset(s') + multiset{y};
      forall x | x in multiset(s') ensures multiset(s')[x] == 1 {
        assert multiset(s)[x] == multiset(s')[x] + (if x == y then 1 else 0);
      }
      MultisetDistinct(s');
      assert y !in multiset(s');
    }
  }

  /** Filtering by the disjunction of two exclusive predicates merges the two filtered
      lists as multisets. */
  lemma {:induction false} FilterSplit<T(!new)>(s: seq<T>, p: T -> bool, q: T -> bool, r: T -> bool)
    requires forall x :: r(x) == (p(x) || q(x))
    requires forall x :: !(p(x) && q(x))
    ensures multiset(Filter(s, r)) == multiset(Filter(s, p)) + multiset(Filter(s, q))
  {
    if s != [] {
      FilterSplit(s[..|s| - 1], p, q, r);
    }
  }

  /** Filtering twice is filtering once by the conjunction. */
  lemma {:induction false} FilterFilter<T(!new)>(s: seq<T>, p: T -> bool, q: T -> bool, r: T -> bool)
    requires forall i | 0 <= i < |s| :: r(s[i]) == (p(s[i]) && q(s[i]))
    ensures Filter(Filter(s, p), q) == Filter(s, r)
  {
    if s != [] {
      var s' := s[..|s| - 1];
      var y := s[|s| - 1];
      FilterFilter(s', p, q, r);
      var f := Filter(s', p);
      assert r(y) == (p(y) && q(y));
      if p(y) {
        assert Filter(s, p) == f + [y];
        FilterSnoc(f, y, q);
      } else {
        assert Filter(s, p) == f;
        assert Filter(s, r) == Filter(s', r) + [];
      }
    }
  }

  // ---------------------------------------------------------------------------
  // ORDER BY position: a stable insertion sort

  /** Insert `x` after every element whose key is at most `key(x)` at the end of `t`:
      the step of a stable insertion sort. */
  function Ins<T(!new)>(t: seq<T>, x: T, key: T -> int): (r: seq<T>)
    ensures |r| == |t| + 1
    ensures multiset(r) == multiset(t) + multiset{x}
  {
    if t == [] || key(t[|t| - 1]) <= key(x) then t + [x]
    else
      assert t == t[..|t| - 1] + [t[|t| - 1]];
      Ins(t[..|t| - 1], x, key) + [t[|t| - 1]]
  }

  lemma {:induction false} InsSorted<T(!new)>(t: seq<T>, x: T, key: T -> int)
    requires Sorted(t, key)
    ensures Sorted(Ins(t, x, key), key)
  {
    if t == [] || key(t[|t| - 1]) <= key(x) {
    } else {
      var t' := t[..|t| - 1];
      var y := t[|t| - 1];
      InsSorted(t', x, key);
      var r' := Ins(t', x, key);
      forall i | 0 <= i < |r'| ensures key(r'[i]) <= key(y) {
        assert r'[i] in multiset(r');
        if r'[i] != x {
          assert r'[i] in multiset(t');
          var k :| 0 <= k < |t'| && t'[k] == r'[i];
          assert t[k] == t'[k];
        }
      }
    }
  }

  /** `ORDER BY key`: ascending by key, rows with equal keys left in their scan order. */
  function SortBy<T(!new)>(s: seq<T>, key: T -> int): (r: seq<T>)
    ensures |r| == |s|
    ensures multiset(r) == multiset(s)
  {
    if s == [] then []
    else
      var s' := s[..|s| - 1];
      assert s == s' + [s[|s| - 1]];
      Ins(SortBy(s', key), s[|s| - 1], key)
  }

  /** The result of the sort is in ascending key order. */
  lemma {:induction false} SortBySorted<T(!new)>(s: seq<T>, key: T -> int)
    ensures Sorted(SortBy(s, key), key)
  {
    if s != [] {
      var s' := s[..|s| - 1];
      SortBySorted(s', key);
      InsSorted(SortBy(s', key), s[|s| - 1], key);
    }
  }

  lemma SortByMembers<T(!new)>(s: seq<T>, key: T -> int)
    ensures forall x :: x in SortBy(s, key) <==> x in s
  {
    forall x ensures x in SortBy(s, key) <==> x in s {
      assert x in SortBy(s, key) <==> x in multiset(SortBy(s, key));
      assert x in s <==> x in multiset(s);
    }
  }

  lemma SortByDistinct<T(!new)>(s: seq<T>, key: T -> int)
    requires Distinct(s)
    ensures Distinct(SortBy(s, key))
  {
    DistinctMultiset(s);
    MultisetDistinct(SortBy(s, key));
  }

  /** Sorting depends only on the keys of the elements present. */
  lemma {:induction false} SortByCongruent<T(!new)>(s: seq<T>, k1: T -> int, k2: T -> int)
    requires forall x | x in s :: k1(x) == k2(x)
    ensures SortBy(s, k1) == SortBy(s, k2)
  {
    if s != [] {
      var s' := s[..|s| - 1];
      var x := s[|s| - 1];
      assert s == s' + [x];
      assert forall y | y in s' :: y in s;
      SortByCongruent(s', k1, k2);
      SortByMembers(s', k1);
      InsCongruent(SortBy(s', k1), x, k1, k2);
    }
  }

  lemma {:induction false} InsCongruent<T(!new)>(t: seq<T>, x: T, k1: T -> int, k2: T -> int)
    requires k1(x) == k2(x)
    requires forall y | y in t :: k1(y) == k2(y)
    ensures Ins(t, x, k1) == Ins(t, x, k2)
  {
    if t != [] {
      var t' := t[..|t| - 1];
      assert t == t' + [t[|t| - 1]];
      assert forall y | y in t' :: y in t;
      InsCongruent(t', x, k1, k2);
    }
  }

  lemma SortedBelowLast<T(!new)>(t: seq<T>, key: T -> int)
    requires Sorted(t, key) && t != []
    ensures forall y | y in t :: key(y) <= key(t[|t| - 1])
  {
    forall y | y in t ensures key(y) <= key(t[|t| - 1]) {
      var k :| 0 <= k < |t| && t[k] == y;
      if k < |t| - 1 {
        assert key(t[k]) <= key(t[|t| - 1]);
      }
    }
  }

  /** An element with a key no smaller than any in the list goes to its end. */
  lemma InsAtEnd<T(!new)>(f: seq<T>, x: T, key: T -> int)
    requires forall y | y in f :: key(y) <= key(x)
    ensures Ins(f, x, key) == f + [x]
  {
    if f != [] {
      assert f[|f| - 1] in f;
    }
  }

  /** Inserting into a sorted list commutes with filtering. */
  lemma {:induction false} InsFilter<T(!new)>(t: seq<T>, x: T, key: T -> int, p: T -> bool)
    requires Sorted(t, key)
    ensures Filter(Ins(t, x, key), p) == if p(x) then Ins(Filter(t, p), x, key) else Filter(t, p)
    decreases |t|, 1
  {
    if t == [] {
      FilterSnoc(t, x, p);
    } else if key(t[|t| - 1]) <= key(x) {
      FilterSnoc(t, x, p);
      if p(x) {
        SortedBelowLast(t, key);
        FilterMembers(t, p);
        InsAtEnd(Filter(t, p), x, key);
      }
    } else {
      InsFilterPast(t, x, key, p);
    }
  }

  /** The case of `InsFilter` where `x` goes before the last element of `t`. */
  lemma {:induction false} InsFilterPast<T(!new)>(t: seq<T>, x: T, key: T -> int, p: T -> bool)
    requires Sorted(t, key)
    requires t != [] && key(x) < key(t[|t| - 1])
    ensures Filter(Ins(t, x, key), p) == if p(x) then Ins(Filter(t, p), x, key) else Filter(t, p)
    decreases |t|, 0
  {
    var t' := t[..|t| - 1];
    assert t == t' + [t[|t| - 1]];
    SortedPrefix(t, |t| - 1, key);
    InsFilter(t', x, key, p);
    InsFilterStep(t', t[|t| - 1], x, key, p);
  }

  lemma InsFilterStep<T(!new)>(t: seq<T>, y: T, x: T, key: T -> int, p: T -> bool)
    requires key(x) < key(y)
    requires Filter(Ins(t, x, key), p) == if p(x) then Ins(Filter(t, p), x, key) else Filter(t, p)
    ensures Filter(Ins(t + [y], x, key), p) ==
      if p(x) then Ins(Filter(t + [y], p), x, key) else Filter(t + [y], p)
  {
    var r := Ins(t, x, key);
    var f := Filter(t, p);
    var e := if p(y) then [y] else [];
    InsSnocPast(t, y, x, key);
    FilterSnoc(r, y, p);
    FilterSnoc(t, y, p);
    assert Filter(Ins(t + [y], x, key), p) == Filter(r, p) + e;
    assert Filter(t + [y], p) == f + e;
    if p(x) && p(y) {
      InsSnocPast(f, y, x, key);
    } else if p(x) {
      assert f + e == f;
      assert Filter(r, p) + e == Filter(r, p);
    }
  }

  /** An element with a key below that of the last of `t` goes in front of it. */
  lemma InsSnocPast<T(!new)>(t: seq<T>, y: T, x: T, key: T -> int)
    requires key(x) < key(y)
    ensures Ins(t + [y], x, key) == Ins(t, x, key) + [y]
  {
    assert (t + [y])[..|t|] == t;
  }

  /** The rows of one column, taken in position order out of all rows ordered by position,
      are that column's rows ordered by position: `ORDER BY` commutes with `WHERE`. */
  lemma {:induction false} SortFilter<T(!new)>(s: seq<T>, key: T -> int, p: T -> bool)
    ensures Filter(SortBy(s, key), p) == SortBy(Filter(s, p), key)
  {
    if s != [] {
      var s' := s[..|s| - 1];
      var x := s[|s| - 1];
      assert s == s' + [x];
      SortBySnoc(s', x, key);
      SortFilter(s', key, p);
      SortBySorted(s', key);
      InsFilter(SortBy(s', key), x, key, p);
      FilterSnoc(s', x, p);
      var f := Filter(s', p);
      if p(x) {
        SortBySnoc(f, x, key);
      } else {
        assert f + [] == f;
      }
    }
  }

  lemma SortBySnoc<T(!new)>(s: seq<T>, x: T, key: T -> int)
    ensures SortBy(s + [x], key) == Ins(SortBy(s, key), x, key)
  {
    assert (s + [x])[..|s|] == s;
  }

  lemma PrefixSnoc<T>(s: seq<T>, k: nat)
    requires 0 < k <= |s|
    ensures s[..k] == s[..k - 1] + [s[k - 1]]
  {
  }

  lemma SplitLast<T>(s: seq<T>)
    requires s != []
    ensures s == s[..|s| - 1] + [s[|s| - 1]]
  {
  }

  lemma SortedPrefix<T(!new)>(a: seq<T>, m: nat, key: T -> int)
    requires Sorted(a, key) && m <= |a|
    ensures Sorted(a[..m], key)
  {
  }

  lemma IndexedPrefix<T(!new)>(o: seq<T>, m: nat, key: T -> int)
    requires Indexed(o, key) && m <= |o|
    ensures Indexed(o[..m], key)
  {
  }

  /** An element of the multiset of a sequence occurs at some index of it. */
  lemma IndexOf<T(!new)>(s: seq<T>, x: T) returns (k: nat)
    requires x in multiset(s)
    ensures k < |s| && s[k] == x
  {
    assert x in s;
    k :| 0 <= k < |s| && s[k] == x;
  }

  /** The last element of a sorted list with the same elements as a list numbered
      0..n-1 is the element numbered n - 1, the largest. */
  lemma SortedLast<T(!new)>(a: seq<T>, o: seq<T>, key: T -> int)
    requires Sorted(a, key) && Indexed(o, key)
    requires multiset(a) == multiset(o)
    requires |a| > 0
    ensures |a| == |o|
    ensures a[|a| - 1] == o[|a| - 1]
  {
    assert |a| == |multiset(a)| == |multiset(o)| == |o|;
    var n := |a|;
    var k := IndexOf(o, a[n - 1]);
    var m := IndexOf(a, o[n - 1]);
    assert key(o[n - 1]) == n - 1;
    assert key(o[k]) == k;
    if m < n - 1 {
      assert key(a[m]) <= key(a[n - 1]);
    }
  }

  lemma MultisetSnocCancel<T>(a: seq<T>, b: seq<T>, y: T)
    requires multiset(a + [y]) == multiset(b + [y])
    ensures multiset(a) == multiset(b)
  {
    assert multiset(a) == multiset(a + [y]) - multiset{y};
    assert multiset(b) == multiset(b + [y]) - multiset{y};
  }

  /** A sorted list with the same elements as a list already numbered 0..n-1 is that list. */
  lemma {:induction false} SortedUnique<T(!new)>(a: seq<T>, o: seq<T>, key: T -> int)
    requires Sorted(a, key) && Indexed(o, key)
    requires multiset(a) == multiset(o)
    ensures a == o
  {
    if a == [] {
      assert |o| == |multiset(o)| == 0;
    } else {
      SortedLast(a, o, key);
      var n := |a|;
      var a', o' := a[..n - 1], o[..n - 1];
      assert a == a' + [a[n - 1]] && o == o' + [o[n - 1]];
      MultisetSnocCancel(a', o', a[n - 1]);
      SortedPrefix(a, n - 1, key);
      IndexedPrefix(o, n - 1, key);
      SortedUnique(a', o', key);
    }
  }

  /** After a renumbering pass that wrote position i to the i-th element of `o`,
      `ORDER BY position` over the same rows yields `o` again. */
  lemma SortIndexed<T(!new)>(s: seq<T>, o: seq<T>, key: T -> int)
    requires multiset(s) == multiset(o)
    requires Indexed(o, key)
    ensures SortBy(s, key) == o
  {
    SortBySorted(s, key);
    SortedUnique(SortBy(s, key), o, key);
  }

  // ---------------------------------------------------------------------------
  // The list operations

  function NotEqual<T(==,!new)>(x: T): T -> bool {
    y => y != x
  }

  /** `list.findIndex(a => a.id === x)`: the first index holding `x`, or -1. */
  function FindIndex<T(==,!new)>(s: seq<T>, x: T): (k: int)
    ensures -1 <= k < |s|
    ensures k == -1 <==> x !in s
    ensures k >= 0 ==> s[k] == x && x !in s[..k]
  {
    if s == [] then -1
    else if s[0] == x then 0
    else
      var k := FindIndex(s[1..], x);
      if k == -1 then -1
      else
        assert s[..k + 1] == [s[0]] + s[1..][..k];
        k + 1
  }

  /** In a list without repeats an element sits at one index only. */
  lemma DistinctIndex<T(!new)>(s: seq<T>, i: int, j: int)
    requires Distinct(s) && 0 <= i < |s| && 0 <= j < |s| && s[i] == s[j]
    ensures i == j
  {
  }

  lemma DistinctSnoc<T(!new)>(s: seq<T>, x: T)
    requires Distinct(s) && x !in s
    ensures Distinct(s + [x])
  {
    forall i, j | 0 <= i < j < |s| + 1 ensures (s + [x])[i] != (s + [x])[j] {
      assert (s + [x])[i] == s[i];
      if j < |s| {
        assert (s + [x])[j] == s[j];
      }
    }
  }

  /** Two distinct lists with no common element concatenate to a distinct list. */
  lemma DistinctConcat<T(!new)>(a: seq<T>, b: seq<T>)
    requires Distinct(a) && Distinct(b)
    requires forall x | x in a :: x !in b
    ensures Distinct(a + b)
  {
    forall i, j | 0 <= i < j < |a + b| ensures (a + b)[i] != (a + b)[j] {
      if j >= |a| && i < |a| {
        assert (a + b)[i] in a && (a + b)[j] == b[j - |a|];
      }
    }
  }

  /** A rearrangement of a distinct list is distinct. */
  lemma PermutationDistinct<T(!new)>(a: seq<T>, b: seq<T>)
    requires Distinct(a) && multiset(a) == multiset(b)
    ensures Distinct(b)
  {
    DistinctMultiset(a);
    MultisetDistinct(b);
  }

  /** `list.filter(a => a.id !== x)`. */
  function RemoveAll<T(==,!new)>(s: seq<T>, x: T): (r: seq<T>)
    ensures x !in r
    ensures forall y | y != x :: y in r <==> y in s
  {
    FilterMembers(s, NotEqual(x));
    Filter(s, NotEqual(x))
  }

  /** Removing the element at index `i` of a duplicate-free list by value is the splice
      `s.splice(i, 1)`. */
  lemma RemoveAllAt<T(!new)>(s: seq<T>, i: nat)
    requires Distinct(s) && i < |s|
    ensures RemoveAll(s, s[i]) == s[..i] + s[i + 1..]
  {
    assert s == s[..i] + [s[i]] + s[i + 1..];
    RemoveSplice(s[..i], s[i], s[i + 1..]);
  }

  /** Removing `x` from `a + [x] + b` where neither side holds `x` leaves `a + b`. */
  lemma RemoveSplice<T(!new)>(a: seq<T>, x: T, b: seq<T>)
    requires x !in a && x !in b
    ensures RemoveAll(a + [x] + b, x) == a + b
  {
    var p := NotEqual(x);
    var ax := a + [x];
    assert RemoveAll(ax + b, x) == Filter(ax + b, p);
    FilterAppend(ax, b, p);
    FilterSnoc(a, x, p);
    assert !p(x);
    forall i | 0 <= i < |a| ensures p(a[i]) {
      assert a[i] in a;
    }
    FilterKeepsAll(a, p);
    forall i | 0 <= i < |b| ensures p(b[i]) {
      assert b[i] in b;
    }
    FilterKeepsAll(b, p);
  }

  lemma {:induction false} FilterKeepsAll<T(!new)>(s: seq<T>, p: T -> bool)
    requires forall i | 0 <= i < |s| :: p(s[i])
    ensures Filter(s, p) == s
  {
    if s != [] {
      FilterKeepsAll(s[..|s| - 1], p);
    }
  }

  /** On a list without `x`, removing `x` changes nothing. */
  lemma RemoveAllAbsent<T(!new)>(s: seq<T>, x: T)
    requires x !in s
    ensures RemoveAll(s, x) == s
  {
    FilterKeepsAll(s, NotEqual(x));
  }

  lemma RemoveAllDistinct<T(!new)>(s: seq<T>, x: T)
    requires Distinct(s)
    ensures Distinct(RemoveAll(s, x))
    ensures x in s ==> |RemoveAll(s, x)| == |s| - 1
    ensures x !in s ==> RemoveAll(s, x) == s
  {
    FilterDistinct(s, NotEqual(x));
    if x in s {
      var i :| 0 <= i < |s| && s[i] == x;
      RemoveAllAt(s, i);
    } else {
      RemoveAllAbsent(s, x);
    }
  }

  /** `s.splice(clamp(k, 0, |s|), 0, x)`: `x` lands at the clamped index and every other
      element keeps its relative order. */
  function InsertAt<T(!new)>(s: seq<T>, x: T, k: int): (r: seq<T>)
    ensures |r| == |s| + 1
    ensures r[Clamp(k, 0, |s|)] == x
    ensures r[..Clamp(k, 0, |s|)] == s[..Clamp(k, 0, |s|)]
    ensures r[Clamp(k, 0, |s|) + 1..] == s[Clamp(k, 0, |s|)..]
    ensures multiset(r) == multiset(s) + multiset{x}
  {
    var c := Clamp(k, 0, |s|);
    assert s == s[..c] + s[c..];
    s[..c] + [x] + s[c..]
  }

  /** Taking the inserted element out again gives back the original list. */
  lemma InsertAtRemove<T(!new)>(s: seq<T>, x: T, k: int)
    requires x !in s
    ensures RemoveAll(InsertAt(s, x, k), x) == s
  {
    var c := Clamp(k, 0, |s|);
    var a, b := s[..c], s[c..];
    assert s == a + b;
    assert x !in a && x !in b;
    assert InsertAt(s, x, k) == a + [x] + b;
    RemoveSplice(a, x, b);
  }

  lemma InsertAtDistinct<T(!new)>(s: seq<T>, x: T, k: int)
    requires Distinct(s) && x !in s
    ensures Distinct(InsertAt(s, x, k))
  {
    var r := InsertAt(s, x, k);
    DistinctMultiset(s);
    assert x !in multiset(s);
    forall y | y in multiset(r) ensures multiset(r)[y] == 1 {
      if y != x {
        assert y in multiset(s);
      }
    }
    MultisetDistinct(r);
  }

  /** `s.splice(i, 1)`. */
  function RemoveAt<T(!new)>(s: seq<T>, i: nat): (r: seq<T>)
    requires i < |s|
    ensures |r| == |s| - 1
    ensures multiset(r) == multiset(s) - multiset{s[i]}
  {
    assert s == s[..i] + [s[i]] + s[i + 1..];
    s[..i] + s[i + 1..]
  }

  /**
   * The same-list move of the handlers: take out the element at index `i`, then put it
   * back at `k` clamped to `[0, |s| - 1]`, the last index of the list it stays in.
   */
  function Reorder<T(!new)>(s: seq<T>, i: nat, k: int): (r: seq<T>)
    requires i < |s|
    ensures |r| == |s|
    ensures multiset(r) == multiset(s)
    ensures r[Clamp(k, 0, |s| - 1)] == s[i]
    ensures RemoveAt(r, Clamp(k, 0, |s| - 1)) == RemoveAt(s, i)
  {
    var rest := RemoveAt(s, i);
    var c := Clamp(k, 0, |s| - 1);
    assert Clamp(c, 0, |rest|) == c;
    InsertAtRemoveAt(rest, s[i], c);
    InsertAt(rest, s[i], c)
  }

  /** Moving a member of a list without repeats to index `k` keeps the same members, once
      each, and puts the moved one at the clamped index. */
  lemma ReorderMember<T(!new)>(s: seq<T>, x: T, k: int)
    requires Distinct(s) && x in s
    ensures var i := FindIndex(s, x);
      var o := Reorder(s, i, k);
      && 0 <= i
      && Distinct(o)
      && (forall y :: y in o <==> y in s)
      && o[Clamp(k, 0, |s| - 1)] == x
  {
    var o := Reorder(s, FindIndex(s, x), k);
    PermutationDistinct(s, o);
    forall y ensures y in o <==> y in s {
      assert y in o <==> y in multiset(o);
      assert y in s <==> y in multiset(s);
    }
  }

  /** Taking out the element just inserted at an index in range gives back the list. */
  lemma InsertAtRemoveAt<T(!new)>(s: seq<T>, x: T, c: int)
    requires 0 <= c <= |s|
    ensures RemoveAt(InsertAt(s, x, c), c) == s
  {
    var r := InsertAt(s, x, c);
    assert Clamp(c, 0, |s|) == c;
    assert r[..c] == s[..c] && r[c + 1..] == s[c..];
    assert s == s[..c] + s[c..];
  }

  /** Moving an element to the index it already has leaves the list as it was. */
  lemma ReorderInPlace<T(!new)>(s: seq<T>, i: nat)
    requires i < |s|
    ensures Reorder(s, i, i) == s
  {
    var r := Reorder(s, i, i);
    assert Clamp(i, 0, |s| - 1) == i;
    assert r == r[..i] + [r[i]] + r[i + 1..];
    assert s == s[..i] + [s[i]] + s[i + 1..];
    assert RemoveAt(r, i) == RemoveAt(s, i);
    assert r[..i] == RemoveAt(r, i)[..i] == RemoveAt(s, i)[..i] == s[..i];
    assert r[i + 1..] == RemoveAt(r, i)[i..] == RemoveAt(s, i)[i..] == s[i + 1..];
  }

  /** Moving the first element of three to index 2 gives [old[1], old[2], old[0]]. */
  lemma ReorderFirstToLast<T(!new)>(a: T, b: T, c: T)
    ensures Reorder([a, b, c], 0, 2) == [b, c, a]
  {
    var r := Reorder([a, b, c], 0, 2);
    assert Clamp(2, 0, 2) == 2;
    assert RemoveAt([a, b, c], 0) == [b, c];
    assert RemoveAt(r, 2) == r[..2];
    assert r == r[..2] + [r[2]];
  }

  /** A list numbered along its order has no repeated element. */
  lemma IndexedDistinct<T(!new)>(s: seq<T>, key: T -> int)
    requires Indexed(s, key)
    ensures Distinct(s)
  {
    forall i, j | 0 <= i < j < |s| ensures s[i] != s[j] {
      assert key(s[i]) == i && key(s[j]) == j;
    }
  }
}
