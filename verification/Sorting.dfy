/** Stable sorting by a numeric key, binary search on the result, and the pigeonhole principle. */
module Sorting {
  import opened Wrappers

  predicate SortedBy<T>(xs: seq<T>, key: T -> nat) {
    forall i, j | 0 <= i < j < |xs| :: key(xs[i]) <= key(xs[j])
  }

  function InsertBy<T>(xs: seq<T>, x: T, key: T -> nat): seq<T> {
    if xs == [] then [x]
    else
      var n := |xs| - 1;
      if key(xs[n]) <= key(x) then xs + [x] else InsertBy(xs[..n], x, key) + [xs[n]]
  }

  /** The stable ascending arrangement of `xs`. */
  function SortBy<T>(xs: seq<T>, key: T -> nat): seq<T> {
    if xs == [] then [] else InsertBy(SortBy(xs[..|xs| - 1], key), xs[|xs| - 1], key)
  }

  lemma {:induction false} InsertedElements<T>(xs: seq<T>, x: T, key: T -> nat)
    ensures multiset(InsertBy(xs, x, key)) == multiset(xs) + multiset{x}
  {
    if xs != [] {
      var n := |xs| - 1;
      InsertedElements(xs[..n], x, key);
      assert xs == xs[..n] + [xs[n]];
    }
  }

  lemma {:induction false} InsertedSorted<T>(xs: seq<T>, x: T, key: T -> nat)
    requires SortedBy(xs, key)
    ensures SortedBy(InsertBy(xs, x, key), key)
  {
    if xs != [] && key(xs[|xs| - 1]) > key(x) {
      var n := |xs| - 1;
      InsertedSorted(xs[..n], x, key);
      InsertedElements(xs[..n], x, key);
      var r := InsertBy(xs[..n], x, key);
      forall i | 0 <= i < |r|
        ensures key(r[i]) <= key(xs[n])
      {
        assert r[i] in multiset(r);
        assert r[i] == x || r[i] in xs[..n];
      }
    }
  }

  lemma SplitLast<T>(xs: seq<T>)
    requires xs != []
    ensures multiset(xs) == multiset(xs[..|xs| - 1]) + multiset{xs[|xs| - 1]}
  {
    assert xs == xs[..|xs| - 1] + [xs[|xs| - 1]];
  }

  lemma {:induction false} SortByPermutes<T>(xs: seq<T>, key: T -> nat)
    ensures multiset(SortBy(xs, key)) == multiset(xs)
  {
    if xs != [] {
      var n := |xs| - 1;
      SortByPermutes(xs[..n], key);
      InsertedElements(SortBy(xs[..n], key), xs[n], key);
      SplitLast(xs);
    }
  }

  lemma {:induction false} SortBySorts<T>(xs: seq<T>, key: T -> nat)
    ensures SortedBy(SortBy(xs, key), key)
  {
    if xs != [] {
      var n := |xs| - 1;
      SortBySorts(xs[..n], key);
      InsertedSorted(SortBy(xs[..n], key), xs[n], key);
    }
  }

  lemma SortByMembers<T>(xs: seq<T>, key: T -> nat)
    ensures |SortBy(xs, key)| == |xs|
    ensures forall x :: x in SortBy(xs, key) <==> x in xs
  {
    SortByPermutes(xs, key);
    assert |multiset(SortBy(xs, key))| == |multiset(xs)|;
    forall x ensures x in SortBy(xs, key) <==> x in xs {
      assert x in multiset(SortBy(xs, key)) <==> x in multiset(xs);
    }
  }

  /** Where an element of the sorted arrangement comes from. */
  lemma SortByOrigin<T>(xs: seq<T>, key: T -> nat, p: nat) returns (i: nat)
    requires p < |SortBy(xs, key)|
    ensures i < |xs| && xs[i] == SortBy(xs, key)[p]
  {
    SortByPermutes(xs, key);
    assert SortBy(xs, key)[p] in multiset(SortBy(xs, key));
    i :| 0 <= i < |xs| && xs[i] == SortBy(xs, key)[p];
  }

  /** Binary search in `xs[lo..hi]`. */
  function SearchBy<T>(xs: seq<T>, key: T -> nat, k: nat, lo: nat, hi: nat): (r: Option<nat>)
    requires lo <= hi <= |xs| && SortedBy(xs, key)
    ensures r.Some? ==> lo <= r.value < hi && key(xs[r.value]) == k
    ensures r.None? ==> forall i | lo <= i < hi :: key(xs[i]) != k
    decreases hi - lo
  {
    if lo == hi then None
    else
      var mid := lo + (hi - lo) / 2;
      if key(xs[mid]) == k then Some(mid)
      else if key(xs[mid]) < k then SearchBy(xs, key, k, mid + 1, hi)
      else SearchBy(xs, key, k, lo, mid)
  }

  predicate KeysDistinct<T>(xs: seq<T>, key: T -> nat) {
    forall i, j | 0 <= i < j < |xs| :: key(xs[i]) != key(xs[j])
  }

  /** Searching the sorted arrangement of distinct keys finds exactly the element with that key. */
  lemma SearchSorted<T>(xs: seq<T>, key: T -> nat, k: nat, i: nat)
    requires KeysDistinct(xs, key) && i < |xs| && key(xs[i]) == k
    ensures SortedBy(SortBy(xs, key), key)
    ensures var r := SearchBy(SortBy(xs, key), key, k, 0, |SortBy(xs, key)|);
            r.Some? && SortBy(xs, key)[r.value] == xs[i]
  {
    SortBySorts(xs, key);
    SortByMembers(xs, key);
    var sorted := SortBy(xs, key);
    assert xs[i] in sorted;
    var p :| 0 <= p < |sorted| && sorted[p] == xs[i];
    var r := SearchBy(sorted, key, k, 0, |sorted|);
    var j := SortByOrigin(xs, key, r.value);
  }

  lemma SearchSortedMiss<T>(xs: seq<T>, key: T -> nat, k: nat)
    requires forall i | 0 <= i < |xs| :: key(xs[i]) != k
    ensures SortedBy(SortBy(xs, key), key)
    ensures SearchBy(SortBy(xs, key), key, k, 0, |SortBy(xs, key)|).None?
  {
    SortBySorts(xs, key);
    var sorted := SortBy(xs, key);
    forall p | 0 <= p < |sorted| ensures key(sorted[p]) != k {
      var i := SortByOrigin(xs, key, p);
    }
  }

  /** More values than the set they come from: two of them coincide. */
  lemma {:induction false} Pigeonhole<T>(xs: seq<T>, s: set<T>) returns (i: nat, j: nat)
    requires |xs| > |s| && forall k | 0 <= k < |xs| :: xs[k] in s
    ensures i < j < |xs| && xs[i] == xs[j]
    decreases |xs|
  {
    var n := |xs| - 1;
    if k :| 0 <= k < n && xs[k] == xs[n] {
      i, j := k, n;
    } else {
      assert |s - {xs[n]}| == |s| - 1;
      i, j := Pigeonhole(xs[..n], s - {xs[n]});
    }
  }
}
