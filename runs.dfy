/**
 * Sorted runs and the reference definitions the file operations are proved
 * against: the left-biased two-way merge, a reference sort, and the multiset
 * union of a list of runs.
 */
module Runs {

  /** A sorted run: non-decreasing end to end. */
  predicate Sorted(s: seq<int>) {
    forall i, j :: 0 <= i < j < |s| ==> s[i] <= s[j]
  }

  /**
   * The textbook two-way merge. On a tie the head of the first input is taken
   * first; once one input is exhausted the rest of the other follows unchanged.
   */
  function Merge(a: seq<int>, b: seq<int>): (merged: seq<int>)
    decreases |a| + |b|
  {
    if a == [] then b
    else if b == [] then a
    else if a[0] <= b[0] then [a[0]] + Merge(a[1..], b)
    else [b[0]] + Merge(a, b[1..])
  }

  /** Every record of each input is written exactly once. */
  lemma {:induction false} MergeMultiset(a: seq<int>, b: seq<int>)
    ensures multiset(Merge(a, b)) == multiset(a) + multiset(b)
    ensures |Merge(a, b)| == |a| + |b|
    decreases |a| + |b|
  {
    if a != [] && b != [] {
      if a[0] <= b[0] {
        MergeMultiset(a[1..], b);
        MergeTakesFirst(a, b);
      } else {
        MergeMultiset(a, b[1..]);
        MergeTakesSecond(a, b);
      }
    }
  }

  lemma MergeTakesFirst(a: seq<int>, b: seq<int>)
    requires a != [] && b != [] && a[0] <= b[0]
    requires multiset(Merge(a[1..], b)) == multiset(a[1..]) + multiset(b)
    requires |Merge(a[1..], b)| == |a| - 1 + |b|
    ensures multiset(Merge(a, b)) == multiset(a) + multiset(b)
    ensures |Merge(a, b)| == |a| + |b|
  {
    var m := Merge(a[1..], b);
    assert Merge(a, b) == [a[0]] + m;
    assert a == [a[0]] + a[1..];
    calc {
      multiset(Merge(a, b));
      multiset([a[0]] + m);
      multiset([a[0]]) + multiset(m);
      multiset([a[0]]) + (multiset(a[1..]) + multiset(b));
      (multiset([a[0]]) + multiset(a[1..])) + multiset(b);
      multiset([a[0]] + a[1..]) + multiset(b);
    }
  }

  lemma MergeTakesSecond(a: seq<int>, b: seq<int>)
    requires a != [] && b != [] && a[0] > b[0]
    requires multiset(Merge(a, b[1..])) == multiset(a) + multiset(b[1..])
    requires |Merge(a, b[1..])| == |a| + |b| - 1
    ensures multiset(Merge(a, b)) == multiset(a) + multiset(b)
    ensures |Merge(a, b)| == |a| + |b|
  {
    var m := Merge(a, b[1..]);
    assert Merge(a, b) == [b[0]] + m;
    assert b == [b[0]] + b[1..];
    calc {
      multiset(Merge(a, b));
      multiset([b[0]] + m);
      multiset([b[0]]) + multiset(m);
      multiset([b[0]]) + (multiset(a) + multiset(b[1..]));
      multiset(a) + (multiset([b[0]]) + multiset(b[1..]));
      multiset(a) + multiset([b[0]] + b[1..]);
    }
  }

  /** x <= every element of s */
  predicate LowerBound(x: int, s: seq<int>) {
    forall i :: 0 <= i < |s| ==> x <= s[i]
  }

  lemma LowerBoundByMultiset(x: int, s: seq<int>, t: seq<int>)
    requires LowerBound(x, t) && multiset(s) <= multiset(t)
    ensures LowerBound(x, s)
  {
    forall i | 0 <= i < |s| ensures x <= s[i] {
      assert s[i] in multiset(s);
      assert s[i] in multiset(t);
      var j :| 0 <= j < |t| && t[j] == s[i];
    }
  }

  lemma SortedCons(x: int, s: seq<int>)
    requires Sorted(s) && LowerBound(x, s)
    ensures Sorted([x] + s)
  {
  }

  /** Merging two sorted runs gives a sorted run. */
  lemma {:induction false} MergeSorted(a: seq<int>, b: seq<int>)
    requires Sorted(a) && Sorted(b)
    ensures Sorted(Merge(a, b))
    decreases |a| + |b|
  {
    if a != [] && b != [] {
      if a[0] <= b[0] {
        MergeSorted(a[1..], b);
        MergeMultiset(a[1..], b);
        assert LowerBound(a[0], a[1..] + b);
        assert multiset(a[1..] + b) == multiset(a[1..]) + multiset(b);
        LowerBoundByMultiset(a[0], Merge(a[1..], b), a[1..] + b);
        SortedCons(a[0], Merge(a[1..], b));
      } else {
        MergeSorted(a, b[1..]);
        MergeMultiset(a, b[1..]);
        assert LowerBound(b[0], a + b[1..]);
        assert multiset(a + b[1..]) == multiset(a) + multiset(b[1..]);
        LowerBoundByMultiset(b[0], Merge(a, b[1..]), a + b[1..]);
        SortedCons(b[0], Merge(a, b[1..]));
      }
    }
  }

  /** Insert x before the first element greater than it. */
  function Insert(x: int, s: seq<int>): (r: seq<int>)
    requires Sorted(s)
    ensures Sorted(r) && multiset(r) == multiset(s) + multiset{x}
  {
    if s == [] || x <= s[0] then
      assert LowerBound(x, s);
      [x] + s
    else
      var t := Insert(x, s[1..]);
      InsertBehindHead(x, s, t);
      [s[0]] + t
  }

  /** The step of Insert past a head smaller than x. */
  lemma InsertBehindHead(x: int, s: seq<int>, t: seq<int>)
    requires Sorted(s) && s != [] && s[0] < x
    requires Sorted(t) && multiset(t) == multiset(s[1..]) + multiset{x}
    ensures Sorted([s[0]] + t) && multiset([s[0]] + t) == multiset(s) + multiset{x}
  {
    assert s == [s[0]] + s[1..];
    assert LowerBound(s[0], [x] + s[1..]);
    assert multiset(t) == multiset([x] + s[1..]);
    LowerBoundByMultiset(s[0], t, [x] + s[1..]);
    SortedCons(s[0], t);
  }

  /** The reference sort (insertion sort): the sorted permutation of s. */
  function SortSpec(s: seq<int>): (r: seq<int>)
    ensures Sorted(r) && multiset(r) == multiset(s)
  {
    if s == [] then []
    else
      assert s == [s[0]] + s[1..];
      Insert(s[0], SortSpec(s[1..]))
  }

  lemma SortedPermutationSameHead(a: seq<int>, b: seq<int>)
    requires Sorted(a) && Sorted(b) && multiset(a) == multiset(b) && a != []
    ensures b != [] && a[0] == b[0]
    ensures multiset(a[1..]) == multiset(b[1..])
  {
    assert a[0] in multiset(b);
    var i :| 0 <= i < |b| && b[i] == a[0];
    assert b[0] in multiset(a);
    var j :| 0 <= j < |a| && a[j] == b[0];
    assert b[0] <= b[i] && a[0] <= a[j];
    assert a == [a[0]] + a[1..] && b == [b[0]] + b[1..];
    calc {
      multiset(a[1..]);
      multiset(a) - multiset{a[0]};
      multiset(b) - multiset{b[0]};
      multiset(b[1..]);
    }
  }

  /** A sorted permutation is unique: sorting determines the value sequence. */
  lemma {:induction false} SortedPermutationUnique(a: seq<int>, b: seq<int>)
    requires Sorted(a) && Sorted(b) && multiset(a) == multiset(b)
    ensures a == b
    decreases |a|
  {
    if a == [] {
      assert |multiset(b)| == 0;
    } else {
      SortedPermutationSameHead(a, b);
      SortedPermutationUnique(a[1..], b[1..]);
      assert a == [a[0]] + a[1..] && b == [b[0]] + b[1..];
    }
  }

  /** Sorting an already sorted run leaves it unchanged. */
  lemma SortSpecIdempotent(s: seq<int>)
    requires Sorted(s)
    ensures SortSpec(s) == s
  {
    SortedPermutationUnique(SortSpec(s), s);
  }

  /** The multiset union of runs lo up to (not including) hi. */
  function BagRange(runs: seq<seq<int>>, lo: nat, hi: nat): (bag: multiset<int>)
    requires lo <= hi <= |runs|
    decreases hi - lo
  {
    if lo == hi then multiset{} else BagRange(runs, lo, hi - 1) + multiset(runs[hi - 1])
  }

  /** The multiset union of a list of runs: every record of every run. */
  function Bag(runs: seq<seq<int>>): (bag: multiset<int>) {
    BagRange(runs, 0, |runs|)
  }

  /** Unions of adjacent ranges add up. */
  lemma {:induction false} BagSplit(runs: seq<seq<int>>, lo: nat, mid: nat, hi: nat)
    requires lo <= mid <= hi <= |runs|
    ensures BagRange(runs, lo, hi) == BagRange(runs, lo, mid) + BagRange(runs, mid, hi)
    decreases hi - mid
  {
    if mid < hi {
      BagSplit(runs, lo, mid, hi - 1);
    }
  }

  /** The union over a range depends only on the runs in that range. */
  lemma {:induction false} BagRangeSame(xs: seq<seq<int>>, ys: seq<seq<int>>, lo: nat, hi: nat, shift: nat)
    requires lo <= hi <= |xs| && hi + shift <= |ys|
    requires forall i :: lo <= i < hi ==> multiset(xs[i]) == multiset(ys[i + shift])
    ensures BagRange(xs, lo, hi) == BagRange(ys, lo + shift, hi + shift)
    decreases hi - lo
  {
    if lo < hi {
      BagRangeSame(xs, ys, lo, hi - 1, shift);
    }
  }

  predicate AllSorted(runs: seq<seq<int>>) {
    forall i :: 0 <= i < |runs| ==> Sorted(runs[i])
  }

  predicate AllNonEmpty(runs: seq<seq<int>>) {
    forall i :: 0 <= i < |runs| ==> runs[i] != []
  }
}
