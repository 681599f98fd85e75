/**
 The sorted copy of the value column that the linear-interpolation quantile
 reads its order statistics from, together with the smallest and largest
 value of a non-empty column.
 */
module Sorting {

  predicate Sorted(s: seq<int>) {
    forall i, j :: 0 <= i < j < |s| ==> s[i] <= s[j]
  }

  /** Inserts `x` into a sorted sequence, keeping it sorted. */
  function Insert(x: int, s: seq<int>): (r: seq<int>)
    requires Sorted(s)
    ensures Sorted(r)
    ensures multiset(r) == multiset(s) + multiset{x}
    ensures |r| == |s| + 1
  {
    if |s| == 0 then [x]
    else if x <= s[0] then [x] + s
    else
      var tail := Insert(x, s[1..]);
      assert s == [s[0]] + s[1..];
      HeadBelowTail(x, s, tail);
      [s[0]] + tail
  }

  /** Everything inserted after the head of a sorted sequence is at least the head. */
  lemma HeadBelowTail(x: int, s: seq<int>, tail: seq<int>)
    requires Sorted(s) && |s| > 0 && s[0] < x
    requires multiset(tail) == multiset(s[1..]) + multiset{x}
    ensures forall i :: 0 <= i < |tail| ==> s[0] <= tail[i]
  {
    forall i | 0 <= i < |tail|
      ensures s[0] <= tail[i]
    {
      assert tail[i] in multiset(tail);
      if tail[i] != x {
        assert tail[i] in s[1..];
      }
    }
  }

  /** A sorted permutation of `xs` (insertion sort). */
  function Sort(xs: seq<int>): (r: seq<int>)
    ensures Sorted(r)
    ensures multiset(r) == multiset(xs)
    ensures |r| == |xs|
  {
    if |xs| == 0 then []
    else
      assert xs == [xs[0]] + xs[1..];
      Insert(xs[0], Sort(xs[1..]))
  }

  /** Two sorted sequences holding the same multiset of values are equal. */
  lemma {:induction false} SortedUnique(a: seq<int>, b: seq<int>)
    requires Sorted(a) && Sorted(b)
    requires multiset(a) == multiset(b)
    ensures a == b
    decreases |a|
  {
    assert |a| == |multiset(a)| == |multiset(b)| == |b|;
    if |a| > 0 {
      assert a[0] in multiset(b);
      assert b[0] in multiset(a);
      assert a[0] == b[0];
      assert a == [a[0]] + a[1..];
      assert b == [b[0]] + b[1..];
      assert multiset(a[1..]) == multiset(a) - multiset{a[0]};
      assert multiset(b[1..]) == multiset(b) - multiset{b[0]};
      SortedUnique(a[1..], b[1..]);
    }
  }

  /** Sorting depends only on the multiset of values, not on their order. */
  lemma SortPermutation(xs: seq<int>, ys: seq<int>)
    requires multiset(xs) == multiset(ys)
    ensures Sort(xs) == Sort(ys)
  {
    SortedUnique(Sort(xs), Sort(ys));
  }

  /** Sorting an already sorted sequence returns it unchanged. */
  lemma SortOfSorted(xs: seq<int>)
    requires Sorted(xs)
    ensures Sort(xs) == xs
  {
    SortedUnique(Sort(xs), xs);
  }

  /** The smallest value of a non-empty sequence. */
  function Min(xs: seq<int>): (m: int)
    requires |xs| > 0
    ensures m in xs
    ensures forall i :: 0 <= i < |xs| ==> m <= xs[i]
  {
    if |xs| == 1 then xs[0]
    else
      var rest := Min(xs[1..]);
      if xs[0] <= rest then xs[0] else rest
  }

  /** The largest value of a non-empty sequence. */
  function Max(xs: seq<int>): (m: int)
    requires |xs| > 0
    ensures m in xs
    ensures forall i :: 0 <= i < |xs| ==> xs[i] <= m
  {
    if |xs| == 1 then xs[0]
    else
      var rest := Max(xs[1..]);
      if xs[0] >= rest then xs[0] else rest
  }

  /** The first element of the sorted copy is the minimum, the last the maximum. */
  lemma SortEnds(xs: seq<int>)
    requires |xs| > 0
    ensures Sort(xs)[0] == Min(xs)
    ensures Sort(xs)[|xs| - 1] == Max(xs)
  {
    var s := Sort(xs);
    SortedEnds(s, xs);
  }

  /** The ends of a sorted permutation of `xs` are its minimum and maximum. */
  lemma SortedEnds(s: seq<int>, xs: seq<int>)
    requires |xs| > 0 && Sorted(s) && multiset(s) == multiset(xs)
    ensures |s| == |xs|
    ensures s[0] == Min(xs) && s[|s| - 1] == Max(xs)
  {
    assert |s| == |multiset(s)| == |multiset(xs)| == |xs|;
    var lo, hi := Min(xs), Max(xs);
    assert lo in multiset(s) && hi in multiset(s);
    var i :| 0 <= i < |s| && s[i] == lo;
    var j :| 0 <= j < |s| && s[j] == hi;
    assert s[0] in multiset(xs) && s[|s| - 1] in multiset(xs);
    assert s[0] <= s[i] && s[j] <= s[|s| - 1];
  }
}
