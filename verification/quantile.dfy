/**
 The sample quantile of the value column with linear interpolation between
 order statistics (definition 7 of Hyndman and Fan, 1996, the default of
 pandas' Series.quantile). Arithmetic is over exact reals.
 */
module Quantiles {
  import opened Series
  import opened Sorting

  predicate IsProbability(p: real) {
    0.0 <= p <= 1.0
  }

  /** The virtual position h = (n - 1) * p in a sorted column of n values. */
  function Position(n: nat, p: real): (h: real)
    requires n > 0 && IsProbability(p)
    ensures 0.0 <= h <= (n - 1) as real
  {
    var last := (n - 1) as real;
    assert last * p <= last * 1.0 by { assert last * (1.0 - p) >= 0.0; }
    last * p
  }

  /** k = floor(h): the index of the order statistic at or just below h. */
  function LowerIndex(n: nat, p: real): (k: nat)
    requires n > 0 && IsProbability(p)
    ensures k < n
    ensures k as real <= Position(n, p) < k as real + 1.0
  {
    Position(n, p).Floor
  }

  /**
   Linear interpolation on a sorted column: x[k] + (h - k) * (x[k+1] - x[k]),
   or x[n-1] when k is the last index.
   */
  function Linear(s: seq<int>, p: real): (q: real)
    requires |s| > 0 && Sorted(s) && IsProbability(p)
    ensures s[LowerIndex(|s|, p)] as real <= q
    ensures LowerIndex(|s|, p) + 1 < |s| ==> q <= s[LowerIndex(|s|, p) + 1] as real
    ensures LowerIndex(|s|, p) + 1 == |s| ==> q == s[|s| - 1] as real
  {
    var n := |s|;
    var k := LowerIndex(n, p);
    if k == n - 1 then s[n - 1] as real
    else
      var t := Position(n, p) - k as real;
      var d := (s[k + 1] - s[k]) as real;
      FractionOfGap(t, d);
      s[k] as real + t * d
  }

  /** A fraction t in [0, 1] of a non-negative gap d lies within the gap. */
  lemma FractionOfGap(t: real, d: real)
    requires 0.0 <= t <= 1.0 && 0.0 <= d
    ensures 0.0 <= t * d <= d
  {
    assert (1.0 - t) * d >= 0.0;
  }

  /** The quantile of the value column; None (pandas: NaN) for an empty column. */
  function Quantile(xs: seq<int>, p: real): (q: Option<real>)
    requires IsProbability(p)
    ensures q.None? <==> |xs| == 0
    ensures q.Some? ==> Min(xs) as real <= q.value <= Max(xs) as real
  {
    if |xs| == 0 then None
    else
      var s := Sort(xs);
      SortEnds(xs);
      LinearWithinRange(s, p);
      Some(Linear(s, p))
  }

  /** Interpolation never leaves the range of the sorted column. */
  lemma LinearWithinRange(s: seq<int>, p: real)
    requires |s| > 0 && Sorted(s) && IsProbability(p)
    ensures s[0] as real <= Linear(s, p) <= s[|s| - 1] as real
  {
    var k := LowerIndex(|s|, p);
    if k + 1 < |s| {
      assert s[0] <= s[k] && s[k + 1] <= s[|s| - 1];
    }
  }

  /** The quantile is monotone in the probability. */
  lemma LinearMonotone(s: seq<int>, p1: real, p2: real)
    requires |s| > 0 && Sorted(s)
    requires IsProbability(p1) && IsProbability(p2) && p1 <= p2
    ensures Linear(s, p1) <= Linear(s, p2)
  {
    var n := |s|;
    PositionMonotone(n, p1, p2);
    var k1 := LowerIndex(n, p1);
    var k2 := LowerIndex(n, p2);
    if k1 < k2 {
      assert s[k1 + 1] <= s[k2];
    } else if k1 + 1 < n {
      LinearSameGap(s, p1, p2);
    }
  }

  /** Two positions in the same gap interpolate in the order of the positions. */
  lemma LinearSameGap(s: seq<int>, p1: real, p2: real)
    requires |s| > 0 && Sorted(s) && IsProbability(p1) && IsProbability(p2)
    requires LowerIndex(|s|, p1) == LowerIndex(|s|, p2) && LowerIndex(|s|, p1) + 1 < |s|
    requires Position(|s|, p1) <= Position(|s|, p2)
    ensures Linear(s, p1) <= Linear(s, p2)
  {
    var k := LowerIndex(|s|, p1);
    var d := (s[k + 1] - s[k]) as real;
    var t1, t2 := Position(|s|, p1) - k as real, Position(|s|, p2) - k as real;
    var a := s[k] as real;
    ScaleMonotone(t1, t2, d);
    calc {
      Linear(s, p1);
    == { LinearInGap(s, p1); }
      a + t1 * d;
    <=
      a + t2 * d;
    == { LinearInGap(s, p2); }
      Linear(s, p2);
    }
  }

  /** Inside a gap between two order statistics the quantile is the interpolated point. */
  lemma LinearInGap(s: seq<int>, p: real)
    requires |s| > 0 && Sorted(s) && IsProbability(p)
    requires LowerIndex(|s|, p) + 1 < |s|
    ensures var k := LowerIndex(|s|, p);
      Linear(s, p) == s[k] as real + (Position(|s|, p) - k as real) * (s[k + 1] - s[k]) as real
  {
  }

  lemma PositionMonotone(n: nat, p1: real, p2: real)
    requires n > 0 && IsProbability(p1) && IsProbability(p2) && p1 <= p2
    ensures Position(n, p1) <= Position(n, p2)
    ensures LowerIndex(n, p1) <= LowerIndex(n, p2)
  {
    var last := (n - 1) as real;
    Distribute(last, p2, p1);
    MulNonNegative(last, p2 - p1);
  }

  lemma ScaleMonotone(t1: real, t2: real, d: real)
    requires t1 <= t2 && 0.0 <= d
    ensures t1 * d <= t2 * d
  {
    Distribute(d, t2, t1);
    MulNonNegative(d, t2 - t1);
  }

  lemma MulNonNegative(a: real, b: real)
    requires 0.0 <= a && 0.0 <= b
    ensures 0.0 <= a * b
  {
  }

  lemma Distribute(a: real, b: real, c: real)
    ensures a * b - a * c == a * (b - c)
  {
  }

  lemma QuantileMonotone(xs: seq<int>, p1: real, p2: real)
    requires |xs| > 0
    requires IsProbability(p1) && IsProbability(p2) && p1 <= p2
    ensures Quantile(xs, p1).value <= Quantile(xs, p2).value
  {
    LinearMonotone(Sort(xs), p1, p2);
  }

  /** The quantile depends only on the multiset of values, not on their order. */
  lemma QuantilePermutation(xs: seq<int>, ys: seq<int>, p: real)
    requires multiset(xs) == multiset(ys)
    requires IsProbability(p)
    ensures Quantile(xs, p) == Quantile(ys, p)
  {
    SortPermutation(xs, ys);
    assert |xs| == |multiset(xs)| == |multiset(ys)| == |ys|;
  }

  /** The 0-quantile is the minimum and the 1-quantile the maximum. */
  lemma QuantileExtremes(xs: seq<int>)
    requires |xs| > 0
    ensures Quantile(xs, 0.0) == Some(Min(xs) as real)
    ensures Quantile(xs, 1.0) == Some(Max(xs) as real)
  {
    SortEnds(xs);
    LinearAtZero(Sort(xs));
    LinearAtOne(Sort(xs));
  }

  lemma LinearAtZero(s: seq<int>)
    requires |s| > 0 && Sorted(s)
    ensures Linear(s, 0.0) == s[0] as real
  {
    assert Position(|s|, 0.0) == 0.0;
    assert LowerIndex(|s|, 0.0) == 0;
    if |s| > 1 {
      LinearInGap(s, 0.0);
    }
  }

  lemma LinearAtOne(s: seq<int>)
    requires |s| > 0 && Sorted(s)
    ensures Linear(s, 1.0) == s[|s| - 1] as real
  {
    assert Position(|s|, 1.0) == (|s| - 1) as real;
    assert LowerIndex(|s|, 1.0) == |s| - 1;
  }

  /** On an already sorted column the quantile reads the column directly. */
  lemma QuantileOfSorted(xs: seq<int>, p: real)
    requires |xs| > 0 && Sorted(xs) && IsProbability(p)
    ensures Quantile(xs, p) == Some(Linear(xs, p))
  {
    SortOfSorted(xs);
  }
}
