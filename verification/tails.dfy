/**
 How much the outlier cleaner can remove. With k = floor((n - 1) * p), a
 cut at probability p sits at or below the order statistic at k + 1, so at
 most k + 1 values fall below it; it sits at or above the order statistic
 at k, so at most n - 1 - k values lie above it. With the 2.5% and 97.5%
 cuts this is about 2.5% per tail only for large n: a series of at most 40
 rows can still lose one row at each end.
 */
module Tails {
  import opened Series
  import opened Sorting
  import opened Quantiles
  import opened Cleaner

  /** The values strictly below `x`, in order. */
  function BelowValues(vs: seq<int>, x: real): (out: seq<int>)
    ensures |out| <= |vs|
    ensures forall v :: multiset(out)[v] == if (v as real) < x then multiset(vs)[v] else 0
  {
    if |vs| == 0 then []
    else
      var rest := BelowValues(vs[1..], x);
      assert vs == [vs[0]] + vs[1..];
      if (vs[0] as real) < x then [vs[0]] + rest else rest
  }

  /** The values strictly above `x`, in order. */
  function AboveValues(vs: seq<int>, x: real): (out: seq<int>)
    ensures |out| <= |vs|
    ensures forall v :: multiset(out)[v] == if (v as real) > x then multiset(vs)[v] else 0
  {
    if |vs| == 0 then []
    else
      var rest := AboveValues(vs[1..], x);
      assert vs == [vs[0]] + vs[1..];
      if (vs[0] as real) > x then [vs[0]] + rest else rest
  }

  /** How many values lie below or above a cut depends only on the multiset of values. */
  lemma TailPermutation(a: seq<int>, b: seq<int>, x: real)
    requires multiset(a) == multiset(b)
    ensures |BelowValues(a, x)| == |BelowValues(b, x)|
    ensures |AboveValues(a, x)| == |AboveValues(b, x)|
  {
    var ba, bb := BelowValues(a, x), BelowValues(b, x);
    assert multiset(ba) == multiset(bb) by {
      assert forall v :: multiset(ba)[v] == multiset(bb)[v];
    }
    assert |ba| == |multiset(ba)| == |multiset(bb)| == |bb|;
    var aa, ab := AboveValues(a, x), AboveValues(b, x);
    assert multiset(aa) == multiset(ab) by {
      assert forall v :: multiset(aa)[v] == multiset(ab)[v];
    }
    assert |aa| == |multiset(aa)| == |multiset(ab)| == |ab|;
  }

  /** When every value from position k on is at least `x`, at most k values are below `x`. */
  lemma {:induction false} BelowAtMost(s: seq<int>, x: real, k: nat)
    requires k <= |s|
    requires forall i :: k <= i < |s| ==> x <= s[i] as real
    ensures |BelowValues(s, x)| <= k
    decreases |s|
  {
    if |s| > 0 {
      if k == 0 {
        BelowAtMost(s[1..], x, 0);
      } else {
        BelowAtMost(s[1..], x, k - 1);
      }
    }
  }

  /** When every value before the last k is at most `x`, at most k values are above `x`. */
  lemma {:induction false} AboveAtMost(s: seq<int>, x: real, k: nat)
    requires k <= |s|
    requires forall i :: 0 <= i < |s| - k ==> s[i] as real <= x
    ensures |AboveValues(s, x)| <= k
    decreases |s|
  {
    if k < |s| {
      AboveAtMost(s[1..], x, k);
    }
  }

  /**
   On a sorted column at most k + 1 values lie below the p-quantile and at
   most n - 1 - k above it, where k = floor((n - 1) * p).
   */
  lemma QuantileTails(s: seq<int>, p: real)
    requires |s| > 0 && Sorted(s) && IsProbability(p)
    ensures |BelowValues(s, Linear(s, p))| <= LowerIndex(|s|, p) + 1
    ensures |AboveValues(s, Linear(s, p))| <= |s| - 1 - LowerIndex(|s|, p)
  {
    var k := LowerIndex(|s|, p);
    var q := Linear(s, p);
    forall i | k + 1 <= i < |s|
      ensures q <= s[i] as real
    {
      assert s[k + 1] <= s[i];
    }
    BelowAtMost(s, q, k + 1);
    forall i | 0 <= i < k + 1
      ensures s[i] as real <= q
    {
      assert s[i] <= s[k];
    }
    AboveAtMost(s, q, |s| - 1 - k);
  }

  /** Every row is kept, below the lower bound or above the upper bound, and only one of these. */
  lemma {:induction false} KeptCount(rows: seq<Row>, b: Bounds)
    requires b.lower <= b.upper
    ensures |KeepInRange(rows, b)| + |BelowValues(Values(rows), b.lower)| + |AboveValues(Values(rows), b.upper)| == |rows|
    decreases |rows|
  {
    if |rows| > 0 {
      KeptCount(rows[1..], b);
      assert Values(rows)[1..] == Values(rows[1..]);
    }
  }

  /**
   The cleaner removes at most floor((n - 1) * 0.025) + 1 rows below the
   lower bound and at most n - 1 - floor((n - 1) * 0.975) above the upper
   bound, so at least the difference of the two indices survives.
   */
  lemma CleanTails(rows: seq<Row>)
    requires |rows| > 0
    ensures var n, b := |rows|, CleanBounds(rows).value;
      && |BelowValues(Values(rows), b.lower)| <= LowerIndex(n, LowerP) + 1
      && |AboveValues(Values(rows), b.upper)| <= n - 1 - LowerIndex(n, UpperP)
      && |Clean(rows)| >= LowerIndex(n, UpperP) - LowerIndex(n, LowerP)
  {
    var vs := Values(rows);
    var s := Sort(vs);
    var b := CleanBounds(rows).value;
    assert b.lower == Linear(s, LowerP) && b.upper == Linear(s, UpperP);
    TailPermutation(vs, s, b.lower);
    TailPermutation(vs, s, b.upper);
    QuantileTails(s, LowerP);
    QuantileTails(s, UpperP);
    KeptCount(rows, b);
    CleanIsKeep(rows);
  }

  /** From 1000 rows at most 25 fall in each tail, so at least 950 survive. */
  lemma CleanThousand(rows: seq<Row>)
    requires |rows| == 1000
    ensures var b := CleanBounds(rows).value;
      && |BelowValues(Values(rows), b.lower)| <= 25
      && |AboveValues(Values(rows), b.upper)| <= 25
      && |Clean(rows)| >= 950
  {
    CleanTails(rows);
    ThousandIndices();
  }

  /** For 1000 values the cuts fall between order statistics 24, 25 and 974, 975. */
  lemma ThousandIndices()
    ensures LowerIndex(1000, LowerP) == 24 && LowerIndex(1000, UpperP) == 974
  {
    assert Position(1000, LowerP) == 24.975;
    assert Position(1000, UpperP) == 974.025;
  }
}
