/**
 The two charts read the cleaned series: the bar chart its monthly means,
 the box plot its tagged rows. This module connects the cleaner to both.
 */
module Pipeline {
  import opened Series
  import opened Cleaner
  import opened Monthly
  import opened BoxPlot

  /** Every value of a group comes from a row of the series. */
  lemma {:induction false} GroupValuesFromRows(rows: seq<Row>, k: Key, v: int)
    requires v in GroupValues(rows, k)
    ensures exists r :: r in rows && r.value == v
    decreases |rows|
  {
    if KeyOf(rows[0]) == k && v == rows[0].value {
      assert rows[0] in rows;
    } else {
      var rest := GroupValues(rows[1..], k);
      assert v in rest;
      GroupValuesFromRows(rows[1..], k, v);
      var r :| r in rows[1..] && r.value == v;
      assert r in rows;
    }
  }

  /** The sum of n values in [lo, hi] lies in [n * lo, n * hi]. */
  lemma {:induction false} SumBetween(vs: seq<int>, lo: real, hi: real)
    requires forall i :: 0 <= i < |vs| ==> lo <= vs[i] as real <= hi
    ensures |vs| as real * lo <= Sum(vs) as real <= |vs| as real * hi
    decreases |vs|
  {
    if |vs| > 0 {
      var rest := vs[1..];
      SumBetween(rest, lo, hi);
      assert Sum(vs) == vs[0] + Sum(rest);
      StepBetween(|rest| as real, lo, hi, vs[0] as real, Sum(rest) as real);
    }
  }

  /** Adding one value in [lo, hi] to a total of m such values gives a total of m + 1. */
  lemma StepBetween(m: real, lo: real, hi: real, v: real, total: real)
    requires m * lo <= total <= m * hi && lo <= v <= hi
    ensures (m + 1.0) * lo <= v + total <= (m + 1.0) * hi
  {
    OneMore(m, lo);
    OneMore(m, hi);
  }

  lemma OneMore(n: real, x: real)
    ensures (n + 1.0) * x == n * x + x
  {
  }

  /** A total between n * lo and n * hi averages to a value between lo and hi. */
  lemma DivideBetween(total: real, n: real, lo: real, hi: real)
    requires n > 0.0 && n * lo <= total <= n * hi
    ensures lo <= total / n <= hi
  {
    assert total / n * n == total;
  }

  /** The mean of values in [lo, hi] lies in [lo, hi]. */
  lemma MeanBetween(vs: seq<int>, lo: real, hi: real)
    requires |vs| > 0
    requires forall i :: 0 <= i < |vs| ==> lo <= vs[i] as real <= hi
    ensures lo <= Mean(vs) <= hi
  {
    SumBetween(vs, lo, hi);
    DivideBetween(Sum(vs) as real, |vs| as real, lo, hi);
  }

  /**
   Every monthly mean the bar chart draws lies within the cleaning bounds,
   since it averages values that all passed the filter.
   */
  lemma BarMeansWithinBounds(rows: seq<Row>)
    requires |rows| > 0
    ensures var b := CleanBounds(rows).value;
      forall bar :: bar in MonthlyBars(Clean(rows)) ==> b.lower <= bar.mean <= b.upper
  {
    var b := CleanBounds(rows).value;
    var clean := Clean(rows);
    var bars := MonthlyBars(clean);
    forall bar | bar in bars
      ensures b.lower <= bar.mean <= b.upper
    {
      var i :| 0 <= i < |bars| && bars[i] == bar;
      BarMeanWithinBounds(rows, clean, b, bars[i]);
    }
  }

  /** The mean of one bar of the cleaned series lies within the cleaning bounds. */
  lemma BarMeanWithinBounds(rows: seq<Row>, clean: seq<Row>, b: Bounds, bar: BarRow)
    requires forall r :: r in clean ==> b.lower <= r.value as real <= b.upper
    requires 0 <= bar.month.code < 12
    requires |GroupValues(clean, BarKey(bar))| > 0
    requires bar.mean == Mean(GroupValues(clean, BarKey(bar)))
    ensures b.lower <= bar.mean <= b.upper
  {
    var vs := GroupValues(clean, BarKey(bar));
    forall j | 0 <= j < |vs|
      ensures b.lower <= vs[j] as real <= b.upper
    {
      GroupValuesFromRows(clean, BarKey(bar), vs[j]);
    }
    MeanBetween(vs, b.lower, b.upper);
  }

  /** Every value the box plot draws passed the filter. */
  lemma BoxValuesWithinBounds(rows: seq<Row>)
    requires |rows| > 0
    ensures var b := CleanBounds(rows).value;
      forall t :: t in TagBox(Clean(rows)) ==> b.lower <= t.value as real <= b.upper
  {
    var b := CleanBounds(rows).value;
    var clean := Clean(rows);
    var tagged := TagBox(clean);
    forall t | t in tagged
      ensures b.lower <= t.value as real <= b.upper
    {
      var i :| 0 <= i < |tagged| && tagged[i] == t;
      assert clean[i] in clean;
    }
  }
}
