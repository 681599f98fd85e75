/**
 The outlier cleaner: the 2.5% and 97.5% quantiles of the raw value column
 bound a closed interval, and exactly the rows whose value lies in it are
 kept, in their original order.
 */
module Cleaner {
  import opened Series
  import opened Sorting
  import opened Quantiles

  /** The probabilities of the lower and upper cut. */
  const LowerP: real := 0.025
  const UpperP: real := 0.975

  /** The closed interval [lower, upper] a kept value must lie in. */
  datatype Bounds = Bounds(lower: real, upper: real)

  predicate InRange(r: Row, b: Bounds) {
    b.lower <= r.value as real && r.value as real <= b.upper
  }

  /**
   The two cut points. An empty column has no quantiles (pandas yields NaN),
   which is None here.
   */
  function CleanBounds(rows: seq<Row>): (b: Option<Bounds>)
    ensures b.None? <==> |rows| == 0
    ensures b.Some? ==>
      && Min(Values(rows)) as real <= b.value.lower
      && b.value.lower <= b.value.upper
      && b.value.upper <= Max(Values(rows)) as real
  {
    var lower := Quantile(Values(rows), LowerP);
    var upper := Quantile(Values(rows), UpperP);
    if lower.Some? && upper.Some? then
      QuantileMonotone(Values(rows), LowerP, UpperP);
      Some(Bounds(lower.value, upper.value))
    else None
  }

  /** The rows whose value lies in `b`, in their original order. */
  function KeepInRange(rows: seq<Row>, b: Bounds): (kept: seq<Row>)
    ensures IsSubsequence(kept, rows)
    ensures forall r :: r in kept ==> InRange(r, b)
    ensures forall r :: r in rows && InRange(r, b) ==> r in kept
    ensures forall r :: multiset(kept)[r] == if InRange(r, b) then multiset(rows)[r] else 0
  {
    if |rows| == 0 then []
    else
      var rest := KeepInRange(rows[1..], b);
      assert rows == [rows[0]] + rows[1..];
      if InRange(rows[0], b) then
        assert ([rows[0]] + rest)[1..] == rest;
        [rows[0]] + rest
      else rest
  }

  /**
   The cleaned series. A row survives exactly when lower <= value <= upper;
   with no bounds (an empty series) nothing survives, as every comparison
   with NaN is false.
   */
  function Clean(rows: seq<Row>): (clean: seq<Row>)
    ensures IsSubsequence(clean, rows)
    ensures forall r :: r in clean ==> r in rows
    ensures |clean| <= |rows|
    ensures |rows| == 0 ==> clean == []
    ensures |rows| > 0 ==> clean == KeepInRange(rows, CleanBounds(rows).value)
    ensures |rows| > 0 ==>
      var b := CleanBounds(rows).value;
      && (forall r :: r in clean ==> b.lower <= r.value as real <= b.upper)
      && (forall r :: r in rows ==> (r !in clean <==> r.value as real < b.lower || r.value as real > b.upper))
  {
    if |rows| == 0 then []
    else
      var kept := KeepInRange(rows, CleanBounds(rows).value);
      SubsequenceLength(kept, rows);
      SubsequenceMembers(kept, rows);
      kept
  }

  /** Permuting the raw rows changes neither the bounds nor which rows survive. */
  lemma CleanPermutation(rows1: seq<Row>, rows2: seq<Row>)
    requires multiset(rows1) == multiset(rows2)
    ensures CleanBounds(rows1) == CleanBounds(rows2)
    ensures multiset(Clean(rows1)) == multiset(Clean(rows2))
  {
    ValuesPermutation(rows1, rows2);
    QuantilePermutation(Values(rows1), Values(rows2), LowerP);
    QuantilePermutation(Values(rows1), Values(rows2), UpperP);
    assert |rows1| == |multiset(rows1)| == |multiset(rows2)| == |rows2|;
    if |rows1| > 0 {
      KeepPermutation(rows1, rows2, CleanBounds(rows1).value);
    }
  }

  /** Which rows the filter keeps depends only on the multiset of rows. */
  lemma KeepPermutation(rows1: seq<Row>, rows2: seq<Row>, b: Bounds)
    requires multiset(rows1) == multiset(rows2)
    ensures multiset(KeepInRange(rows1, b)) == multiset(KeepInRange(rows2, b))
  {
    var k1, k2 := KeepInRange(rows1, b), KeepInRange(rows2, b);
    assert forall r :: multiset(k1)[r] == multiset(k2)[r];
  }

  /** Filtering distributes over concatenation. */
  lemma {:induction false} KeepAppend(a: seq<Row>, c: seq<Row>, b: Bounds)
    ensures KeepInRange(a + c, b) == KeepInRange(a, b) + KeepInRange(c, b)
    decreases |a|
  {
    if |a| == 0 {
      assert a + c == c;
    } else {
      assert (a + c)[0] == a[0];
      assert (a + c)[1..] == a[1..] + c;
      KeepAppend(a[1..], c, b);
      if InRange(a[0], b) {
        var ka, kc := KeepInRange(a[1..], b), KeepInRange(c, b);
        assert [a[0]] + ka + kc == [a[0]] + (ka + kc);
      }
    }
  }

  /** A block of rows that are all in range is kept whole. */
  lemma {:induction false} KeepAll(rows: seq<Row>, b: Bounds)
    requires forall i :: 0 <= i < |rows| ==> InRange(rows[i], b)
    ensures KeepInRange(rows, b) == rows
    decreases |rows|
  {
    if |rows| > 0 {
      KeepAll(rows[1..], b);
    }
  }

  /** A block of rows that are all out of range is dropped whole. */
  lemma {:induction false} KeepNone(rows: seq<Row>, b: Bounds)
    requires forall i :: 0 <= i < |rows| ==> !InRange(rows[i], b)
    ensures KeepInRange(rows, b) == []
    decreases |rows|
  {
    if |rows| > 0 {
      KeepNone(rows[1..], b);
    }
  }

  /**
   Worked example: values 1, 2, ..., 100, in that row order, give
   lower = 3.475 and upper = 97.525, so exactly the rows holding 4 .. 97
   survive (94 rows). CleanOneToHundredAnyOrder drops the row order.
   */
  lemma CleanOneToHundred(rows: seq<Row>)
    requires |rows| == 100
    requires forall i :: 0 <= i < 100 ==> rows[i].value == i + 1
    ensures CleanBounds(rows) == Some(Bounds(3.475, 97.525))
    ensures Clean(rows) == rows[3..97]
    ensures |Clean(rows)| == 94
  {
    OneToHundredBounds(rows);
    CleanIsKeep(rows);
    KeepOneToHundred(rows);
  }

  /**
   The same example with the rows in any order: the bounds are the same and
   the survivors are the 94 rows holding 4 .. 97, each once.
   */
  lemma CleanOneToHundredAnyOrder(rows: seq<Row>, ordered: seq<Row>)
    requires |ordered| == 100
    requires forall i :: 0 <= i < 100 ==> ordered[i].value == i + 1
    requires multiset(rows) == multiset(ordered)
    ensures CleanBounds(rows) == Some(Bounds(3.475, 97.525))
    ensures multiset(Clean(rows)) == multiset(ordered[3..97])
    ensures |Clean(rows)| == 94
  {
    CleanOneToHundred(ordered);
    CleanPermutation(rows, ordered);
    var clean := Clean(rows);
    assert |clean| == |multiset(clean)| == |multiset(ordered[3..97])| == 94;
  }

  lemma KeepOneToHundred(rows: seq<Row>)
    requires |rows| == 100
    requires forall i :: 0 <= i < 100 ==> rows[i].value == i + 1
    ensures KeepInRange(rows, Bounds(3.475, 97.525)) == rows[3..97]
  {
    var b := Bounds(3.475, 97.525);
    var front, middle, back := rows[..3], rows[3..97], rows[97..];
    assert rows == front + middle + back;
    KeepOnlyMiddle(front, middle, back, b);
  }

  /** Only the middle block survives when the outer blocks lie outside the bounds. */
  lemma KeepOnlyMiddle(front: seq<Row>, middle: seq<Row>, back: seq<Row>, b: Bounds)
    requires forall i :: 0 <= i < |front| ==> !InRange(front[i], b)
    requires forall i :: 0 <= i < |middle| ==> InRange(middle[i], b)
    requires forall i :: 0 <= i < |back| ==> !InRange(back[i], b)
    ensures KeepInRange(front + middle + back, b) == middle
  {
    KeepAppend(front + middle, back, b);
    KeepAppend(front, middle, b);
    KeepNone(front, b);
    KeepAll(middle, b);
    KeepNone(back, b);
    assert [] + middle + [] == middle;
  }

  lemma CleanIsKeep(rows: seq<Row>)
    requires |rows| > 0
    ensures Clean(rows) == KeepInRange(rows, CleanBounds(rows).value)
  {
  }

  lemma OneToHundredBounds(rows: seq<Row>)
    requires |rows| == 100
    requires forall i :: 0 <= i < 100 ==> rows[i].value == i + 1
    ensures CleanBounds(rows) == Some(Bounds(3.475, 97.525))
  {
    var vs := Values(rows);
    assert Sorted(vs);
    QuantileOfSorted(vs, LowerP);
    QuantileOfSorted(vs, UpperP);
    LinearOneToHundred(vs);
  }

  lemma LinearOneToHundred(vs: seq<int>)
    requires |vs| == 100 && Sorted(vs)
    requires forall i :: 0 <= i < 100 ==> vs[i] == i + 1
    ensures Linear(vs, LowerP) == 3.475
    ensures Linear(vs, UpperP) == 97.525
  {
    assert Position(100, LowerP) == 2.475;
    assert LowerIndex(100, LowerP) == 2;
    LinearInGap(vs, LowerP);
    assert Position(100, UpperP) == 96.525;
    assert LowerIndex(100, UpperP) == 96;
    LinearInGap(vs, UpperP);
  }

  /**
   With two distinct values both cut points fall strictly between them, so
   the cleaned series is empty.
   */
  lemma CleanTwoDistinct(rows: seq<Row>)
    requires |rows| == 2 && rows[0].value != rows[1].value
    ensures CleanBounds(rows).Some?
    ensures Min(Values(rows)) as real < CleanBounds(rows).value.lower
    ensures CleanBounds(rows).value.upper < Max(Values(rows)) as real
    ensures Clean(rows) == []
  {
    var s := Sort(Values(rows));
    SortEnds(Values(rows));
    TwoDistinctSorted(rows);
    LinearTwoDistinct(s);
    var b := Bounds(Linear(s, LowerP), Linear(s, UpperP));
    assert CleanBounds(rows) == Some(b);
    CleanIsKeep(rows);
    KeepNone(rows, b);
  }

  /** Sorting two distinct values puts the smaller first; each row holds one of them. */
  lemma TwoDistinctSorted(rows: seq<Row>)
    requires |rows| == 2 && rows[0].value != rows[1].value
    ensures var s := Sort(Values(rows));
      && |s| == 2 && s[0] < s[1]
      && (rows[0].value == s[0] || rows[0].value == s[1])
      && (rows[1].value == s[0] || rows[1].value == s[1])
  {
    var vs := Values(rows);
    var s := Sort(vs);
    assert vs == [rows[0].value, rows[1].value];
    assert s == [s[0], s[1]];
    assert s[0] in multiset(vs) && s[1] in multiset(vs);
    assert rows[0].value in multiset(s) && rows[1].value in multiset(s);
  }

  /** With two distinct sorted values both cut points lie strictly inside the gap. */
  lemma LinearTwoDistinct(s: seq<int>)
    requires |s| == 2 && Sorted(s) && s[0] < s[1]
    ensures s[0] as real < Linear(s, LowerP) && Linear(s, UpperP) < s[1] as real
  {
    var d := (s[1] - s[0]) as real;
    assert Position(2, LowerP) == 0.025;
    assert LowerIndex(2, LowerP) == 0;
    LinearInGap(s, LowerP);
    assert 0.025 * d > 0.0;
    assert Position(2, UpperP) == 0.975;
    assert LowerIndex(2, UpperP) == 0;
    LinearInGap(s, UpperP);
    assert 0.975 * d < d;
  }
}
