/**
 The table behind the two box plots: every cleaned row is tagged with its
 year and its abbreviated month, the month becoming an ordered categorical
 over Jan..Dec. The year-wise plot draws one box per year and the
 month-wise plot one box per month category; the boxes' values are
 described here as filters over the tagged table.
 */
module BoxPlot {
  import opened Series
  import opened Calendar

  /** One row of the box-plot table. */
  datatype BoxRow = BoxRow(year: int, month: Categorical, value: int)

  /** Tags one row: its year, and its month abbreviation with the code from the Jan..Dec list. */
  function TagRow(r: Row): (b: BoxRow)
    ensures b.year == r.year && b.value == r.value
    ensures b.month.name == MonthAbbrev(r.month) && b.month.code == r.month - 1
  {
    AbbrevCode(r.month);
    var name := MonthAbbrev(r.month);
    BoxRow(r.year, Categorical(name, CategoryCode(AbbrevOrder, name)), r.value)
  }

  /** The box-plot table: one tagged row per input row, in input order. */
  function TagBox(rows: seq<Row>): (tagged: seq<BoxRow>)
    ensures |tagged| == |rows|
    ensures forall i :: 0 <= i < |rows| ==>
              && tagged[i].year == rows[i].year
              && tagged[i].value == rows[i].value
              && tagged[i].month.name == MonthAbbrev(rows[i].month)
              && tagged[i].month.code == rows[i].month - 1
  {
    seq(|rows|, i requires 0 <= i < |rows| => TagRow(rows[i]))
  }

  /** Tagging row by row: the table of a longer series extends the table of its tail. */
  lemma TagBoxCons(rows: seq<Row>)
    requires |rows| > 0
    ensures TagBox(rows) == [TagRow(rows[0])] + TagBox(rows[1..])
  {
    assert TagBox(rows)[1..] == TagBox(rows[1..]);
  }

  /** The values in the month-wise box with category code `c`, in table order. */
  function MonthBox(tagged: seq<BoxRow>, c: int): seq<int> {
    if |tagged| == 0 then []
    else if tagged[0].month.code == c then [tagged[0].value] + MonthBox(tagged[1..], c)
    else MonthBox(tagged[1..], c)
  }

  /** The values in the year-wise box of year `y`, in table order. */
  function YearBox(tagged: seq<BoxRow>, y: int): seq<int> {
    if |tagged| == 0 then []
    else if tagged[0].year == y then [tagged[0].value] + YearBox(tagged[1..], y)
    else YearBox(tagged[1..], y)
  }

  /** The values of the raw rows falling in calendar month `m`, in series order. */
  function MonthValues(rows: seq<Row>, m: Month): seq<int> {
    if |rows| == 0 then []
    else if rows[0].month == m then [rows[0].value] + MonthValues(rows[1..], m)
    else MonthValues(rows[1..], m)
  }

  /** The values of the raw rows falling in year `y`, in series order. */
  function YearValues(rows: seq<Row>, y: int): seq<int> {
    if |rows| == 0 then []
    else if rows[0].year == y then [rows[0].value] + YearValues(rows[1..], y)
    else YearValues(rows[1..], y)
  }

  /**
   The box drawn for category code month - 1 holds exactly the values of
   that calendar month, in series order.
   */
  lemma {:induction false} MonthBoxIsMonth(rows: seq<Row>, m: Month)
    ensures MonthBox(TagBox(rows), m - 1) == MonthValues(rows, m)
    decreases |rows|
  {
    if |rows| > 0 {
      TagBoxCons(rows);
      MonthBoxIsMonth(rows[1..], m);
    }
  }

  /** The box drawn for a year holds exactly that year's values, in series order. */
  lemma {:induction false} YearBoxIsYear(rows: seq<Row>, y: int)
    ensures YearBox(TagBox(rows), y) == YearValues(rows, y)
    decreases |rows|
  {
    if |rows| > 0 {
      TagBoxCons(rows);
      YearBoxIsYear(rows[1..], y);
    }
  }

  /** A code outside 0..11 gets an empty box: no tagged row carries one. */
  lemma {:induction false} OutsideCodesEmpty(rows: seq<Row>, c: int)
    requires c < 0 || c > 11
    ensures MonthBox(TagBox(rows), c) == []
    decreases |rows|
  {
    if |rows| > 0 {
      TagBoxCons(rows);
      OutsideCodesEmpty(rows[1..], c);
    }
  }

  /** The values in the month boxes with codes 0 .. c - 1 together. */
  function BoxesBelow(tagged: seq<BoxRow>, c: nat): multiset<int> {
    if c == 0 then multiset{} else BoxesBelow(tagged, c - 1) + multiset(MonthBox(tagged, c - 1))
  }

  /** What one tagged row adds to the box with code c. */
  function Own(t: BoxRow, c: int): multiset<int> {
    if t.month.code == c then multiset{t.value} else multiset{}
  }

  /** What one tagged row adds to the boxes with codes 0 .. c - 1. */
  function Share(t: BoxRow, c: nat): multiset<int> {
    if 0 <= t.month.code < c then multiset{t.value} else multiset{}
  }

  /** A row's share below c + 1 is its share below c plus what it adds to box c. */
  lemma ShareStep(t: BoxRow, c: nat)
    ensures Share(t, c + 1) == Share(t, c) + Own(t, c)
  {
    if t.month.code == c {
      assert Share(t, c) == multiset{};
    } else if 0 <= t.month.code < c {
      assert Own(t, c) == multiset{};
    } else {
      assert Share(t, c + 1) == multiset{} && Share(t, c) == multiset{} && Own(t, c) == multiset{};
    }
  }

  /** Adding a row to the table adds its value to the boxes below c exactly when its code is below c. */
  lemma {:induction false} BoxesBelowCons(t: BoxRow, rest: seq<BoxRow>, c: nat)
    ensures BoxesBelow([t] + rest, c) == BoxesBelow(rest, c) + Share(t, c)
    decreases c
  {
    if c > 0 {
      var all := [t] + rest;
      MonthBoxCons(t, rest, c - 1);
      BoxesBelowCons(t, rest, c - 1);
      ShareStep(t, c - 1);
      var below, box := BoxesBelow(rest, c - 1), multiset(MonthBox(rest, c - 1));
      assert BoxesBelow(all, c) == (below + Share(t, c - 1)) + (box + Own(t, c - 1));
      Interchange(below, Share(t, c - 1), box, Own(t, c - 1));
    }
  }

  lemma Interchange(a: multiset<int>, b: multiset<int>, c: multiset<int>, d: multiset<int>)
    ensures (a + b) + (c + d) == (a + c) + (b + d)
  {
  }

  /** Adding a row to the table adds its value to the box of its own code only. */
  lemma MonthBoxCons(t: BoxRow, rest: seq<BoxRow>, c: int)
    ensures multiset(MonthBox([t] + rest, c)) == multiset(MonthBox(rest, c)) + Own(t, c)
  {
    var all := [t] + rest;
    assert all[0] == t && all[1..] == rest;
  }

  /** An empty table has empty boxes. */
  lemma {:induction false} BoxesBelowEmpty(c: nat)
    ensures BoxesBelow([], c) == multiset{}
    decreases c
  {
    if c > 0 {
      BoxesBelowEmpty(c - 1);
    }
  }

  /**
   The twelve month boxes partition the series: together they hold every
   value of the series exactly as often as it occurs.
   */
  lemma {:induction false} MonthBoxesPartition(rows: seq<Row>)
    ensures BoxesBelow(TagBox(rows), 12) == multiset(Values(rows))
    decreases |rows|
  {
    if |rows| == 0 {
      BoxesBelowEmpty(12);
    } else {
      var t, rest := TagRow(rows[0]), TagBox(rows[1..]);
      TagBoxCons(rows);
      BoxesBelowCons(t, rest, 12);
      assert Share(t, 12) == multiset{t.value};
      MonthBoxesPartition(rows[1..]);
      assert BoxesBelow(TagBox(rows), 12) == BoxesBelow(rest, 12) + multiset{t.value};
      assert Values(rows) == [rows[0].value] + Values(rows[1..]);
    }
  }

  /**
   The month-wise boxes are laid out in calendar order: one tagged row's
   month precedes another's exactly when its calendar month is earlier.
   */
  lemma BoxMonthOrder(rows: seq<Row>, i: int, j: int)
    requires 0 <= i < |rows| && 0 <= j < |rows|
    ensures CategoryBefore(TagBox(rows)[i].month, TagBox(rows)[j].month) <==> rows[i].month < rows[j].month
  {
  }
}
