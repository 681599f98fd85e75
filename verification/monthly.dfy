/**
 The monthly aggregate behind the bar chart: the cleaned rows are grouped by
 (year, month name), each group is averaged, and the month column becomes an
 ordered categorical over January..December.

 The group-by sorts its groups by key, and the month key is the month's
 full NAME, so within a year the groups come out in alphabetical order
 (April, August, December, ...). The categorical conversion afterwards does
 not reorder the rows; it attaches to each the code month - 1, which orders
 the month column January..December. The chart itself takes its bar order
 from its hue order, which is the same January..December list.
 */
module Monthly {
  import opened Series
  import opened Calendar

  /** A group-by key: calendar year and month. */
  datatype Key = Key(year: int, month: Month)

  function KeyOf(r: Row): Key {
    Key(r.year, r.month)
  }

  /** The (year, month) pairs occurring in the rows. */
  function KeySet(rows: seq<Row>): set<Key> {
    set r | r in rows :: KeyOf(r)
  }

  /** Group-by key order: year first, then month by the alphabetical rank of its name. */
  predicate KeyBefore(a: Key, b: Key) {
    a.year < b.year || (a.year == b.year && NameRank(a.month) < NameRank(b.month))
  }

  /** The key order is Python's order on (year, month-name) tuples. */
  lemma KeyBeforeIsTupleOrder(a: Key, b: Key)
    ensures KeyBefore(a, b) <==>
      a.year < b.year || (a.year == b.year && LexLess(MonthName(a.month), MonthName(b.month)))
  {
    NameRankIsAlphabetical(a.month, b.month);
  }

  /** Two different keys are always ordered one way or the other. */
  lemma KeyBeforeTotal(a: Key, b: Key)
    requires a != b
    ensures KeyBefore(a, b) || KeyBefore(b, a)
  {
    NameRankInjective(a.month, b.month);
  }

  // Reference definitions: the values of one group and their mean.

  /** The values of the rows carrying key `k`, in row order. */
  function GroupValues(rows: seq<Row>, k: Key): seq<int> {
    if |rows| == 0 then []
    else (if KeyOf(rows[0]) == k then [rows[0].value] else []) + GroupValues(rows[1..], k)
  }

  function Sum(vs: seq<int>): int {
    if |vs| == 0 then 0 else vs[0] + Sum(vs[1..])
  }

  /** The arithmetic mean of a non-empty list of values. */
  function Mean(vs: seq<int>): real
    requires |vs| > 0
  {
    Sum(vs) as real / |vs| as real
  }

  /** How the first row contributes to the sum and size of each group. */
  lemma GroupValuesStep(rows: seq<Row>)
    requires |rows| > 0
    ensures forall k ::
              Sum(GroupValues(rows, k)) ==
              (if KeyOf(rows[0]) == k then rows[0].value else 0) + Sum(GroupValues(rows[1..], k))
    ensures forall k ::
              |GroupValues(rows, k)| ==
              (if KeyOf(rows[0]) == k then 1 else 0) + |GroupValues(rows[1..], k)|
  {
    forall k
      ensures Sum(GroupValues(rows, k)) ==
        (if KeyOf(rows[0]) == k then rows[0].value else 0) + Sum(GroupValues(rows[1..], k))
    {
      var rest := GroupValues(rows[1..], k);
      if KeyOf(rows[0]) == k {
        assert ([rows[0].value] + rest)[1..] == rest;
      } else {
        assert [] + rest == rest;
      }
    }
  }

  /** A key occurs in the rows exactly when its group is non-empty. */
  lemma {:induction false} GroupValuesNonEmpty(rows: seq<Row>, k: Key)
    ensures |GroupValues(rows, k)| > 0 <==> k in KeySet(rows)
    decreases |rows|
  {
    if |rows| > 0 {
      GroupValuesNonEmpty(rows[1..], k);
      assert rows == [rows[0]] + rows[1..];
      assert KeySet(rows) == {KeyOf(rows[0])} + KeySet(rows[1..]);
    }
  }

  // The accumulator: running (total, count) per key, kept in key order.

  datatype Group = Group(key: Key, total: int, count: nat)

  predicate Ascending(gs: seq<Group>) {
    forall i, j :: 0 <= i < j < |gs| ==> KeyBefore(gs[i].key, gs[j].key)
  }

  function KeysOf(gs: seq<Group>): set<Key> {
    set g | g in gs :: g.key
  }

  /** The running total recorded for `k` (0 when `k` has no group). */
  function TotalIn(gs: seq<Group>, k: Key): int {
    if |gs| == 0 then 0 else (if gs[0].key == k then gs[0].total else 0) + TotalIn(gs[1..], k)
  }

  /** The running count recorded for `k` (0 when `k` has no group). */
  function CountIn(gs: seq<Group>, k: Key): nat {
    if |gs| == 0 then 0 else (if gs[0].key == k then gs[0].count else 0) + CountIn(gs[1..], k)
  }

  /** Adds one row to the group of its key, opening the group in key order if needed. */
  function AddRow(gs: seq<Group>, r: Row): seq<Group> {
    var k := KeyOf(r);
    if |gs| == 0 then [Group(k, r.value, 1)]
    else if gs[0].key == k then [Group(k, gs[0].total + r.value, gs[0].count + 1)] + gs[1..]
    else if KeyBefore(k, gs[0].key) then [Group(k, r.value, 1)] + gs
    else [gs[0]] + AddRow(gs[1..], r)
  }

  /** Adding a row keeps the groups in key order and adds the row's key to the keys. */
  lemma AddRowKeys(gs: seq<Group>, r: Row)
    requires Ascending(gs)
    ensures Ascending(AddRow(gs, r))
    ensures KeysOf(AddRow(gs, r)) == KeysOf(gs) + {KeyOf(r)}
  {
    AddRowKeySet(gs, r);
    AddRowAscending(gs, r);
  }

  /** Adding a row adds the row's key to the keys and no other. */
  lemma {:induction false} AddRowKeySet(gs: seq<Group>, r: Row)
    ensures KeysOf(AddRow(gs, r)) == KeysOf(gs) + {KeyOf(r)}
    decreases |gs|
  {
    var k := KeyOf(r);
    if |gs| == 0 {
      ConsKeys(Group(k, r.value, 1), []);
      assert AddRow(gs, r) == [Group(k, r.value, 1)] + [];
    } else {
      ConsKeys(gs[0], gs[1..]);
      assert gs == [gs[0]] + gs[1..];
      if gs[0].key == k {
        var g := Group(k, gs[0].total + r.value, gs[0].count + 1);
        ConsKeys(g, gs[1..]);
      } else if KeyBefore(k, gs[0].key) {
        ConsKeys(Group(k, r.value, 1), gs);
      } else {
        var rest := AddRow(gs[1..], r);
        AddRowKeySet(gs[1..], r);
        ConsKeys(gs[0], rest);
      }
    }
  }

  /** Adding a row keeps the groups in key order. */
  lemma {:induction false} AddRowAscending(gs: seq<Group>, r: Row)
    requires Ascending(gs)
    ensures Ascending(AddRow(gs, r))
    decreases |gs|
  {
    var k := KeyOf(r);
    if |gs| == 0 {
      assert AddRow(gs, r) == [Group(k, r.value, 1)];
    } else if gs[0].key == k {
      var g := Group(k, gs[0].total + r.value, gs[0].count + 1);
      PrependAscending(g, gs[1..]);
    } else if KeyBefore(k, gs[0].key) {
      PrependAscending(Group(k, r.value, 1), gs);
    } else {
      var rest := AddRow(gs[1..], r);
      AddRowAscending(gs[1..], r);
      AddRowKeySet(gs[1..], r);
      KeyBeforeTotal(k, gs[0].key);
      assert rest[0].key in KeysOf(rest);
      assert KeyBefore(gs[0].key, rest[0].key) by {
        if rest[0].key != k {
          var j :| 0 <= j < |gs[1..]| && gs[1..][j].key == rest[0].key;
          assert gs[j + 1].key == rest[0].key;
        }
      }
      PrependAscending(gs[0], rest);
    }
  }

  /** A group placed before an ascending list whose first key it precedes keeps it ascending. */
  lemma PrependAscending(g: Group, gs: seq<Group>)
    requires Ascending(gs)
    requires |gs| > 0 ==> KeyBefore(g.key, gs[0].key)
    ensures Ascending([g] + gs)
  {
    var all := [g] + gs;
    assert all[1..] == gs;
    forall i, j | 0 <= i < j < |all|
      ensures KeyBefore(all[i].key, all[j].key)
    {
      if i == 0 && j > 1 {
        assert KeyBefore(gs[0].key, gs[j - 1].key);
      }
    }
  }

  /** Adding a row adds its value and a count of one to its own key's record only. */
  lemma {:induction false} AddRowRecords(gs: seq<Group>, r: Row)
    ensures forall k :: TotalIn(AddRow(gs, r), k) == TotalIn(gs, k) + (if k == KeyOf(r) then r.value else 0)
    ensures forall k :: CountIn(AddRow(gs, r), k) == CountIn(gs, k) + (if k == KeyOf(r) then 1 else 0)
    decreases |gs|
  {
    var k := KeyOf(r);
    if |gs| == 0 {
      ConsRecords(Group(k, r.value, 1), []);
      assert AddRow(gs, r) == [Group(k, r.value, 1)] + [];
    } else {
      ConsRecords(gs[0], gs[1..]);
      assert gs == [gs[0]] + gs[1..];
      if gs[0].key == k {
        var g := Group(k, gs[0].total + r.value, gs[0].count + 1);
        ConsRecords(g, gs[1..]);
        assert AddRow(gs, r) == [g] + gs[1..];
      } else if KeyBefore(k, gs[0].key) {
        var g := Group(k, r.value, 1);
        ConsRecords(g, gs);
        assert AddRow(gs, r) == [g] + gs;
      } else {
        var rest := AddRow(gs[1..], r);
        AddRowRecords(gs[1..], r);
        ConsRecords(gs[0], rest);
        assert AddRow(gs, r) == [gs[0]] + rest;
      }
    }
  }

  /** Prepending a group adds its key, and keeps the order when the group comes first. */
  lemma ConsKeys(g: Group, gs: seq<Group>)
    ensures KeysOf([g] + gs) == {g.key} + KeysOf(gs)
    ensures Ascending(gs) && (forall k :: k in KeysOf(gs) ==> KeyBefore(g.key, k)) ==> Ascending([g] + gs)
  {
    assert ([g] + gs)[1..] == gs;
    if Ascending(gs) && (forall k :: k in KeysOf(gs) ==> KeyBefore(g.key, k)) {
      assert forall j :: 0 <= j < |gs| ==> gs[j].key in KeysOf(gs);
    }
  }

  /** Prepending a group adds its total and count to its key's record. */
  lemma ConsRecords(g: Group, gs: seq<Group>)
    ensures forall k :: TotalIn([g] + gs, k) == (if g.key == k then g.total else 0) + TotalIn(gs, k)
    ensures forall k :: CountIn([g] + gs, k) == (if g.key == k then g.count else 0) + CountIn(gs, k)
  {
    assert ([g] + gs)[1..] == gs;
  }

  /** The accumulator after all rows: one group per key, holding its total and count. */
  function Accumulate(rows: seq<Row>): (gs: seq<Group>)
    ensures Ascending(gs)
    ensures KeysOf(gs) == KeySet(rows)
    ensures forall k :: TotalIn(gs, k) == Sum(GroupValues(rows, k))
    ensures forall k :: CountIn(gs, k) == |GroupValues(rows, k)|
  {
    if |rows| == 0 then []
    else
      var gs := AddRow(Accumulate(rows[1..]), rows[0]);
      AddRowKeys(Accumulate(rows[1..]), rows[0]);
      AddRowRecords(Accumulate(rows[1..]), rows[0]);
      GroupValuesStep(rows);
      assert rows == [rows[0]] + rows[1..];
      assert KeySet(rows) == KeySet(rows[1..]) + {KeyOf(rows[0])};
      gs
  }

  /** In an ascending accumulator a group's own fields are what TotalIn/CountIn report. */
  lemma {:induction false} LookupGroup(gs: seq<Group>, i: int)
    requires Ascending(gs) && 0 <= i < |gs|
    ensures TotalIn(gs, gs[i].key) == gs[i].total
    ensures CountIn(gs, gs[i].key) == gs[i].count
    decreases |gs|
  {
    if i == 0 {
      AbsentKey(gs[1..], gs[0].key);
    } else {
      LookupGroup(gs[1..], i - 1);
      assert gs[0].key != gs[i].key by {
        assert KeyBefore(gs[0].key, gs[i].key);
      }
    }
  }

  /** A key after which every group comes has nothing recorded. */
  lemma {:induction false} AbsentKey(gs: seq<Group>, k: Key)
    requires forall j :: 0 <= j < |gs| ==> KeyBefore(k, gs[j].key)
    ensures TotalIn(gs, k) == 0 && CountIn(gs, k) == 0
    decreases |gs|
  {
    if |gs| > 0 {
      AbsentKey(gs[1..], k);
    }
  }

  /** The keys of an ascending accumulator are distinct, so there are as many keys as groups. */
  lemma {:induction false} AscendingKeyCount(gs: seq<Group>)
    requires Ascending(gs)
    ensures |KeysOf(gs)| == |gs|
    decreases |gs|
  {
    if |gs| > 0 {
      AscendingKeyCount(gs[1..]);
      assert gs == [gs[0]] + gs[1..];
      assert KeysOf(gs) == {gs[0].key} + KeysOf(gs[1..]);
      assert gs[0].key !in KeysOf(gs[1..]);
    }
  }

  /** Each accumulated group is non-empty and holds the sum and size of its key's values. */
  lemma AccumulatedGroups(rows: seq<Row>, gs: seq<Group>)
    requires gs == Accumulate(rows)
    ensures forall i :: 0 <= i < |gs| ==>
              && gs[i].key in KeySet(rows)
              && gs[i].count == |GroupValues(rows, gs[i].key)| > 0
              && gs[i].total == Sum(GroupValues(rows, gs[i].key))
  {
    forall i | 0 <= i < |gs|
      ensures gs[i].key in KeySet(rows)
      ensures gs[i].count == |GroupValues(rows, gs[i].key)| > 0
      ensures gs[i].total == Sum(GroupValues(rows, gs[i].key))
    {
      AccumulatedGroup(rows, gs, i);
    }
  }

  /** Every key of the rows has a group. */
  lemma AccumulatedCovers(rows: seq<Row>, gs: seq<Group>)
    requires gs == Accumulate(rows)
    ensures forall k :: k in KeySet(rows) ==> exists i :: 0 <= i < |gs| && gs[i].key == k
  {
    forall k | k in KeySet(rows)
      ensures exists i :: 0 <= i < |gs| && gs[i].key == k
    {
      assert k in KeysOf(gs);
    }
  }

  lemma AccumulatedGroup(rows: seq<Row>, gs: seq<Group>, i: int)
    requires gs == Accumulate(rows) && 0 <= i < |gs|
    ensures gs[i].key in KeySet(rows)
    ensures gs[i].count == |GroupValues(rows, gs[i].key)| > 0
    ensures gs[i].total == Sum(GroupValues(rows, gs[i].key))
  {
    assert gs[i].key in KeysOf(gs);
    LookupGroup(gs, i);
    GroupValuesNonEmpty(rows, gs[i].key);
  }

  /** One output row of the group-by: the key and the mean of its group. */
  datatype MonthlyMean = MonthlyMean(year: int, month: Month, mean: real)

  function MeanKey(m: MonthlyMean): Key {
    Key(m.year, m.month)
  }

  /** Turns an accumulator into output rows, dividing each total by its count. */
  function Means(gs: seq<Group>): (out: seq<MonthlyMean>)
    requires forall i :: 0 <= i < |gs| ==> gs[i].count > 0
    ensures |out| == |gs|
    ensures forall i :: 0 <= i < |gs| ==>
      MeanKey(out[i]) == gs[i].key && out[i].mean == gs[i].total as real / gs[i].count as real
  {
    if |gs| == 0 then []
    else
      var g := gs[0];
      [MonthlyMean(g.key.year, g.key.month, g.total as real / g.count as real)] + Means(gs[1..])
  }

  /**
   The group-by-mean: exactly one row per (year, month) pair present in the
   input, none for absent pairs, in group-by key order, each holding the
   arithmetic mean of the values sharing that pair.
   */
  function GroupByMonth(rows: seq<Row>): (out: seq<MonthlyMean>)
    ensures |out| == |KeySet(rows)|
    ensures forall i :: 0 <= i < |out| ==> MeanKey(out[i]) in KeySet(rows)
    ensures forall k :: k in KeySet(rows) ==> exists i :: 0 <= i < |out| && MeanKey(out[i]) == k
    ensures forall i, j :: 0 <= i < j < |out| ==> KeyBefore(MeanKey(out[i]), MeanKey(out[j]))
    ensures forall i :: 0 <= i < |out| ==>
      |GroupValues(rows, MeanKey(out[i]))| > 0 && out[i].mean == Mean(GroupValues(rows, MeanKey(out[i])))
  {
    var gs := Accumulate(rows);
    AscendingKeyCount(gs);
    AccumulatedGroups(rows, gs);
    AccumulatedCovers(rows, gs);
    Means(gs)
  }

  /** One row of the bar chart's table: year, month as an ordered categorical, mean. */
  datatype BarRow = BarRow(year: int, month: Categorical, mean: real)

  /** The bar row of one aggregate row: its month becomes the categorical value of its name. */
  function BarRowOf(m: MonthlyMean): (b: BarRow)
    ensures b.year == m.year && b.mean == m.mean
    ensures b.month.name == MonthName(m.month) && b.month.code == m.month - 1
  {
    NameCode(m.month);
    var name := MonthName(m.month);
    BarRow(m.year, Categorical(name, CategoryCode(NameOrder, name)), m.mean)
  }

  /** Converts the month column of the aggregate to the January..December categorical. */
  function BarTable(agg: seq<MonthlyMean>): (bars: seq<BarRow>)
    ensures |bars| == |agg|
    ensures forall i :: 0 <= i < |agg| ==>
              && bars[i].year == agg[i].year
              && bars[i].mean == agg[i].mean
              && bars[i].month.name == MonthName(agg[i].month)
              && bars[i].month.code == agg[i].month - 1
  {
    seq(|agg|, i requires 0 <= i < |agg| => BarRowOf(agg[i]))
  }

  /** The (year, month) pair a bar row stands for, read back from its month code. */
  function BarKey(b: BarRow): Key
    requires 0 <= b.month.code < 12
  {
    Key(b.year, b.month.code + 1)
  }

  /**
   The bar chart's table for a series: one row per (year, month) pair that
   occurs and none for an absent pair, still in group-by key order, carrying
   the month's name with code month - 1 and the mean of that pair's values.
   */
  function MonthlyBars(rows: seq<Row>): (bars: seq<BarRow>)
    ensures |bars| == |KeySet(rows)|
    ensures forall i :: 0 <= i < |bars| ==>
              && 0 <= bars[i].month.code < 12
              && bars[i].month.name == NameOrder[bars[i].month.code]
              && BarKey(bars[i]) in KeySet(rows)
              && |GroupValues(rows, BarKey(bars[i]))| > 0
              && bars[i].mean == Mean(GroupValues(rows, BarKey(bars[i])))
    ensures forall k :: k in KeySet(rows) ==> exists i :: 0 <= i < |bars| && BarKey(bars[i]) == k
    ensures forall i, j :: 0 <= i < j < |bars| ==> KeyBefore(BarKey(bars[i]), BarKey(bars[j]))
  {
    var agg := GroupByMonth(rows);
    var bars := BarTable(agg);
    BarRows(rows, agg);
    BarKeysCover(rows, agg);
    BarKeysAscending(agg);
    bars
  }

  /** The bars keep the aggregate's key order: the categorical conversion moves no row. */
  lemma BarKeysAscending(agg: seq<MonthlyMean>)
    requires forall i, j :: 0 <= i < j < |agg| ==> KeyBefore(MeanKey(agg[i]), MeanKey(agg[j]))
    ensures var bars := BarTable(agg);
      forall i, j :: 0 <= i < j < |bars| ==> KeyBefore(BarKey(bars[i]), BarKey(bars[j]))
  {
    BarKeys(agg);
  }

  /** Each bar row stands for the same (year, month) pair as the aggregate row it comes from. */
  lemma BarKeys(agg: seq<MonthlyMean>)
    ensures var bars := BarTable(agg);
      forall i :: 0 <= i < |bars| ==> 0 <= bars[i].month.code < 12 && BarKey(bars[i]) == MeanKey(agg[i])
  {
  }

  /** Every pair of the aggregate has a bar: the bar table covers the aggregate's keys. */
  lemma BarKeysCover(rows: seq<Row>, agg: seq<MonthlyMean>)
    requires forall k :: k in KeySet(rows) ==> exists i :: 0 <= i < |agg| && MeanKey(agg[i]) == k
    ensures var bars := BarTable(agg);
      forall k :: k in KeySet(rows) ==> exists i :: 0 <= i < |bars| && BarKey(bars[i]) == k
  {
    var bars := BarTable(agg);
    BarKeys(agg);
    forall k | k in KeySet(rows)
      ensures exists i :: 0 <= i < |bars| && BarKey(bars[i]) == k
    {
      var i :| 0 <= i < |agg| && MeanKey(agg[i]) == k;
      assert BarKey(bars[i]) == k;
    }
  }

  /** The bar table of aggregate rows that each hold their group's mean stands for those groups. */
  lemma BarRows(rows: seq<Row>, agg: seq<MonthlyMean>)
    requires forall i :: 0 <= i < |agg| ==>
               && MeanKey(agg[i]) in KeySet(rows)
               && |GroupValues(rows, MeanKey(agg[i]))| > 0
               && agg[i].mean == Mean(GroupValues(rows, MeanKey(agg[i])))
    ensures var bars := BarTable(agg);
      forall i :: 0 <= i < |bars| ==>
              && 0 <= bars[i].month.code < 12
              && bars[i].month.name == NameOrder[bars[i].month.code]
              && BarKey(bars[i]) in KeySet(rows)
              && |GroupValues(rows, BarKey(bars[i]))| > 0
              && bars[i].mean == Mean(GroupValues(rows, BarKey(bars[i])))
  {
    var bars := BarTable(agg);
    forall i | 0 <= i < |bars|
      ensures 0 <= bars[i].month.code < 12
      ensures bars[i].month.name == NameOrder[bars[i].month.code]
      ensures BarKey(bars[i]) in KeySet(rows)
      ensures |GroupValues(rows, BarKey(bars[i]))| > 0
      ensures bars[i].mean == Mean(GroupValues(rows, BarKey(bars[i])))
    {
      BarRowOfGroup(rows, agg[i]);
      assert bars[i] == BarRowOf(agg[i]);
    }
  }

  /** The bar row of an aggregate row stands for that row's group. */
  lemma BarRowOfGroup(rows: seq<Row>, m: MonthlyMean)
    requires MeanKey(m) in KeySet(rows) && |GroupValues(rows, MeanKey(m))| > 0
    requires m.mean == Mean(GroupValues(rows, MeanKey(m)))
    ensures var b := BarRowOf(m);
      && 0 <= b.month.code < 12
      && b.month.name == NameOrder[b.month.code]
      && BarKey(b) == MeanKey(m)
      && BarKey(b) in KeySet(rows)
      && |GroupValues(rows, BarKey(b))| > 0
      && b.mean == Mean(GroupValues(rows, BarKey(b)))
  {
    NameOrderPosition(m.month);
  }

  /**
   The categorical month column is ordered by calendar month, whatever order
   the rows arrive in: one row's month precedes another's exactly when its
   calendar month is earlier. The chart's hue order is the same list.
   */
  lemma BarMonthOrder(agg: seq<MonthlyMean>, i: int, j: int)
    requires 0 <= i < |agg| && 0 <= j < |agg|
    ensures CategoryBefore(BarTable(agg)[i].month, BarTable(agg)[j].month) <==> agg[i].month < agg[j].month
  {
    var bars := BarTable(agg);
    assert bars[i].month.code == agg[i].month - 1;
    assert bars[j].month.code == agg[j].month - 1;
  }
}
