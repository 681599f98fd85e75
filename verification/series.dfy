/**
 The data model of the page-view series: one row per day, carrying the date
 (year, calendar month, day of month) and the integer page-view count.
 The date index of the data frame becomes the first three fields of a row.
 */
module Series {

  /** A calendar month number, January = 1 ... December = 12. */
  type Month = m: int | 1 <= m <= 12 witness 1

  /** One observation of the series: the date fields and the page-view count. */
  datatype Row = Row(year: int, month: Month, day: int, value: int)

  /** The conventional Some/None datatype, used where pandas would yield NaN. */
  datatype Option<+T> = None | Some(value: T)

  /** The value column of a series, in row order. */
  function Values(rows: seq<Row>): (vs: seq<int>)
    ensures |vs| == |rows|
    ensures forall i :: 0 <= i < |rows| ==> vs[i] == rows[i].value
  {
    if |rows| == 0 then [] else [rows[0].value] + Values(rows[1..])
  }

  /**
   `a` is obtained from `b` by deleting rows: an order-preserving
   subsequence. Each step either keeps the head of `b` or drops it.
   */
  predicate IsSubsequence<T(==)>(a: seq<T>, b: seq<T>)
    decreases |b|
  {
    if |b| == 0 then |a| == 0
    else (|a| > 0 && a[0] == b[0] && IsSubsequence(a[1..], b[1..])) || IsSubsequence(a, b[1..])
  }

  /** A subsequence is never longer than the sequence it is taken from. */
  lemma {:induction false} SubsequenceLength<T>(a: seq<T>, b: seq<T>)
    requires IsSubsequence(a, b)
    ensures |a| <= |b|
    decreases |b|
  {
    if |b| > 0 {
      if |a| > 0 && a[0] == b[0] && IsSubsequence(a[1..], b[1..]) {
        SubsequenceLength(a[1..], b[1..]);
      } else {
        SubsequenceLength(a, b[1..]);
      }
    }
  }

  /** Every element of a subsequence is an element of the original. */
  lemma {:induction false} SubsequenceMembers<T>(a: seq<T>, b: seq<T>)
    requires IsSubsequence(a, b)
    ensures forall x :: x in a ==> x in b
    decreases |b|
  {
    if |b| > 0 {
      if |a| > 0 && a[0] == b[0] && IsSubsequence(a[1..], b[1..]) {
        SubsequenceMembers(a[1..], b[1..]);
        assert a == [a[0]] + a[1..];
      } else {
        SubsequenceMembers(a, b[1..]);
      }
    }
  }

  /** Rows that are permutations of each other have permuted value columns. */
  lemma {:induction false} ValuesPermutation(rows1: seq<Row>, rows2: seq<Row>)
    requires multiset(rows1) == multiset(rows2)
    ensures multiset(Values(rows1)) == multiset(Values(rows2))
    decreases |rows1|
  {
    if |rows1| == 0 {
      assert |multiset(rows2)| == 0;
    } else {
      var r := rows1[0];
      assert r in multiset(rows2);
      var j :| 0 <= j < |rows2| && rows2[j] == r;
      var rest2 := rows2[..j] + rows2[j + 1..];
      RemoveAt(rows2, j);
      assert rows1 == [r] + rows1[1..];
      assert multiset(rows1[1..]) == multiset(rest2);
      ValuesPermutation(rows1[1..], rest2);
      var vs2 := Values(rows2);
      ValuesRemoveAt(rows2, j);
      RemoveAt(vs2, j);
      assert multiset(Values(rest2)) == multiset(vs2) - multiset{r.value};
      AddBack(multiset(vs2), r.value);
      assert Values(rows1) == [r.value] + Values(rows1[1..]);
    }
  }

  /** Deleting a row deletes its value from the value column. */
  lemma ValuesRemoveAt(rows: seq<Row>, j: int)
    requires 0 <= j < |rows|
    ensures Values(rows[..j] + rows[j + 1..]) == Values(rows)[..j] + Values(rows)[j + 1..]
  {
    ValuesAppend(rows[..j], rows[j + 1..]);
    assert Values(rows[..j]) == Values(rows)[..j];
    assert Values(rows[j + 1..]) == Values(rows)[j + 1..];
  }

  /** The value column of a concatenation is the concatenation of the columns. */
  lemma ValuesAppend(a: seq<Row>, b: seq<Row>)
    ensures Values(a + b) == Values(a) + Values(b)
  {
  }

  /** Putting back a removed copy restores the multiset. */
  lemma AddBack<T>(m: multiset<T>, x: T)
    requires x in m
    ensures multiset{x} + (m - multiset{x}) == m
  {
    assert forall y :: (multiset{x} + (m - multiset{x}))[y] == m[y];
  }

  /** Deleting the element at position `j` removes one copy of it from the multiset. */
  lemma RemoveAt<T>(s: seq<T>, j: int)
    requires 0 <= j < |s|
    ensures multiset(s[..j] + s[j + 1..]) == multiset(s) - multiset{s[j]}
  {
    assert s == s[..j] + [s[j]] + s[j + 1..];
  }
}
