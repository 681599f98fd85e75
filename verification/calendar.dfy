/**
 Month labels and the ordered categoricals over January..December. The
 month-wise box plot draws its boxes in the category order; the bar chart
 passes the same January..December list as its hue order.

 Two label sources meet here: the labels pandas derives from a date
 (`month_name()` and `strftime("%b")`, English locale) and the literal
 category lists written in the plotting routines. The lemmas show that the
 code a label receives from its category list is its calendar month - 1.
 */
module Calendar {
  import opened Series

  /** The full English month name pandas' `month_name()` gives a date. */
  function MonthName(m: Month): string {
    match m
    case 1 => "January"
    case 2 => "February"
    case 3 => "March"
    case 4 => "April"
    case 5 => "May"
    case 6 => "June"
    case 7 => "July"
    case 8 => "August"
    case 9 => "September"
    case 10 => "October"
    case 11 => "November"
    case 12 => "December"
  }

  /** The abbreviated month name `strftime("%b")` gives a date. */
  function MonthAbbrev(m: Month): string {
    match m
    case 1 => "Jan"
    case 2 => "Feb"
    case 3 => "Mar"
    case 4 => "Apr"
    case 5 => "May"
    case 6 => "Jun"
    case 7 => "Jul"
    case 8 => "Aug"
    case 9 => "Sep"
    case 10 => "Oct"
    case 11 => "Nov"
    case 12 => "Dec"
  }

  /** The category list of the bar chart's month column. */
  const NameOrder: seq<string> :=
    ["January", "February", "March", "April", "May", "June", "July",
     "August", "September", "October", "November", "December"]

  /** The category list of the box plot's month column. */
  const AbbrevOrder: seq<string> :=
    ["Jan", "Feb", "Mar", "Apr", "May", "Jun", "Jul", "Aug", "Sep", "Oct", "Nov", "Dec"]

  /**
   The code an ordered categorical gives a label: its position in the
   category list, or -1 (pandas: NaN) when the label is not a category.
   */
  function CategoryCode(categories: seq<string>, name: string): (c: int)
    ensures -1 <= c < |categories|
    ensures c == -1 <==> name !in categories
    ensures c >= 0 ==> categories[c] == name && name !in categories[..c]
  {
    if |categories| == 0 then -1
    else if categories[0] == name then 0
    else
      var c := CategoryCode(categories[1..], name);
      assert categories == [categories[0]] + categories[1..];
      if c == -1 then -1
      else
        assert categories[..c + 1] == [categories[0]] + categories[1..][..c];
        c + 1
  }

  /** A value of an ordered categorical column: the label and its code. */
  datatype Categorical = Categorical(name: string, code: int)

  /** Ordered categoricals compare by code, not by label. */
  predicate CategoryBefore(a: Categorical, b: Categorical) {
    a.code < b.code
  }

  /** No label occurs twice in the list. */
  predicate Distinct(categories: seq<string>) {
    forall i, j :: 0 <= i < j < |categories| ==> categories[i] != categories[j]
  }

  /** In a list without repeats a category's code is its position. */
  lemma CodeOfPosition(categories: seq<string>, i: int)
    requires Distinct(categories) && 0 <= i < |categories|
    ensures CategoryCode(categories, categories[i]) == i
  {
  }

  /** The full month name of every month is the category at position month - 1. */
  lemma NameCode(m: Month)
    ensures CategoryCode(NameOrder, MonthName(m)) == m - 1
  {
    NameOrderDistinct();
    NameOrderPosition(m);
    CodeOfPosition(NameOrder, m - 1);
  }

  /** The abbreviation of every month is the category at position month - 1. */
  lemma AbbrevCode(m: Month)
    ensures CategoryCode(AbbrevOrder, MonthAbbrev(m)) == m - 1
  {
    AbbrevOrderDistinct();
    AbbrevOrderPosition(m);
    CodeOfPosition(AbbrevOrder, m - 1);
  }

  /** The bar chart's list names each month at position month - 1. */
  lemma NameOrderPosition(m: Month)
    ensures NameOrder[m - 1] == MonthName(m)
  {
  }

  /** The box plot's list abbreviates each month at position month - 1. */
  lemma AbbrevOrderPosition(m: Month)
    ensures AbbrevOrder[m - 1] == MonthAbbrev(m)
  {
  }

  /** The bar chart's list holds no name twice. */
  lemma NameOrderDistinct()
    ensures Distinct(NameOrder)
  {
    forall i, j | 0 <= i < j < |NameOrder|
      ensures NameOrder[i] != NameOrder[j]
    {
      NamesDiffer(i, j);
    }
  }

  /** The box plot's list holds no abbreviation twice. */
  lemma AbbrevOrderDistinct()
    ensures Distinct(AbbrevOrder)
  {
    forall i, j | 0 <= i < j < |AbbrevOrder|
      ensures AbbrevOrder[i] != AbbrevOrder[j]
    {
      AbbrevsDiffer(i, j);
    }
  }

  lemma NamesDiffer(i: int, j: int)
    requires 0 <= i < j < |NameOrder|
    ensures NameOrder[i] != NameOrder[j]
  {
  }

  lemma AbbrevsDiffer(i: int, j: int)
    requires 0 <= i < j < |AbbrevOrder|
    ensures AbbrevOrder[i] != AbbrevOrder[j]
  {
  }

  /** Code-point lexicographic order on strings, as Python compares `str`. */
  predicate LexLess(a: string, b: string)
    decreases |a|
  {
    if |b| == 0 then false
    else if |a| == 0 then true
    else if a[0] != b[0] then a[0] < b[0]
    else LexLess(a[1..], b[1..])
  }

  /** No string sorts before itself. */
  lemma {:induction false} LexLessIrreflexive(a: string)
    ensures !LexLess(a, a)
    decreases |a|
  {
    if |a| > 0 {
      LexLessIrreflexive(a[1..]);
    }
  }

  /**
   The position of a month's full name in alphabetical order:
   April, August, December, February, January, July, June, March, May,
   November, October, September. A group-by on the month-name column sorts
   its groups in this order.
   */
  function NameRank(m: Month): (r: nat)
    ensures r < 12
  {
    match m
    case 4 => 0
    case 8 => 1
    case 12 => 2
    case 2 => 3
    case 1 => 4
    case 7 => 5
    case 6 => 6
    case 3 => 7
    case 5 => 8
    case 11 => 9
    case 10 => 10
    case 9 => 11
  }

  /** Distinct months have distinct ranks. */
  lemma NameRankInjective(m1: Month, m2: Month)
    ensures NameRank(m1) == NameRank(m2) <==> m1 == m2
  {
  }

  /** The twelve full month names in alphabetical order. */
  const AlphabeticalNames: seq<string> :=
    ["April", "August", "December", "February", "January", "July",
     "June", "March", "May", "November", "October", "September"]

  /** The rank of a month is the position of its name in alphabetical order. */
  lemma RankIsAlphabeticalPosition(m: Month)
    ensures AlphabeticalNames[NameRank(m)] == MonthName(m)
  {
  }

  /** Lexicographic order is transitive. */
  lemma {:induction false} LexLessTransitive(a: string, b: string, c: string)
    requires LexLess(a, b) && LexLess(b, c)
    ensures LexLess(a, c)
    decreases |a|
  {
    if |a| > 0 && a[0] == b[0] && b[0] == c[0] {
      LexLessTransitive(a[1..], b[1..], c[1..]);
    }
  }

  /** Lexicographic order is asymmetric. */
  lemma {:induction false} LexLessAsymmetric(a: string, b: string)
    requires LexLess(a, b)
    ensures !LexLess(b, a)
    decreases |a|
  {
    if |a| > 0 && a[0] == b[0] {
      LexLessAsymmetric(a[1..], b[1..]);
    }
  }

  /** Neighbours in the alphabetical list are in lexicographic order. */
  lemma AlphabeticalNeighbours(i: nat)
    requires i + 1 < |AlphabeticalNames|
    ensures LexLess(AlphabeticalNames[i], AlphabeticalNames[i + 1])
  {
    match i
    case 0 => assert LexLess("April", "August");
    case 1 => assert LexLess("August", "December");
    case 2 => assert LexLess("December", "February");
    case 3 => assert LexLess("February", "January");
    case 4 => assert LexLess("January", "July");
    case 5 => assert LexLess("July", "June");
    case 6 => assert LexLess("June", "March");
    case 7 => assert LexLess("March", "May");
    case 8 => assert LexLess("May", "November");
    case 9 => assert LexLess("November", "October");
    case 10 => assert LexLess("October", "September");
  }

  /** The alphabetical list is strictly sorted. */
  lemma {:induction false} AlphabeticalSorted(i: nat, j: nat)
    requires i < j < |AlphabeticalNames|
    ensures LexLess(AlphabeticalNames[i], AlphabeticalNames[j])
    decreases j - i
  {
    AlphabeticalNeighbours(i);
    if i + 1 < j {
      AlphabeticalSorted(i + 1, j);
      LexLessTransitive(AlphabeticalNames[i], AlphabeticalNames[i + 1], AlphabeticalNames[j]);
    }
  }

  /**
   Ordering months by rank is ordering their full names as strings, which is
   how a group-by on the month-name column sorts its groups.
   */
  lemma NameRankIsAlphabetical(m1: Month, m2: Month)
    ensures NameRank(m1) < NameRank(m2) <==> LexLess(MonthName(m1), MonthName(m2))
  {
    RankIsAlphabeticalPosition(m1);
    RankIsAlphabeticalPosition(m2);
    if NameRank(m1) < NameRank(m2) {
      AlphabeticalSorted(NameRank(m1), NameRank(m2));
    } else if NameRank(m1) == NameRank(m2) {
      LexLessIrreflexive(MonthName(m1));
    } else {
      AlphabeticalSorted(NameRank(m2), NameRank(m1));
      LexLessAsymmetric(MonthName(m2), MonthName(m1));
    }
  }
}
