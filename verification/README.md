# Page-view series cleaner and chart tables, in Dafny

This project models the data-handling core of `main2.py`, a script that
cleans a daily page-view series and draws three charts from it. The model
covers four steps:

- **Outlier cleaner.** It computes the 2.5% and 97.5% sample quantiles of the
  value column. These use linear interpolation between order statistics,
  which is pandas' default and definition 7 of Hyndman and Fan. It keeps
  exactly the rows whose value lies in the closed interval between the two
  quantiles, in their original order. For n rows and k = floor((n - 1) * p),
  the cut at p removes at most k + 1 rows below the lower bound and at most
  n - 1 - k above the upper bound. That is about 2.5% per cut only for large
  n: of 1000 rows at least 950 survive, but a short series can lose one row
  per cut, so two distinct values lose both.
- **Monthly aggregate behind the bar chart.** The cleaned rows are grouped by
  (year, month name) and each group's mean is taken. Then the month column
  becomes an ordered categorical over January..December.
- **Box-plot table.** Every cleaned row gets its year and its three-letter
  month abbreviation. The abbreviation becomes an ordered categorical over
  Jan..Dec. The two box plots draw one box per year and one per month of
  this table.
- **Hand-off.** The cleaned series feeds both tables. Pipeline lemmas show
  that every mean drawn as a bar, and every value drawn in a box, lies within
  the cleaning bounds.

A row is `(year, month, day, value)`: the date is carried as its calendar
fields. Values are integers, as in the page-view column. Quantiles and means
are exact reals. An empty series has no quantiles (pandas yields NaN); this
is `None`, and the cleaned series is then empty. That matches pandas, where
every comparison with NaN is false.

Three details of the code are modelled as written:

- `groupby(["year", "month"])` sorts its groups by key, and the month key is
  the month's full *name*. So within a year the aggregate rows come out in
  alphabetical order: April, August, December, February, and so on.
  `Monthly.KeyBefore` is that order. `Calendar.NameRankIsAlphabetical` proves
  that the rank used equals string order on the names.
- The later `pd.Categorical` call does not reorder those rows. It attaches
  to each the code month - 1 from the January..December list, so the month
  column itself is ordered by calendar month. The aggregate table's row
  order stays alphabetical within each year. The bars' January→December
  order is fixed by seaborn's `hue_order=month_order` (main2.py:74). That is
  the same list as the categories, so the bar order agrees with the
  column's category order. `Monthly.BarMonthOrder` proves that this category
  order is calendar order.
- The box plot passes no order to seaborn, so the month-wise boxes follow
  the categorical's own Jan..Dec category order (main2.py:90-92, 98).

Modules, in pipeline order:

| file | module | contents |
|---|---|---|
| series.dfy | Series | rows, the value column, order-preserving subsequences |
| sorting.dfy | Sorting | insertion sort, minimum and maximum |
| quantile.dfy | Quantiles | type-7 quantile and its properties |
| cleaner.dfy | Cleaner | quantile bounds, inclusive filter, worked examples |
| tails.dfy | Tails | how many rows each cut can remove |
| calendar.dfy | Calendar | month names and abbreviations, category codes, string order of names |
| monthly.dfy | Monthly | group-by-mean accumulator, reference group definitions, bar table |
| boxplot.dfy | BoxPlot | box-plot tagging, year and month boxes |
| pipeline.dfy | Pipeline | cleaned series feeding the two tables |

## Model

| member | source | states |
|---|---|---|
| Series.Values | main2.py:36 | the value column has one entry per row, and entry i is row i's value |
| Series.SubsequenceLength | main2.py:38 | a row filter never yields more rows than it was given |
| Series.ValuesPermutation | main2.py:36 | reordering the rows only reorders the value column (equal multisets) |
| Sorting.Sort | main2.py:36-37 | the sorted copy the quantile reads is sorted and is a permutation of the column |
| Sorting.SortedUnique | main2.py:36-37 | two sorted sequences with equal multisets are equal, so the order statistics are determined by the multiset of values |
| Sorting.SortPermutation | main2.py:36-37 | sorting gives the same result for any ordering of the same values |
| Sorting.SortEnds | main2.py:36-37 | the first order statistic is the minimum and the last is the maximum |
| Quantiles.Position | main2.py:36-37 | the virtual position (n - 1) * p lies between the first and the last index |
| Quantiles.LowerIndex | main2.py:36-37 | floor of the position: a valid index k with k <= h < k + 1 |
| Quantiles.Linear | main2.py:36-37 | the interpolated value lies between the order statistics at k and k + 1, and is the maximum when k is the last index |
| Quantiles.Quantile | main2.py:36-37 | no quantile exactly for an empty column; otherwise a value between the column's minimum and maximum |
| Quantiles.LinearWithinRange | main2.py:36-37 | interpolation on a sorted column stays between its first and last value |
| Quantiles.LinearMonotone | main2.py:36-37 | a larger probability never gives a smaller interpolated value |
| Quantiles.LinearSameGap | main2.py:36-37 | within one gap between order statistics, interpolation follows the position |
| Quantiles.QuantileMonotone | main2.py:36-37 | the 2.5% quantile never exceeds the 97.5% quantile; more generally the quantile is monotone in p |
| Quantiles.QuantilePermutation | main2.py:36-37 | the quantile depends only on the multiset of values, not on row order |
| Quantiles.QuantileExtremes | main2.py:36-37 | the 0-quantile is the minimum and the 1-quantile the maximum |
| Quantiles.QuantileOfSorted | main2.py:36-37 | on an already sorted column the quantile interpolates that column directly |
| Cleaner.CleanBounds | main2.py:36-37 | bounds exist exactly for a non-empty series, and min <= lower <= upper <= max |
| Cleaner.KeepInRange | main2.py:38 | the filter keeps an order-preserving subsequence of exactly the in-range rows, each as often as it occurs |
| Cleaner.Clean | main2.py:36-38 | the cleaned series is an order-preserving subsequence of the input holding only input rows, no longer than the input, and empty for an empty input; for a non-empty input it is exactly the inclusive filter by the quantile bounds, so each in-range row survives as often as it occurs, and a row is dropped exactly when its value is below lower or above upper |
| Cleaner.CleanPermutation | main2.py:36-38 | reordering the raw rows changes neither the bounds nor the multiset of surviving rows |
| Cleaner.KeepPermutation | main2.py:38 | which rows the filter keeps depends only on the multiset of rows |
| Cleaner.KeepAppend | main2.py:38 | the filter distributes over concatenation of row blocks |
| Cleaner.CleanOneToHundred | main2.py:36-38 | values 1..100 give bounds 3.475 and 97.525, and the cleaned series is exactly the 94 rows holding 4..97 |
| Cleaner.CleanOneToHundredAnyOrder | main2.py:36-38 | the values 1..100 in any row order give the same bounds, and exactly the 94 rows holding 4..97 survive |
| Cleaner.CleanTwoDistinct | main2.py:36-38 | two distinct values give bounds strictly between the smaller and the larger value, so nothing survives |
| Tails.BelowValues | main2.py:38 | the values below a cut: each value as often as in the column when it is below the cut, otherwise not at all |
| Tails.AboveValues | main2.py:38 | the values above a cut: each value as often as in the column when it is above the cut, otherwise not at all |
| Tails.TailPermutation | main2.py:36-38 | how many values fall below or above a cut depends only on the multiset of values |
| Tails.QuantileTails | main2.py:36-37 | on a sorted column at most k + 1 values lie below the p-quantile and at most n - 1 - k above it, with k = floor((n - 1) * p) |
| Tails.KeptCount | main2.py:38 | with lower <= upper, kept rows, values below lower and values above upper add up to the row count |
| Tails.CleanTails | main2.py:36-38 | the cleaner drops at most floor((n - 1) * 0.025) + 1 rows as too small and at most n - 1 - floor((n - 1) * 0.975) as too large |
| Tails.CleanThousand | main2.py:36-38 | of 1000 rows at most 25 are dropped at each end, so at least 950 survive |
| Calendar.CategoryCode | main2.py:67 | a label's code is its first position in the category list, or -1 exactly when it is no category |
| Calendar.NameCode | main2.py:59-67 | the full name pandas gives a month receives code month - 1 from the bar chart's list |
| Calendar.AbbrevCode | main2.py:90-92 | the abbreviation pandas gives a month receives code month - 1 from the box plot's list |
| Calendar.NameRankIsAlphabetical | main2.py:59-60 | ranking months by NameRank is ordering their full names as strings |
| Calendar.NameRankInjective | main2.py:59-60 | distinct months have distinct ranks, so the group keys never tie |
| Monthly.KeyBeforeIsTupleOrder | main2.py:59-60 | the group order is Python's order on (year, month-name) tuples |
| Monthly.KeyBeforeTotal | main2.py:60 | any two different keys are ordered one way or the other |
| Monthly.GroupValuesNonEmpty | main2.py:60 | a key has a non-empty group exactly when it occurs in the rows |
| Monthly.AddRowKeys | main2.py:60-61 | folding in one row keeps the groups in key order and adds only that row's key |
| Monthly.AddRowRecords | main2.py:60-61 | folding in one row adds its value and a count of one to its own key's group only |
| Monthly.Accumulate | main2.py:57-63 | the accumulator is in key order, has one group per occurring key, and holds each group's sum and size |
| Monthly.GroupByMonth | main2.py:57-63 | one output row per occurring (year, month) pair and none for absent pairs, strictly in group-by key order, each holding the mean of its group's values |
| Monthly.BarTable | main2.py:64-67 | the conversion keeps year and mean, labels each month by its full name and gives it code month - 1 |
| Monthly.MonthlyBars | main2.py:57-67 | one bar row for every occurring (year, month) pair and for no other pair, in strict group-by key order (so no pair twice); its code picks its name from the category list, and the pair read back from the code holds its group's mean |
| Monthly.BarMonthOrder | main2.py:64-67 | in the categorical month column, one row's month precedes another's exactly when its calendar month is earlier |
| BoxPlot.TagRow | main2.py:89-92 | a tagged row keeps year and value, and its month is the abbreviation with code month - 1 |
| BoxPlot.TagBox | main2.py:88-92 | the table has one tagged row per input row, in input order |
| BoxPlot.MonthBoxIsMonth | main2.py:88-98 | the box for code month - 1 holds exactly that calendar month's values, in series order |
| BoxPlot.YearBoxIsYear | main2.py:88-94 | the box for a year holds exactly that year's values, in series order |
| BoxPlot.OutsideCodesEmpty | main2.py:90-92 | no row gets a code outside 0..11, so no value falls outside the twelve month boxes |
| BoxPlot.MonthBoxesPartition | main2.py:88-98 | the twelve month boxes together hold every value of the series exactly as often as it occurs |
| BoxPlot.BoxMonthOrder | main2.py:91-92 | one row's month precedes another's as a categorical exactly when its calendar month is earlier |
| Pipeline.MeanBetween | main2.py:61 | the mean of values in an interval lies in that interval |
| Pipeline.BarMeansWithinBounds | main2.py:57-63 | every monthly mean of the cleaned series lies within the cleaning bounds |
| Pipeline.BoxValuesWithinBounds | main2.py:88-92 | every value in the box-plot table of the cleaned series lies within the cleaning bounds |

## Left out

- Reading the CSV file, creating the output directory and writing the cleaned CSV (main2.py:11-19, 40): file I/O. The series is a parameter.
- The synthetic fallback series (main2.py:22-30): it depends on a random generator and date ranges. It only produces input data.
- Renaming the first column to `value` (main2.py:33): the model's rows name their value field directly.
- Date parsing and the date index: a row carries its year, month and day as integers, and no calendar validity is checked.
- The line plot (main2.py:44-52): it draws every cleaned point in date order and computes nothing.
- Figure layout, titles, labels, legends and image files (main2.py:68-83, 93-104): rendering.
- The box statistics seaborn computes (quartiles, whiskers, fliers): these are computed inside the plotting library, outside this script. The model describes the values each box receives.
- The driver and its completion message (main2.py:107-111): sequencing and console output. Pipeline states what the sequencing guarantees.
- Quantiles.Quantile: computes over exact reals, not IEEE-754 doubles. 0.025 and 0.975 are exact here, so bounds that float64 rounding would nudge across a data value are not modelled.
- Monthly.GroupByMonth: the mean is the exact rational Sum / count, not pandas' floating-point mean.
