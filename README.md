# Aircraft-incident fatalities chart: aggregation core in Dafny

This project models the data pipeline inside the `d3.csv(...).then` callback
of `main.js`. The script loads incident rows and builds two kinds of yearly
series:

- an overall series: fatalities per year summed with `d3.rollup` and `d3.sum`;
- a per-make table `makeYearlyData`, filled by a loop and then sorted.

It also builds the dropdown labels, picks the series to draw for a dropdown
value, decides whether a trend line is requested, and fits that line with
ordinary least squares at the display years 1995 and 2016.

A row is `Record(year, make, fatal)`. `year` is the year of `Event_Date`
(None when the date does not parse). `make` is the raw `Make` label.
`fatal` is `+Total_Fatal_Injuries` (None when the field is not numeric). None
stands for JavaScript's NaN throughout.

Modules:

- `Records` (records.dfy): rows, series entries, and the sums per year and per (make, year).
- `Ordering` (ordering.dfy): the year order of series and the default string order of labels. Both sorts are defined as functions proved to return a strictly ascending listing of exactly their input.
- `Overall` (overall.dfy): the overall series as a function.
- `ByMake` (by_make.dfy): the per-make table. Two methods mirror the source's two loops over a `map`. They are proved against the function `MakeSeries`, which defines each make's series.
- `Labels` (labels.dfy): the dropdown list.
- `Trend` (trend.dfy): `computeTrendline` in exact real arithmetic.
- `Chart` (chart.dfy): series selection and the trend guard.
- `CrossCheck` (cross_check.dfy): how the overall series relates to the per-make series.

Behaviour of the source that the model keeps:

- The overall path skips a NaN count (`d3.sum`) and drops the NaN-year group. A row with a NaN count in an otherwise empty year still puts that year into the series, with total 0 (`OverallNaNCountOpensYear`).
- The per-make path computes `(bucket || 0) + +count`. NaN is falsy, so `NaN || 0` is 0: the next numeric addition restarts a NaN bucket. A bucket is NaN exactly when the last row that reached it had a NaN count (`BucketIsNaNIffLastCountIsNaN`). A NaN count wipes out what the bucket held before it (`BucketForgetsBeforeNaN`).
- An unparseable date gives a make a NaN-year bucket, which is never filtered out.
- The trend guard `checked && length > 1` counts entries, not numeric years. A per-make series with one dated and one undated entry passes the guard, and its trend points are NaN (`GuardAdmitsUndefinedTrend`).
- `d3.mean` and `d3.sum` skip NaN, so the fit ignores NaN years and totals. The fit is numeric exactly when there are two distinct numeric years and one numeric total (`Trend.Trendline`, `FitDefinedIff`).
- For the series (2000, 10), (2001, 20), (2002, 30), the slope is 10 and the intercept is -19990. The trend points are therefore (1995, -40) and (2016, 170) (`TrendlineExample`).

## Model

| member | source | states |
|---|---|---|
| Records.YearKeysMembership | main.js:26-28 | a year key is among the rollup's keys exactly when some row has that year |
| Records.MakesMembership | main.js:36-39 | a label is among the makes exactly when some row carries it |
| Ordering.SortedEntries | main.js:44-46 | the entries of a year dictionary: exactly its (key, value) pairs, one per key, in strictly ascending year order |
| Ordering.SortedLabels | main.js:49 | `Array.from(set).sort()`: exactly the labels of the set, each once, in strictly ascending string order |
| Overall.OverallSeries | main.js:26-33 | one entry per parseable year of the data and no other; years strictly ascending; each total is the sum of the numeric counts of that year's rows |
| Overall.OverallIgnoresUnparseableDate | main.js:26-32 | inserting a row whose date does not parse anywhere in the data leaves the overall series unchanged |
| Overall.OverallIgnoresNaNCount | main.js:26-32 | inserting a row with a non-numeric count anywhere in the data, in a year that already has rows, leaves the overall series unchanged |
| Overall.OverallNaNCountOpensYear | main.js:26-32 | inserting a row with a non-numeric count anywhere in the data, in a parseable year no other row has, adds that year with total 0 |
| ByMake.BucketUntouched | main.js:39-40 | a (make, year) bucket no row has reached is at its start value 0 |
| ByMake.BucketOfNumericRows | main.js:40 | when all rows of a bucket have numeric counts, the bucket is their sum |
| ByMake.BucketIsNaNIffLastCountIsNaN | main.js:40 | a bucket is NaN exactly when the last row that reached it has a NaN count |
| ByMake.BucketForgetsBeforeNaN | main.js:40 | a NaN count erases everything the bucket accumulated before it |
| ByMake.TallyByMakeAndYear | main.js:35-41 | after the first loop the table has exactly the makes of the data as keys; each make's dictionary has exactly the make's year keys (NaN included), each holding its bucket value |
| ByMake.ToSeriesTable | main.js:43-47 | the second loop keeps the same makes and replaces each dictionary by its sorted entries |
| ByMake.MakeSeries | main.js:43-47 | a make's series lists each of its year keys once, in strictly ascending order with the NaN key last, each with its bucket value |
| ByMake.MakeYearlyData | main.js:35-47 | the whole per-make table: keys are the makes of the data; each value is that make's series |
| Labels.DropdownLabels | main.js:49 | the list starts with "All"; the rest are exactly the makes of the data, each once, in strictly ascending string order |
| Chart.SelectedSeries | main.js:92 | "All" selects the overall series; a make of the data selects its series; any other value selects the empty series (a value naming an inherited object property is not modelled, see Left out) |
| Chart.OverallTrendRequested | main.js:130 | for "All" a trend line is requested exactly when the toggle is on and the data has at least two parseable years, and both its points are then numeric |
| Chart.MakeTrendDefined | main.js:130-131 | for well-formed data, a requested per-make trend line has numeric points |
| Chart.GuardAdmitsUndefinedTrend | main.js:130-131 | a make with one dated and one undated row passes the guard but gets a NaN trend line |
| Trend.Trendline | main.js:144-154 | always two points, at 1995 and 2016; they are numeric exactly when the series has two distinct numeric years and a numeric total |
| Trend.FitDefinedIff | main.js:145-149 | slope and intercept are numbers exactly when there are two distinct numeric years and a numeric total |
| Trend.SquareSumPositive | main.js:148 | with two distinct numeric years the denominator is positive, whatever the centre |
| Trend.TrendlineOfExactLine | main.js:144-154 | on points lying on any line `total = a * year + b` (real slope and intercept) with two distinct years, the trend points are that line's values at 1995 and 2016 |
| Trend.TrendlineExample | main.js:144-154 | (2000, 10), (2001, 20), (2002, 30) gives the trend points (1995, -40) and (2016, 170) |
| Trend.TrendlineHalfSlopeExample | main.js:144-154 | (2000, 0), (2002, 1), whose line has slope 1/2, gives the trend points (1995, -2.5) and (2016, 8) |
| CrossCheck.SumOverMakesIsYearSum | main.js:26-41 | summing the per-(make, year) counts over a list naming every make once gives the year's count |
| CrossCheck.MakeSeriesTotal | main.js:40-47 | for well-formed data, the total a make's series shows for a year is the sum of that make's counts in that year, 0 when absent |
| CrossCheck.OverallIsSumOfMakes | main.js:26-49 | for well-formed data, each overall total is the sum, over the makes in the dropdown, of what their series show for that year |

## Left out

- Drawing is left out: the SVG container, tooltip, scales, axes, labels, line generator, circles and redraw (main.js:6-22, 57-89, 95-125, 132-139). They are rendering through D3.
- CSV loading (main.js:25) is I/O. The model takes the sequence of rows as input.
- Date parsing and string-to-number coercion (main.js:27-28, 37, 40) are host behaviour. They are abstracted as the `Option<int>` fields of `Record`. Whether `getFullYear` reads local time or UTC is not modelled.
- Event wiring is UI plumbing: the dropdown and checkbox `change` handlers and `dispatch` (main.js:128, 141, 156-158).
- Trend.Trendline: values are computed in exact real arithmetic. Agreement with the IEEE double results of the script is not claimed.
- ByMake.MakeSeries: places the NaN-year entry last. This is where the script leaves it in practice: `Object.entries` lists the integer-like year keys in ascending order before the key "NaN", and the sort reads the comparator's NaN result for that entry as 0, so the ascending run stays as it is. The language does not fix the order of a sort with an inconsistent comparator, so the model states this placement rather than deriving it.
- ByMake.TallyByMakeAndYear: dictionary keys are plain map keys. A `Make` equal to an inherited object property such as `constructor`, `toString` or `__proto__` would misbehave in the script. The model does not capture this.
- Chart.SelectedSeries: for a value that is neither "All" nor a make of the data, the model selects the empty series. In the script, a value naming an inherited object property (`toString`, say) selects that property instead of `[]`. The dropdown only offers "All" and the makes (main.js:49-55, 156-160), so this case is not reached from the page.
- ByMake.ToSeriesTable: builds a new map instead of overwriting each entry of the same object in place.
- Ordering.LexLess: compares Dafny characters (Unicode code points). JavaScript's default sort compares UTF-16 code units, and the two orders differ only for characters outside the Basic Multilingual Plane.
- Counts and totals are unbounded integers. The script's doubles are exact for integer sums below 2^53.
- A make literally named "All" appears twice in the dropdown. Both entries select the overall series, because `Chart.SelectedSeries` tests for "All" first.
