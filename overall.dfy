/// The overall yearly series: `d3.rollup` by year with `d3.sum` of the counts,
/// NaN groups filtered out, sorted by year (main.js lines 26-33).
module Overall {
  import opened Records
  import opened Ordering

  /** `d3.rollup(data, v => d3.sum(v, count), year)`: one group per year key
      (the NaN key included), each the sum of its numeric counts. */
  function YearlyRollup(data: seq<Record>): map<Option<int>, Option<int>>
  {
    map k | k in YearKeys(data) :: Some(YearSum(data, k))
  }

  /** `.filter(d => !isNaN(d.Year) && !isNaN(d.Total_Fatal_Injuries))` on the groups. */
  function DropNaN(groups: map<Option<int>, Option<int>>): map<Option<int>, Option<int>>
  {
    map k | k in groups && k.Some? && groups[k].Some? :: groups[k]
  }

  /** The series drawn for "All": every parseable year once, ascending, with
      the sum of the numeric counts of the rows dated in that year. */
  function OverallSeries(data: seq<Record>): (r: seq<Entry>)
    ensures |r| == |YearKeys(data) - {None}|
    ensures forall i :: 0 <= i < |r| ==> r[i].year.Some? && r[i].total == Some(YearSum(data, r[i].year))
    ensures forall i, j :: 0 <= i < j < |r| ==> r[i].year.value < r[j].year.value
    ensures forall y :: Some(y) in YearKeys(data) <==> Entry(Some(y), Some(YearSum(data, Some(y)))) in r
  {
    var groups := DropNaN(YearlyRollup(data));
    assert groups.Keys == YearKeys(data) - {None};
    var r := SortedEntries(groups);
    assert forall i :: 0 <= i < |r| ==> r[i] in r;
    r
  }

  /** A row whose date does not parse changes nothing in the overall series,
      wherever it sits in the data. */
  lemma OverallIgnoresUnparseableDate(a: seq<Record>, r: Record, b: seq<Record>)
    requires r.year == None
    ensures OverallSeries(a + [r] + b) == OverallSeries(a + b)
  {
    var before, after := DropNaN(YearlyRollup(a + b)), DropNaN(YearlyRollup(a + [r] + b));
    YearKeysInsert(a, r, b);
    forall k | k in after
      ensures k in before && after[k] == before[k]
    {
      YearSumInsert(a, r, b, k);
    }
    assert after == before;
  }

  /** A row with a non-numeric count, in a year that already has rows, changes
      nothing in the overall series wherever it sits: `d3.sum` skips NaN. */
  lemma OverallIgnoresNaNCount(a: seq<Record>, r: Record, b: seq<Record>)
    requires r.fatal == None && r.year in YearKeys(a + b)
    ensures OverallSeries(a + [r] + b) == OverallSeries(a + b)
  {
    var before, after := DropNaN(YearlyRollup(a + b)), DropNaN(YearlyRollup(a + [r] + b));
    YearKeysInsert(a, r, b);
    forall k | k in after
      ensures k in before && after[k] == before[k]
    {
      YearSumInsert(a, r, b, k);
    }
    assert after == before;
  }

  /** A row with a non-numeric count in a year that has no other rows still
      adds that year to the overall series, with total 0. */
  lemma OverallNaNCountOpensYear(a: seq<Record>, r: Record, b: seq<Record>)
    requires r.fatal == None && r.year.Some? && r.year !in YearKeys(a + b)
    ensures Entry(r.year, Some(0)) in OverallSeries(a + [r] + b)
  {
    YearKeysInsert(a, r, b);
    YearSumInsert(a, r, b, r.year);
    YearSumAbsent(a + b, r.year);
    assert r.year in YearKeys(a + [r] + b);
  }
}
