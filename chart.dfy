/// What `updateChart` shows: the series selected by the dropdown (main.js
/// line 92) and whether the trend line is requested (line 130).
module Chart {
  import opened Records
  import opened Ordering
  import opened Overall
  import opened ByMake
  import opened Trend

  /** `makeFilter === "All" ? yearlyData : makeYearlyData[makeFilter] || []`. */
  function Select(filter: string, overall: seq<Entry>, byMake: map<string, seq<Entry>>): seq<Entry>
  {
    if filter == "All" then overall
    else if filter in byMake then byMake[filter]
    else []
  }

  /** The series drawn for a dropdown value, computed as the load callback does:
      "All" gives the overall series, a make of the data gives that make's
      series, and any other value gives the empty series. */
  method SelectedSeries(data: seq<Record>, filter: string) returns (shown: seq<Entry>)
    ensures filter == "All" ==> shown == OverallSeries(data)
    ensures filter != "All" && filter in Makes(data) ==> shown == MakeSeries(data, filter)
    ensures filter != "All" && filter !in Makes(data) ==> shown == []
  {
    var yearly := OverallSeries(data);
    var byMake := MakeYearlyData(data);
    shown := Select(filter, yearly, byMake);
  }

  /** `this.checked && filteredData.length > 1`. */
  predicate ShowTrend(checked: bool, shown: seq<Entry>)
  {
    checked && |shown| > 1
  }

  /** For "All" the trend line is requested exactly when the toggle is on and
      the data has at least two parseable years, and then both of its points
      are numbers. */
  lemma OverallTrendRequested(data: seq<Record>, checked: bool)
    ensures ShowTrend(checked, OverallSeries(data)) <==> checked && |YearKeys(data) - {None}| > 1
    ensures ShowTrend(checked, OverallSeries(data)) ==>
              Trendline(OverallSeries(data))[0].value.Some? && Trendline(OverallSeries(data))[1].value.Some?
  {
    var r := OverallSeries(data);
    if |r| > 1 {
      assert r[0].year != r[1].year;
      assert DistinctYears(r);
      assert HasNumericTotal(r);
    }
  }

  /** For a make whose rows all have parseable dates and numeric counts, a
      requested trend line has numeric points. */
  lemma MakeTrendDefined(data: seq<Record>, make: string)
    requires WellFormed(data)
    requires ShowTrend(true, MakeSeries(data, make))
    ensures Trendline(MakeSeries(data, make))[0].value.Some? && Trendline(MakeSeries(data, make))[1].value.Some?
  {
    var r := MakeSeries(data, make);
    NumericYearKeys(data, make);
    assert r[0] in r && r[1] in r;
    assert KeyLt(r[0].year, r[1].year);
    assert r[0].year.Some? && r[1].year.Some? && r[0].year != r[1].year;
    assert DistinctYears(r);
    BucketOfNumericRows(data, make, r[0].year);
    assert HasNumericTotal(r);
  }

  /** In well-formed data every year key of a make is a number. */
  lemma {:induction false} NumericYearKeys(data: seq<Record>, make: string)
    requires WellFormed(data)
    ensures None !in YearKeysOf(data, make)
  {
    if data != [] {
      assert WellFormed(Init(data));
      NumericYearKeys(Init(data), make);
    }
  }

  /** The guard counts entries, not numeric years: a make with one dated and
      one undated row passes it, and the requested trend line has NaN points. */
  lemma GuardAdmitsUndefinedTrend()
    ensures var data := [Record(Some(2001), "Cessna", Some(3)), Record(None, "Cessna", Some(1))];
            ShowTrend(true, MakeSeries(data, "Cessna")) && Trendline(MakeSeries(data, "Cessna"))[0].value == None
  {
    var data := [Record(Some(2001), "Cessna", Some(3)), Record(None, "Cessna", Some(1))];
    assert Init(data) == [data[0]] && Init([data[0]]) == [];
    assert YearKeysOf(data, "Cessna") == {Some(2001), None};
    var r := MakeSeries(data, "Cessna");
    assert |r| == 2;
    forall i | 0 <= i < |r| && r[i].year.Some?
      ensures r[i].year == Some(2001)
    {
      assert r[i] in r;
    }
    assert !DistinctYears(r);
  }
}
