/// How the overall series and the per-make series relate. The two paths
/// treat bad rows differently (`d3.sum` skips a NaN count, `(b || 0) + x`
/// does not; an unparseable date is dropped from the overall series but
/// kept as a NaN bucket per make), so the year-wise sum holds for
/// well-formed data.
module CrossCheck {
  import opened Records
  import opened Ordering
  import opened Overall
  import opened ByMake
  import opened Labels

  predicate Distinct(s: seq<string>)
  {
    forall i, j :: 0 <= i < j < |s| ==> s[i] != s[j]
  }

  /** Sum over a list of makes of their counts in year key `k`. */
  function SumOverMakes(data: seq<Record>, makes: seq<string>, k: Option<int>): int
  {
    if makes == [] then 0 else MakeYearSum(data, makes[0], k) + SumOverMakes(data, makes[1..], k)
  }

  /** The total a series shows for year `y`; 0 when it has no numeric entry for `y`. */
  function YearTotal(s: seq<Entry>, y: int): int
  {
    if s == [] then 0
    else if s[0].year == Some(y) then NaNToZero(s[0].total)
    else YearTotal(s[1..], y)
  }

  /** Adding one row adds its count to exactly the one make it belongs to. */
  lemma {:induction false} SumOverMakesLast(data: seq<Record>, makes: seq<string>, k: Option<int>)
    requires data != [] && Distinct(makes)
    ensures SumOverMakes(data, makes, k) == SumOverMakes(Init(data), makes, k)
              + (if Last(data).make in makes && Last(data).year == k then NaNToZero(Last(data).fatal) else 0)
  {
    if makes != [] {
      assert Distinct(makes[1..]);
      SumOverMakesLast(data, makes[1..], k);
      assert makes == [makes[0]] + makes[1..];
      if makes[0] == Last(data).make {
        assert Last(data).make !in makes[1..];
      }
    }
  }

  lemma {:induction false} SumOverMakesOfNoRows(makes: seq<string>, k: Option<int>)
    ensures SumOverMakes([], makes, k) == 0
  {
    if makes != [] {
      SumOverMakesOfNoRows(makes[1..], k);
    }
  }

  /** Summing the per-make counts over a list naming every make once gives the year's count. */
  lemma {:induction false} SumOverMakesIsYearSum(data: seq<Record>, makes: seq<string>, k: Option<int>)
    requires Distinct(makes)
    requires forall m :: m in Makes(data) ==> m in makes
    ensures SumOverMakes(data, makes, k) == YearSum(data, k)
  {
    if data == [] {
      SumOverMakesOfNoRows(makes, k);
    } else {
      assert Makes(data) == Makes(Init(data)) + {Last(data).make};
      SumOverMakesIsYearSum(Init(data), makes, k);
      SumOverMakesLast(data, makes, k);
    }
  }

  /** In a series with strictly ascending years, the total shown for a year is that of its entry. */
  lemma {:induction false} YearTotalOfEntry(s: seq<Entry>, y: int, i: nat)
    requires Ascending(s) && i < |s| && s[i].year == Some(y)
    ensures YearTotal(s, y) == NaNToZero(s[i].total)
  {
    if i > 0 {
      assert KeyLt(s[0].year, s[i].year);
      assert Ascending(s[1..]) by {
        forall p, q | 0 <= p < q < |s[1..]|
          ensures KeyLt(s[1..][p].year, s[1..][q].year)
        {
          assert s[1..][p] == s[p + 1] && s[1..][q] == s[q + 1];
        }
      }
      YearTotalOfEntry(s[1..], y, i - 1);
    }
  }

  /** A series with no entry for a year shows 0 for it. */
  lemma {:induction false} YearTotalOfMissingYear(s: seq<Entry>, y: int)
    requires forall e :: e in s ==> e.year != Some(y)
    ensures YearTotal(s, y) == 0
  {
    if s != [] {
      assert s[0] in s;
      YearTotalOfMissingYear(s[1..], y);
    }
  }

  /** In well-formed data, a make's series shows for each year the sum of the make's counts in it. */
  lemma MakeSeriesTotal(data: seq<Record>, make: string, y: int)
    requires WellFormed(data)
    ensures YearTotal(MakeSeries(data, make), y) == MakeYearSum(data, make, Some(y))
  {
    var s := MakeSeries(data, make);
    BucketOfNumericRows(data, make, Some(y));
    if Some(y) in YearKeysOf(data, make) {
      var e := Entry(Some(y), Bucket(data, make, Some(y)));
      assert e in s;
      var i :| 0 <= i < |s| && s[i] == e;
      YearTotalOfEntry(s, y, i);
    } else {
      MakeYearSumAbsent(data, make, Some(y));
      YearTotalOfMissingYear(s, y);
    }
  }

  /** Sum over a list of makes of the totals their series show for year `y`. */
  function SeriesSum(data: seq<Record>, makes: seq<string>, y: int): int
  {
    if makes == [] then 0 else YearTotal(MakeSeries(data, makes[0]), y) + SeriesSum(data, makes[1..], y)
  }

  lemma {:induction false} SeriesSumIsSumOverMakes(data: seq<Record>, makes: seq<string>, y: int)
    requires WellFormed(data)
    ensures SeriesSum(data, makes, y) == SumOverMakes(data, makes, Some(y))
  {
    if makes != [] {
      MakeSeriesTotal(data, makes[0], y);
      SeriesSumIsSumOverMakes(data, makes[1..], y);
    }
  }

  /** When every row has a parseable date and a numeric count, each total of
      the overall series is the sum, over the makes listed in the dropdown,
      of the totals their series show for that year. */
  lemma OverallIsSumOfMakes(data: seq<Record>)
    requires WellFormed(data)
    ensures forall e :: e in OverallSeries(data) ==>
              e.total == Some(SeriesSum(data, DropdownLabels(data)[1..], e.year.value))
  {
    var makes := DropdownLabels(data)[1..];
    assert Distinct(makes);
    forall e | e in OverallSeries(data)
      ensures e.total == Some(SeriesSum(data, makes, e.year.value))
    {
      SumOverMakesIsYearSum(data, makes, e.year);
      SeriesSumIsSumOverMakes(data, makes, e.year.value);
    }
  }
}
