/// The per-manufacturer table `makeYearlyData` (main.js lines 35-47): a loop
/// that adds every row's count into its (make, year) bucket, then a loop that
/// turns each make's year dictionary into a series sorted by year.
module ByMake {
  import opened Records
  import opened Ordering

  /** A row falls into the bucket of make `make` and year key `k`. */
  predicate InBucket(r: Record, make: string, k: Option<int>)
  {
    r.make == make && r.year == k
  }

  /** `a + x` where `a` is a number and `x` may be NaN. */
  function AddCount(a: int, x: Option<int>): Option<int>
  {
    if x.Some? then Some(a + x.value) else None
  }

  /** The value `makeYearlyData[make][k]` holds after the rows of `data` have
      been processed by `bucket = (bucket || 0) + +count`. Before the first row
      the bucket is undefined, which `|| 0` reads as 0, exactly as it reads
      NaN and 0; so the undefined start is represented by Some(0). */
  function Bucket(data: seq<Record>, make: string, k: Option<int>): Option<int>
  {
    if data == [] then Some(0)
    else if InBucket(Last(data), make, k) then
      AddCount(NaNToZero(Bucket(Init(data), make, k)), Last(data).fatal)
    else Bucket(Init(data), make, k)
  }

  /** The year dictionary of one make after the first loop. */
  function BucketMap(data: seq<Record>, make: string): map<Option<int>, Option<int>>
  {
    map k | k in YearKeysOf(data, make) :: Bucket(data, make, k)
  }

  /** The series of one make after the second loop: each of its year keys
      once (the NaN key included), ascending, with its bucket value. */
  function MakeSeries(data: seq<Record>, make: string): (r: seq<Entry>)
    ensures |r| == |YearKeysOf(data, make)|
    ensures Ascending(r)
    ensures forall e :: e in r <==> e.year in YearKeysOf(data, make) && e.total == Bucket(data, make, e.year)
  {
    assert BucketMap(data, make).Keys == YearKeysOf(data, make);
    SortedEntries(BucketMap(data, make))
  }

  /** A bucket that no row has reached is still at its start value 0. */
  lemma {:induction false} BucketUntouched(data: seq<Record>, make: string, k: Option<int>)
    requires k !in YearKeysOf(data, make)
    ensures Bucket(data, make, k) == Some(0)
  {
    if data != [] {
      BucketUntouched(Init(data), make, k);
    }
  }

  /** When every row of the bucket has a numeric count, the bucket is the sum of those counts. */
  lemma {:induction false} BucketOfNumericRows(data: seq<Record>, make: string, k: Option<int>)
    requires forall i :: 0 <= i < |data| && InBucket(data[i], make, k) ==> data[i].fatal.Some?
    ensures Bucket(data, make, k) == Some(MakeYearSum(data, make, k))
  {
    if data != [] {
      assert forall i :: 0 <= i < |Init(data)| ==> Init(data)[i] == data[i];
      BucketOfNumericRows(Init(data), make, k);
    }
  }

  /** The bucket is NaN exactly when the last row that reached it had a
      non-numeric count: `NaN || 0` is 0, so an addition after a NaN restarts the bucket. */
  lemma {:induction false} BucketIsNaNIffLastCountIsNaN(data: seq<Record>, make: string, k: Option<int>, i: nat)
    requires i < |data| && InBucket(data[i], make, k)
    requires forall j :: i < j < |data| ==> !InBucket(data[j], make, k)
    ensures Bucket(data, make, k) == None <==> data[i].fatal == None
  {
    if i < |data| - 1 {
      assert !InBucket(Last(data), make, k);
      BucketIsNaNIffLastCountIsNaN(Init(data), make, k, i);
    }
  }

  /** A row with a non-numeric count wipes out everything its bucket held before it. */
  lemma {:induction false} BucketForgetsBeforeNaN(before: seq<Record>, r: Record, after: seq<Record>, make: string)
    requires r.make == make && r.fatal == None
    ensures Bucket(before + [r] + after, make, r.year) == Bucket([r] + after, make, r.year)
  {
    if after == [] {
      AppendRow(before, r);
      AppendRow([], r);
    } else {
      var front := Init(after);
      assert after == front + [Last(after)];
      assert before + [r] + after == (before + [r] + front) + [Last(after)];
      assert [r] + after == ([r] + front) + [Last(after)];
      AppendRow(before + [r] + front, Last(after));
      AppendRow([r] + front, Last(after));
      BucketForgetsBeforeNaN(before, r, front, make);
    }
  }

  /** First loop (lines 35-41): for each row, create the make's dictionary if
      missing, then set `d[year] = (d[year] || 0) + +count`. The result holds
      one dictionary per make occurring in the data, keyed by the make's year keys. */
  method TallyByMakeAndYear(data: seq<Record>) returns (table: map<string, map<Option<int>, Option<int>>>)
    ensures table.Keys == Makes(data)
    ensures forall make :: make in table ==> table[make] == BucketMap(data, make)
  {
    table := map[];
    var i := 0;
    while i < |data|
      invariant 0 <= i <= |data|
      invariant table.Keys == Makes(data[..i])
      invariant forall make :: make in table ==> table[make].Keys == YearKeysOf(data[..i], make)
      invariant forall make, k :: make in table && k in table[make] ==> table[make][k] == Bucket(data[..i], make, k)
    {
      var r := data[i];
      var years := if r.make in table then table[r.make] else map[];
      var prev := if r.year in years then NaNToZero(years[r.year]) else 0;
      table := table[r.make := years[r.year := AddCount(prev, r.fatal)]];

      ghost var done := data[..i + 1];
      assert Init(done) == data[..i] && Last(done) == r;
      if r.make !in Makes(data[..i]) {
        YearKeysOfUnknownMake(data[..i], r.make);
      }
      if r.year !in years {
        BucketUntouched(data[..i], r.make, r.year);
      }
      i := i + 1;
    }
    assert data[..i] == data;
  }

  /** Second loop (lines 43-47): replace each make's year dictionary by its
      entries sorted by year. */
  method ToSeriesTable(table: map<string, map<Option<int>, Option<int>>>) returns (series: map<string, seq<Entry>>)
    ensures series.Keys == table.Keys
    ensures forall make :: make in series ==> series[make] == SortedEntries(table[make])
  {
    series := map[];
    var pending := table.Keys;
    while pending != {}
      invariant pending <= table.Keys
      invariant series.Keys == table.Keys - pending
      invariant forall make :: make in series ==> series[make] == SortedEntries(table[make])
      decreases pending
    {
      var make :| make in pending;
      series := series[make := SortedEntries(table[make])];
      pending := pending - {make};
    }
  }

  /** The whole per-make computation of lines 35-47: one series per make
      occurring in the data, each the make's buckets in ascending year order. */
  method MakeYearlyData(data: seq<Record>) returns (series: map<string, seq<Entry>>)
    ensures series.Keys == Makes(data)
    ensures forall make :: make in series ==> series[make] == MakeSeries(data, make)
  {
    var table := TallyByMakeAndYear(data);
    series := ToSeriesTable(table);
  }
}
