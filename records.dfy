/// The incident rows the chart script aggregates, and the per-group sums
/// it forms over them.
module Records {

  /** A JavaScript number that may be NaN: None stands for NaN. */
  datatype Option<T> = None | Some(value: T)

  /** One CSV row after coercion.
      `year` is `new Date(Event_Date).getFullYear()`, None when the date does not parse;
      `make` is the raw Make label;
      `fatal` is `+Total_Fatal_Injuries`, None when the field is not numeric
      (an empty field coerces to Some(0)). */
  datatype Record = Record(year: Option<int>, make: string, fatal: Option<int>)

  /** One `{Year, Total_Fatal_Injuries}` object of a drawn series. */
  datatype Entry = Entry(year: Option<int>, total: Option<int>)

  /** A NaN-free number: NaN becomes 0. This is both `x || 0` (NaN and 0 are falsy)
      and the contribution of `x` to a `d3.sum`, which skips NaN. */
  function NaNToZero(x: Option<int>): int
  {
    if x.Some? then x.value else 0
  }

  /** Every row has a parseable date and a numeric count. */
  predicate WellFormed(data: seq<Record>)
  {
    forall i :: 0 <= i < |data| ==> data[i].year.Some? && data[i].fatal.Some?
  }

  function Init(data: seq<Record>): seq<Record>
    requires data != []
  {
    data[..|data| - 1]
  }

  function Last(data: seq<Record>): Record
    requires data != []
  {
    data[|data| - 1]
  }

  /** The Make labels occurring in the data. */
  function Makes(data: seq<Record>): set<string>
  {
    if data == [] then {} else Makes(Init(data)) + {Last(data).make}
  }

  /** The year keys (NaN included) occurring in the data. */
  function YearKeys(data: seq<Record>): set<Option<int>>
  {
    if data == [] then {} else YearKeys(Init(data)) + {Last(data).year}
  }

  /** The year keys (NaN included) of the rows of one make. */
  function YearKeysOf(data: seq<Record>, make: string): set<Option<int>>
  {
    if data == [] then {}
    else if Last(data).make == make then YearKeysOf(Init(data), make) + {Last(data).year}
    else YearKeysOf(Init(data), make)
  }

  /** Sum of the numeric counts of the rows dated in year key `k` (NaN counts skipped). */
  function YearSum(data: seq<Record>, k: Option<int>): int
  {
    if data == [] then 0
    else if Last(data).year == k then YearSum(Init(data), k) + NaNToZero(Last(data).fatal)
    else YearSum(Init(data), k)
  }

  /** Sum of the numeric counts of the rows of one make dated in year key `k`. */
  function MakeYearSum(data: seq<Record>, make: string, k: Option<int>): int
  {
    if data == [] then 0
    else if Last(data).make == make && Last(data).year == k then
      MakeYearSum(Init(data), make, k) + NaNToZero(Last(data).fatal)
    else MakeYearSum(Init(data), make, k)
  }

  lemma {:induction false} MakesMembership(data: seq<Record>, make: string)
    ensures make in Makes(data) <==> exists i :: 0 <= i < |data| && data[i].make == make
  {
    if data != [] {
      MakesMembership(Init(data), make);
      if make in Makes(Init(data)) {
        var i :| 0 <= i < |Init(data)| && Init(data)[i].make == make;
        assert data[i].make == make;
      }
      if exists i :: 0 <= i < |data| && data[i].make == make {
        var i :| 0 <= i < |data| && data[i].make == make;
        if i < |data| - 1 {
          assert Init(data)[i].make == make;
        }
      }
    }
  }

  lemma {:induction false} YearKeysMembership(data: seq<Record>, k: Option<int>)
    ensures k in YearKeys(data) <==> exists i :: 0 <= i < |data| && data[i].year == k
  {
    if data != [] {
      YearKeysMembership(Init(data), k);
      if k in YearKeys(Init(data)) {
        var i :| 0 <= i < |Init(data)| && Init(data)[i].year == k;
        assert data[i].year == k;
      }
      if exists i :: 0 <= i < |data| && data[i].year == k {
        var i :| 0 <= i < |data| && data[i].year == k;
        if i < |data| - 1 {
          assert Init(data)[i].year == k;
        }
      }
    }
  }

  /** A year key in which no row of the make is dated sums to 0. */
  lemma {:induction false} MakeYearSumAbsent(data: seq<Record>, make: string, k: Option<int>)
    requires k !in YearKeysOf(data, make)
    ensures MakeYearSum(data, make, k) == 0
  {
    if data != [] {
      MakeYearSumAbsent(Init(data), make, k);
    }
  }

  /** A year key in which no row is dated sums to 0. */
  lemma {:induction false} YearSumAbsent(data: seq<Record>, k: Option<int>)
    requires k !in YearKeys(data)
    ensures YearSum(data, k) == 0
  {
    if data != [] {
      YearSumAbsent(Init(data), k);
    }
  }

  /** A make that does not occur has no year keys. */
  lemma {:induction false} YearKeysOfUnknownMake(data: seq<Record>, make: string)
    requires make !in Makes(data)
    ensures YearKeysOf(data, make) == {}
  {
    if data != [] {
      YearKeysOfUnknownMake(Init(data), make);
    }
  }

  /** Appending one row extends every definition by one step. */
  lemma AppendRow(data: seq<Record>, r: Record)
    ensures Init(data + [r]) == data && Last(data + [r]) == r
  {
  }

  /** A row inserted anywhere adds exactly its own year key. */
  lemma {:induction false} YearKeysInsert(a: seq<Record>, r: Record, b: seq<Record>)
    ensures YearKeys(a + [r] + b) == YearKeys(a + b) + {r.year}
  {
    if b == [] {
      assert Init(a + [r]) == a && Last(a + [r]) == r;
      assert a + [r] + b == a + [r] && a + b == a;
    } else {
      assert Init(a + [r] + b) == a + [r] + Init(b) && Last(a + [r] + b) == Last(b);
      assert Init(a + b) == a + Init(b) && Last(a + b) == Last(b);
      YearKeysInsert(a, r, Init(b));
    }
  }

  /** A row inserted anywhere adds its numeric count to its own year key and
      to no other. */
  lemma {:induction false} YearSumInsert(a: seq<Record>, r: Record, b: seq<Record>, k: Option<int>)
    ensures YearSum(a + [r] + b, k) == YearSum(a + b, k) + (if r.year == k then NaNToZero(r.fatal) else 0)
  {
    if b == [] {
      assert Init(a + [r]) == a && Last(a + [r]) == r;
      assert a + [r] + b == a + [r] && a + b == a;
    } else {
      assert Init(a + [r] + b) == a + [r] + Init(b) && Last(a + [r] + b) == Last(b);
      assert Init(a + b) == a + Init(b) && Last(a + b) == Last(b);
      YearSumInsert(a, r, Init(b), k);
    }
  }
}
