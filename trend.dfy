/// `computeTrendline` (main.js lines 144-154): an ordinary least-squares fit
/// over a series, evaluated at the fixed display years 1995 and 2016.
/// Arithmetic is exact (`real`); None stands for a NaN result. As in
/// `d3.mean` and `d3.sum`, NaN years, NaN totals and NaN terms are skipped.
module Trend {
  import opened Records

  const FirstYear := 1995
  const LastYear := 2016

  /** One point of the trend line; `value` is None when it is NaN. */
  datatype TrendPoint = TrendPoint(year: int, value: Option<real>)

  function Sum(xs: seq<real>): real
  {
    if xs == [] then 0.0 else xs[0] + Sum(xs[1..])
  }

  /** `d3.mean`: undefined (None) when there is no numeric value. */
  function Mean(xs: seq<real>): Option<real>
  {
    if xs == [] then None else Some(Sum(xs) / (|xs| as real))
  }

  /** The numeric years of a series, in order. */
  function Years(s: seq<Entry>): seq<real>
  {
    if s == [] then []
    else if s[0].year.Some? then [s[0].year.value as real] + Years(s[1..])
    else Years(s[1..])
  }

  /** The numeric totals of a series, in order. */
  function Totals(s: seq<Entry>): seq<real>
  {
    if s == [] then []
    else if s[0].total.Some? then [s[0].total.value as real] + Totals(s[1..])
    else Totals(s[1..])
  }

  /** How far a value lies from a mean. */
  function Deviation(v: real, m: real): real
  {
    v - m
  }

  function Sq(x: real): real
  {
    x * x
  }

  lemma SqPositive(x: real)
    requires x != 0.0
    ensures Sq(x) > 0.0
  {
    if x > 0.0 {
      calc {
        Sq(x);
        x * x;
      > { assert x * x > 0.0; }
        0.0;
      }
    } else {
      calc {
        Sq(x);
        x * x;
        (-x) * (-x);
      > { assert (-x) * (-x) > 0.0; }
        0.0;
      }
    }
  }

  lemma SqNonNegative(x: real)
    ensures Sq(x) >= 0.0
  {
    if x != 0.0 {
      SqPositive(x);
    }
  }

  /** The sum of a sequence that starts with `x`. */
  lemma SumCons(x: real, xs: seq<real>)
    ensures Sum([x] + xs) == x + Sum(xs)
  {
    assert ([x] + xs)[1..] == xs;
  }

  /** `d3.sum(data, d => (d.Year - xMean) ** 2)`: entries with a NaN year are skipped. */
  function SquareSum(s: seq<Entry>, mx: real): real
  {
    if s == [] then 0.0
    else (if s[0].year.Some? then Sq(Deviation(s[0].year.value as real, mx)) else 0.0) + SquareSum(s[1..], mx)
  }

  /** `d3.sum(data, d => (d.Year - xMean) * (d.Total_Fatal_Injuries - yMean))`:
      entries with a NaN year or a NaN total are skipped. */
  function CrossSum(s: seq<Entry>, mx: real, my: real): real
  {
    if s == [] then 0.0
    else
      (if s[0].year.Some? && s[0].total.Some? then Deviation(s[0].year.value as real, mx) * Deviation(s[0].total.value as real, my) else 0.0)
      + CrossSum(s[1..], mx, my)
  }

  /** Slope and intercept, or None when either is NaN: no numeric year
      (xMean undefined), no numeric total (yMean undefined, so the intercept
      is NaN) or a zero denominator (then the numerator is 0 too, and 0/0 is NaN). */
  function Fit(s: seq<Entry>): Option<(real, real)>
  {
    var mx, my := Mean(Years(s)), Mean(Totals(s));
    if mx.None? || my.None? then None
    else Line(mx.value, my.value, CrossSum(s, mx.value, my.value), SquareSum(s, mx.value))
  }

  /** `slope = cross / den; intercept = yMean - slope * xMean`. */
  function Line(mx: real, my: real, cross: real, den: real): Option<(real, real)>
  {
    if den == 0.0 then None
    else
      var slope := cross / den;
      Some((slope, my - slope * mx))
  }

  function ValueAt(fit: Option<(real, real)>, x: int): Option<real>
  {
    if fit.None? then None else Some(fit.value.0 * (x as real) + fit.value.1)
  }

  /** Two numeric years that differ. */
  predicate DistinctYears(s: seq<Entry>)
  {
    exists i, j :: 0 <= i < |s| && 0 <= j < |s| && s[i].year.Some? && s[j].year.Some? && s[i].year != s[j].year
  }

  /** At least one numeric total. */
  predicate HasNumericTotal(s: seq<Entry>)
  {
    exists i :: 0 <= i < |s| && s[i].total.Some?
  }

  /** The two points returned by `computeTrendline`: always exactly two, at
      1995 and 2016, and numeric exactly when the series has two distinct
      numeric years and a numeric total. */
  function Trendline(s: seq<Entry>): (r: seq<TrendPoint>)
    ensures |r| == 2 && r[0].year == FirstYear && r[1].year == LastYear
    ensures r[0].value.Some? <==> DistinctYears(s) && HasNumericTotal(s)
    ensures r[1].value.Some? <==> DistinctYears(s) && HasNumericTotal(s)
  {
    FitDefinedIff(s);
    var fit := Fit(s);
    [TrendPoint(FirstYear, ValueAt(fit, FirstYear)), TrendPoint(LastYear, ValueAt(fit, LastYear))]
  }

  lemma {:induction false} YearsNonEmpty(s: seq<Entry>, i: nat)
    requires i < |s| && s[i].year.Some?
    ensures Years(s) != []
  {
    if i > 0 {
      YearsNonEmpty(s[1..], i - 1);
    }
  }

  lemma {:induction false} TotalsNonEmpty(s: seq<Entry>)
    requires Totals(s) != []
    ensures HasNumericTotal(s)
  {
    if !s[0].total.Some? {
      TotalsNonEmpty(s[1..]);
      var i :| 0 <= i < |s[1..]| && s[1..][i].total.Some?;
      assert s[i + 1].total.Some?;
    }
  }

  lemma {:induction false} TotalsOfNumericEntry(s: seq<Entry>, i: nat)
    requires i < |s| && s[i].total.Some?
    ensures Totals(s) != []
  {
    if i > 0 {
      TotalsOfNumericEntry(s[1..], i - 1);
    }
  }

  lemma {:induction false} SquareSumNonNegative(s: seq<Entry>, mx: real)
    ensures SquareSum(s, mx) >= 0.0
  {
    if s != [] {
      SquareSumNonNegative(s[1..], mx);
      if s[0].year.Some? {
        SqNonNegative(Deviation(s[0].year.value as real, mx));
      }
    }
  }

  lemma {:induction false} SquareSumAtLeastTerm(s: seq<Entry>, mx: real, i: nat)
    requires i < |s| && s[i].year.Some?
    ensures SquareSum(s, mx) >= Sq(Deviation(s[i].year.value as real, mx))
  {
    SquareSumNonNegative(s[1..], mx);
    if i > 0 {
      assert s[1..][i - 1] == s[i];
      SquareSumAtLeastTerm(s[1..], mx, i - 1);
      if s[0].year.Some? {
        SqNonNegative(Deviation(s[0].year.value as real, mx));
      }
    }
  }

  /** With two distinct numeric years the denominator at line 148 is positive,
      whatever the mean it is centred on. */
  lemma SquareSumPositive(s: seq<Entry>, mx: real)
    requires DistinctYears(s)
    ensures SquareSum(s, mx) > 0.0
  {
    var i, j :| 0 <= i < |s| && 0 <= j < |s| && s[i].year.Some? && s[j].year.Some? && s[i].year != s[j].year;
    assert s[i].year.value != s[j].year.value;
    assert s[i].year.value as real != s[j].year.value as real;
    var k := if s[i].year.value as real != mx then i else j;
    var d := Deviation(s[k].year.value as real, mx);
    assert d != 0.0;
    SqPositive(d);
    SquareSumAtLeastTerm(s, mx, k);
  }

  /** When every numeric year is `y`, their mean is `y` and the squares vanish. */
  lemma {:induction false} SingleYear(s: seq<Entry>, y: int)
    requires forall i :: 0 <= i < |s| && s[i].year.Some? ==> s[i].year.value == y
    ensures Sum(Years(s)) == (|Years(s)| as real) * (y as real)
    ensures SquareSum(s, y as real) == 0.0
  {
    if s != [] {
      SingleYear(s[1..], y);
      if s[0].year.Some? {
        SumCons(s[0].year.value as real, Years(s[1..]));
      }
    }
  }

  lemma FitDefinedIff(s: seq<Entry>)
    ensures Fit(s).Some? <==> DistinctYears(s) && HasNumericTotal(s)
  {
    var mx, my := Mean(Years(s)), Mean(Totals(s));
    if DistinctYears(s) && HasNumericTotal(s) {
      var i, j :| 0 <= i < |s| && 0 <= j < |s| && s[i].year.Some? && s[j].year.Some? && s[i].year != s[j].year;
      YearsNonEmpty(s, i);
      var t :| 0 <= t < |s| && s[t].total.Some?;
      TotalsOfNumericEntry(s, t);
      SquareSumPositive(s, mx.value);
    }
    if Fit(s).Some? {
      TotalsNonEmpty(s);
      if !DistinctYears(s) {
        var n := |Years(s)|;
        assert n > 0;
        var i := FirstNumericYear(s);
        var y := s[i].year.value;
        assert forall k :: 0 <= k < |s| && s[k].year.Some? ==> s[k].year.value == y;
        SingleYear(s, y);
        QuotientOfMultiple(Sum(Years(s)), n as real, y as real);
        assert false;
      }
    }
  }

  /** The index of some entry with a numeric year. */
  function FirstNumericYear(s: seq<Entry>): (i: nat)
    requires Years(s) != []
    ensures i < |s| && s[i].year.Some?
  {
    if s[0].year.Some? then 0 else 1 + FirstNumericYear(s[1..])
  }

  /** Every entry has a numeric year and a numeric total. */
  predicate Numeric(s: seq<Entry>)
  {
    s == [] || (s[0].year.Some? && s[0].total.Some? && Numeric(s[1..]))
  }

  /** The numeric (year, total) pairs of a series, in order. */
  function Points(s: seq<Entry>): seq<(real, real)>
  {
    if s == [] then []
    else if s[0].year.Some? && s[0].total.Some? then
      [(s[0].year.value as real, s[0].total.value as real)] + Points(s[1..])
    else Points(s[1..])
  }

  /** Every point lies on the line `total = a * year + b`. */
  predicate PointsOn(p: seq<(real, real)>, a: real, b: real)
  {
    p == [] || (p[0].1 == a * p[0].0 + b && PointsOn(p[1..], a, b))
  }

  /** Every entry is numeric and lies on the line `total = a * year + b`. */
  predicate OnLine(s: seq<Entry>, a: real, b: real)
  {
    Numeric(s) && PointsOn(Points(s), a, b)
  }

  /** On points that lie exactly on a line `total = a * year + b`, with two
      distinct years, the fit recovers that line. */
  lemma TrendlineOfExactLine(s: seq<Entry>, a: real, b: real)
    requires OnLine(s, a, b)
    requires DistinctYears(s)
    ensures Trendline(s) == [TrendPoint(FirstYear, Some(a * FirstYear as real + b)),
                             TrendPoint(LastYear, Some(a * LastYear as real + b))]
  {
    FitOfExactLine(s, a, b);
  }

  lemma FitOfExactLine(s: seq<Entry>, a: real, b: real)
    requires OnLine(s, a, b)
    requires DistinctYears(s)
    ensures Fit(s) == Some((a, b))
  {
    var mx, my := ExactLineSums(s, a, b);
    FitOfMeans(s, mx, my);
    LineOfExactData(mx, my, CrossSum(s, mx, my), SquareSum(s, mx), a, b);
  }

  /** On points of a line with two distinct years: both means exist, the mean
      point lies on the line, the cross sum is `a` times the square sum, and
      the square sum is positive. */
  lemma ExactLineSums(s: seq<Entry>, a: real, b: real) returns (mx: real, my: real)
    requires OnLine(s, a, b)
    requires DistinctYears(s)
    ensures Mean(Years(s)) == Some(mx) && Mean(Totals(s)) == Some(my)
    ensures my == a * mx + b
    ensures CrossSum(s, mx, my) == a * SquareSum(s, mx) && SquareSum(s, mx) > 0.0
  {
    var p := Points(s);
    PointsOfNumeric(s);
    mx, my := MeansOfLine(p, a, b);
    CrossSumOfPoints(s, mx, my);
    SquareSumOfPoints(s, mx);
    PointLineCross(p, a, b, mx, my);
    SquareSumPositive(s, mx);
  }

  /** Once both means are known, the fit is the line through them. */
  lemma FitOfMeans(s: seq<Entry>, mx: real, my: real)
    requires Mean(Years(s)) == Some(mx) && Mean(Totals(s)) == Some(my)
    ensures Fit(s) == Line(mx, my, CrossSum(s, mx, my), SquareSum(s, mx))
  {
  }

  /** The arithmetic of the fit, once the means and sums over a line are known. */
  lemma LineOfExactData(mx: real, my: real, cross: real, den: real, a: real, b: real)
    requires my == a * mx + b && cross == a * den && den > 0.0
    ensures Line(mx, my, cross, den) == Some((a, b))
  {
    QuotientOfMultiple(cross, den, a);
    var fit := Line(mx, my, cross, den);
    assert fit.Some? && fit.value.0 == a;
    assert fit.value.1 == my - a * mx;
  }

  lemma QuotientOfMultiple(c: real, d: real, a: real)
    requires d != 0.0 && c == a * d
    ensures c / d == a
  {
  }

  /** The years of the points, in order. */
  function Xs(p: seq<(real, real)>): seq<real>
  {
    if p == [] then [] else [p[0].0] + Xs(p[1..])
  }

  /** The totals of the points, in order. */
  function Ys(p: seq<(real, real)>): seq<real>
  {
    if p == [] then [] else [p[0].1] + Ys(p[1..])
  }

  /** The terms of the cross sum, one per point. */
  function CrossTerms(p: seq<(real, real)>, mx: real, my: real): seq<real>
  {
    if p == [] then [] else [Deviation(p[0].0, mx) * Deviation(p[0].1, my)] + CrossTerms(p[1..], mx, my)
  }

  /** The terms of the square sum, one per point. */
  function SquareTerms(p: seq<(real, real)>, mx: real): seq<real>
  {
    if p == [] then [] else [Sq(Deviation(p[0].0, mx))] + SquareTerms(p[1..], mx)
  }

  /** In a series whose entries are all numeric, the years and totals the
      means are taken over are those of its points. */
  lemma {:induction false} PointsOfNumeric(s: seq<Entry>)
    requires Numeric(s)
    ensures |Points(s)| == |s|
    ensures Years(s) == Xs(Points(s)) && Totals(s) == Ys(Points(s))
  {
    if s != [] {
      PointsOfNumeric(s[1..]);
      var e := (s[0].year.value as real, s[0].total.value as real);
      assert ([e] + Points(s[1..]))[1..] == Points(s[1..]);
    }
  }

  /** The cross sum skips exactly the entries `Points` leaves out. */
  lemma {:induction false} CrossSumOfPoints(s: seq<Entry>, mx: real, my: real)
    ensures CrossSum(s, mx, my) == Sum(CrossTerms(Points(s), mx, my))
  {
    if s != [] {
      CrossSumOfPoints(s[1..], mx, my);
      if s[0].year.Some? && s[0].total.Some? {
        var e := (s[0].year.value as real, s[0].total.value as real);
        var rest := Points(s[1..]);
        assert ([e] + rest)[1..] == rest;
        SumCons(Deviation(e.0, mx) * Deviation(e.1, my), CrossTerms(rest, mx, my));
      }
    }
  }

  /** When every entry is numeric, the square sum is taken over the points. */
  lemma {:induction false} SquareSumOfPoints(s: seq<Entry>, mx: real)
    requires Numeric(s)
    ensures SquareSum(s, mx) == Sum(SquareTerms(Points(s), mx))
  {
    if s != [] {
      SquareSumOfPoints(s[1..], mx);
      var e := (s[0].year.value as real, s[0].total.value as real);
      var rest := Points(s[1..]);
      assert ([e] + rest)[1..] == rest;
      SumCons(Sq(Deviation(e.0, mx)), SquareTerms(rest, mx));
    }
  }

  /** On points of a line the mean total is the line's value at the mean year. */
  lemma MeansOfLine(p: seq<(real, real)>, a: real, b: real) returns (mx: real, my: real)
    requires PointsOn(p, a, b) && p != []
    ensures Mean(Xs(p)) == Some(mx) && Mean(Ys(p)) == Some(my)
    ensures my == a * mx + b
  {
    var xs, ys := Xs(p), Ys(p);
    CoordinatesOnLine(p, a, b);
    AffineSum(ys, xs, a, b);
    var n := |xs| as real;
    mx, my := Sum(xs) / n, Sum(ys) / n;
    MeanOfLine(Sum(xs), Sum(ys), n, a, b, mx, my);
  }

  lemma MeanOfLine(sx: real, sy: real, n: real, a: real, b: real, mx: real, my: real)
    requires n > 0.0 && sy == a * sx + n * b
    requires mx == sx / n && my == sy / n
    ensures my == a * mx + b
  {
    assert sx == mx * n;
    assert sy == (a * mx + b) * n;
  }

  /** The totals of points on a line are an affine image of their years. */
  lemma {:induction false} CoordinatesOnLine(p: seq<(real, real)>, a: real, b: real)
    requires PointsOn(p, a, b)
    ensures |Xs(p)| == |p| && Affine(Ys(p), Xs(p), a, b)
  {
    if p != [] {
      CoordinatesOnLine(p[1..], a, b);
      assert ([p[0].0] + Xs(p[1..]))[1..] == Xs(p[1..]);
      assert ([p[0].1] + Ys(p[1..]))[1..] == Ys(p[1..]);
    }
  }

  /** On points of the line through the mean point, the cross sum is `a`
      times the square sum. */
  lemma PointLineCross(p: seq<(real, real)>, a: real, b: real, mx: real, my: real)
    requires PointsOn(p, a, b)
    requires my == a * mx + b
    ensures Sum(CrossTerms(p, mx, my)) == a * Sum(SquareTerms(p, mx))
  {
    TermsOnLine(p, a, b, mx, my);
    ScaledSum(CrossTerms(p, mx, my), SquareTerms(p, mx), a);
  }

  /** On points of the line through the mean point, each cross term is `a`
      times its square term. */
  lemma {:induction false} TermsOnLine(p: seq<(real, real)>, a: real, b: real, mx: real, my: real)
    requires PointsOn(p, a, b)
    requires my == a * mx + b
    ensures Affine(CrossTerms(p, mx, my), SquareTerms(p, mx), a, 0.0)
  {
    if p != [] {
      TermsOnLine(p[1..], a, b, mx, my);
      var c, q := Deviation(p[0].0, mx) * Deviation(p[0].1, my), Sq(Deviation(p[0].0, mx));
      assert ([c] + CrossTerms(p[1..], mx, my))[1..] == CrossTerms(p[1..], mx, my);
      assert ([q] + SquareTerms(p[1..], mx))[1..] == SquareTerms(p[1..], mx);
      LineTerm(c, q, p[0].0, p[0].1, a, b, mx, my);
    }
  }

  /** A point on a line through the mean point contributes to the cross sum
      `a` times what it contributes to the square sum. */
  lemma LineTerm(c: real, q: real, x: real, y: real, a: real, b: real, mx: real, my: real)
    requires c == Deviation(x, mx) * Deviation(y, my) && q == Sq(Deviation(x, mx))
    requires y == a * x + b && my == a * mx + b
    ensures c == a * q
  {
    DeviationOnLine(x, y, a, b, mx, my);
  }

  /** On a line through the mean point, the total's deviation is `a` times the year's. */
  lemma DeviationOnLine(x: real, y: real, a: real, b: real, mx: real, my: real)
    requires y == a * x + b && my == a * mx + b
    ensures Deviation(y, my) == a * Deviation(x, mx)
  {
  }

  /** Each term of `v` is `a` times the matching term of `u`, plus `b`. */
  predicate Affine(v: seq<real>, u: seq<real>, a: real, b: real)
  {
    |v| == |u| && (u == [] || (v[0] == a * u[0] + b && Affine(v[1..], u[1..], a, b)))
  }

  /** A sum whose terms are `a` times those of another, plus `b`, is `a` times
      that sum plus `b` for each term. */
  lemma {:induction false} AffineSum(v: seq<real>, u: seq<real>, a: real, b: real)
    requires Affine(v, u, a, b)
    ensures Sum(v) == a * Sum(u) + (|u| as real) * b
  {
    if u != [] {
      AffineSum(v[1..], u[1..], a, b);
      AffineStep(u[0], v[0], Sum(u[1..]), Sum(v[1..]), Sum(u), Sum(v), |u[1..]| as real, |u| as real, a, b);
    }
  }

  /** One more term keeps the sums in the affine relation. */
  lemma AffineStep(x: real, y: real, sx: real, sy: real, tx: real, ty: real, n: real, m: real, a: real, b: real)
    requires tx == x + sx && ty == y + sy && m == n + 1.0
    requires y == a * x + b && sy == a * sx + n * b
    ensures ty == a * tx + m * b
  {
  }

  /** A sum whose terms are `a` times those of another is `a` times that sum. */
  lemma ScaledSum(v: seq<real>, u: seq<real>, a: real)
    requires Affine(v, u, a, 0.0)
    ensures Sum(v) == a * Sum(u)
  {
    AffineSum(v, u, a, 0.0);
    assert (|u| as real) * 0.0 == 0.0;
  }

  /** The three-point series (2000, 10), (2001, 20), (2002, 30) has slope 10 and
      intercept -19990, so its trend points are (1995, -40) and (2016, 170). */
  lemma TrendlineExample()
    ensures Trendline([Entry(Some(2000), Some(10)), Entry(Some(2001), Some(20)), Entry(Some(2002), Some(30))])
         == [TrendPoint(1995, Some(-40.0)), TrendPoint(2016, Some(170.0))]
  {
    var s := [Entry(Some(2000), Some(10)), Entry(Some(2001), Some(20)), Entry(Some(2002), Some(30))];
    assert s[0].year != s[1].year;
    TrendlineOfExactLine(s, 10.0, -19990.0);
  }

  /** Integer data on a line with a fractional slope: (2000, 0) and (2002, 1)
      lie on `total = year / 2 - 1000`, so the trend points are (1995, -2.5)
      and (2016, 8). */
  lemma TrendlineHalfSlopeExample()
    ensures Trendline([Entry(Some(2000), Some(0)), Entry(Some(2002), Some(1))])
         == [TrendPoint(1995, Some(-2.5)), TrendPoint(2016, Some(8.0))]
  {
    var s := [Entry(Some(2000), Some(0)), Entry(Some(2002), Some(1))];
    assert s[0].year != s[1].year;
    TrendlineOfExactLine(s, 0.5, -1000.0);
  }
}
