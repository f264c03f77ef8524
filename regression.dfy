/**
 * The regression line of the scatter plot (`calculateLinearRegression`):
 * ordinary least squares of y on x in closed form, with the coefficient of
 * determination clamped at 0. Arithmetic is over the reals.
 */
module Regression {
  import opened Options
  import opened Hikes
  import opened Scatter

  datatype Point = Point(x: real, y: real)

  /** `(d[xKey], d[yKey])` for a record with a value on both axes. */
  function PointOf(h: Hike, xKey: Field, yKey: Field): (p: Point)
    requires IsValidPoint(h, xKey, yKey)
    ensures Some(p.x) == FieldValue(h, xKey) && Some(p.y) == FieldValue(h, yKey)
  {
    Point(FieldValue(h, xKey).value, FieldValue(h, yKey).value)
  }

  /** The points of the valid records, in order. */
  function PointsOf(valid: seq<Hike>, xKey: Field, yKey: Field): (ps: seq<Point>)
    requires forall i :: 0 <= i < |valid| ==> IsValidPoint(valid[i], xKey, yKey)
    ensures |ps| == |valid|
    ensures forall i :: 0 <= i < |valid| ==>
      Some(ps[i].x) == FieldValue(valid[i], xKey) && Some(ps[i].y) == FieldValue(valid[i], yKey)
  {
    seq(|valid|, i requires 0 <= i < |valid| => PointOf(valid[i], xKey, yKey))
  }

  /** `reduce((sum, v) => sum + v, 0)`. */
  function Sum(s: seq<real>): real {
    if s == [] then 0.0 else s[0] + Sum(s[1..])
  }

  function Xs(ps: seq<Point>): seq<real> {
    seq(|ps|, i requires 0 <= i < |ps| => ps[i].x)
  }

  function Ys(ps: seq<Point>): seq<real> {
    seq(|ps|, i requires 0 <= i < |ps| => ps[i].y)
  }

  function Products(ps: seq<Point>): seq<real> {
    seq(|ps|, i requires 0 <= i < |ps| => ps[i].x * ps[i].y)
  }

  function SquaresX(ps: seq<Point>): seq<real> {
    seq(|ps|, i requires 0 <= i < |ps| => ps[i].x * ps[i].x)
  }

  /** `(y − meanY)²` per point. */
  function Deviations(ps: seq<Point>, meanY: real): seq<real> {
    seq(|ps|, i requires 0 <= i < |ps| => Square(ps[i].y - meanY))
  }

  /** `(y − (slope·x + intercept))²` per point. */
  function Residuals(ps: seq<Point>, slope: real, intercept: real): seq<real> {
    seq(|ps|, i requires 0 <= i < |ps| =>
      Square(ps[i].y - (slope * ps[i].x + intercept)))
  }

  /** `Math.pow(v, 2)`. */
  function Square(v: real): real { v * v }

  function SumX(ps: seq<Point>): real { Sum(Xs(ps)) }
  function SumY(ps: seq<Point>): real { Sum(Ys(ps)) }
  function SumXY(ps: seq<Point>): real { Sum(Products(ps)) }
  function SumXX(ps: seq<Point>): real { Sum(SquaresX(ps)) }

  /** The slope's denominator `n·Σx² − (Σx)²`. */
  function Denominator(ps: seq<Point>): real {
    |ps| as real * SumXX(ps) - SumX(ps) * SumX(ps)
  }

  function TotalSumSquares(ps: seq<Point>, meanY: real): real {
    Sum(Deviations(ps, meanY))
  }

  function ResidualSumSquares(ps: seq<Point>, slope: real, intercept: real): real {
    Sum(Residuals(ps, slope, intercept))
  }

  datatype Fit = Fit(slope: real, intercept: real, rSquared: real)

  /**
   * `calculateLinearRegression` on the points: `None` (JavaScript `null`)
   * below two points; otherwise the closed-form slope and intercept and
   * R² = 1 − RSS/TSS, taken as 0 when TSS is 0 and clamped below at 0.
   * The slope's denominator is not guarded in the component, so it is a
   * precondition here.
   */
  function LinearRegression(ps: seq<Point>): (r: Option<Fit>)
    requires |ps| >= 2 ==> Denominator(ps) != 0.0
    ensures r.None? <==> |ps| < 2
    ensures r.Some? ==> r.value.rSquared >= 0.0
    ensures r.Some? && TotalSumSquares(ps, SumY(ps) / |ps| as real) == 0.0 ==> r.value.rSquared == 0.0
    ensures r.Some? ==> r.value.intercept * |ps| as real == SumY(ps) - r.value.slope * SumX(ps)
  {
    if |ps| < 2 then None
    else
      var slope := Slope(ps);
      var intercept := Intercept(ps, slope);
      Some(Fit(slope, intercept, RSquared(ps, slope, intercept)))
  }

  /** `(n·Σxy − Σx·Σy) / (n·Σx² − (Σx)²)`. */
  function Slope(ps: seq<Point>): real
    requires |ps| >= 2 && Denominator(ps) != 0.0
  {
    (|ps| as real * SumXY(ps) - SumX(ps) * SumY(ps)) / Denominator(ps)
  }

  /** `(Σy − slope·Σx) / n`. */
  function Intercept(ps: seq<Point>, slope: real): (r: real)
    requires |ps| >= 2
    ensures r * |ps| as real == SumY(ps) - slope * SumX(ps)
  {
    (SumY(ps) - slope * SumX(ps)) / |ps| as real
  }

  /** `1 − RSS/TSS`, 0 when TSS is 0, and never below 0. */
  function RSquared(ps: seq<Point>, slope: real, intercept: real): (r: real)
    requires |ps| >= 2
    ensures r >= 0.0
    ensures TotalSumSquares(ps, SumY(ps) / |ps| as real) == 0.0 ==> r == 0.0
  {
    var tss := TotalSumSquares(ps, SumY(ps) / |ps| as real);
    var rSquared := if tss == 0.0 then 0.0 else 1.0 - ResidualSumSquares(ps, slope, intercept) / tss;
    if rSquared < 0.0 then 0.0 else rSquared
  }

  /** The regression over the valid records for the chosen axes. */
  function CalculateLinearRegression(valid: seq<Hike>, xKey: Field, yKey: Field): (r: Option<Fit>)
    requires forall i :: 0 <= i < |valid| ==> IsValidPoint(valid[i], xKey, yKey)
    requires |valid| >= 2 ==> Denominator(PointsOf(valid, xKey, yKey)) != 0.0
    ensures r.None? <==> |valid| < 2
    ensures r.Some? ==> r.value.rSquared >= 0.0
  {
    LinearRegression(PointsOf(valid, xKey, yKey))
  }

  // Facts about sums of sequences of reals.

  /** A sum of terms `a·t[i] + b·u[i]` is `a·Σt + b·Σu`. */
  lemma {:induction false} SumLinear(s: seq<real>, t: seq<real>, u: seq<real>, a: real, b: real)
    requires |s| == |t| == |u|
    requires forall i :: 0 <= i < |s| ==> s[i] == a * t[i] + b * u[i]
    ensures Sum(s) == a * Sum(t) + b * Sum(u)
  {
    if s != [] {
      SumLinear(s[1..], t[1..], u[1..], a, b);
      calc {
        Sum(s);
        s[0] + Sum(s[1..]);
        (a * t[0] + b * u[0]) + (a * Sum(t[1..]) + b * Sum(u[1..]));
        a * (t[0] + Sum(t[1..])) + b * (u[0] + Sum(u[1..]));
        a * Sum(t) + b * Sum(u);
      }
    }
  }

  /** A sum of `n` copies of `c` is `n·c`. */
  lemma {:induction false} SumConstant(s: seq<real>, c: real)
    requires forall i :: 0 <= i < |s| ==> s[i] == c
    ensures Sum(s) == |s| as real * c
  {
    if s != [] {
      SumConstant(s[1..], c);
      assert Sum(s) == c + (|s| - 1) as real * c;
    }
  }

  /** A sum of non-negative terms is non-negative, and 0 exactly when every term is 0. */
  lemma {:induction false} SumNonNegative(s: seq<real>)
    requires forall i :: 0 <= i < |s| ==> s[i] >= 0.0
    ensures Sum(s) >= 0.0
    ensures Sum(s) == 0.0 <==> forall i :: 0 <= i < |s| ==> s[i] == 0.0
  {
    if s != [] {
      assert forall i :: 0 <= i < |s[1..]| ==> s[1..][i] == s[i + 1];
      SumNonNegative(s[1..]);
      if Sum(s) == 0.0 {
        forall i | 0 <= i < |s| ensures s[i] == 0.0 {
          if i > 0 { assert s[i] == s[1..][i - 1]; }
        }
      }
    }
  }

  lemma SquareZero(d: real)
    ensures Square(d) >= 0.0
    ensures Square(d) == 0.0 <==> d == 0.0
  {
    if d > 0.0 {
      calc {
        Square(d);
        d * d;
      >
        0.0 * d;
        0.0;
      }
    } else if d < 0.0 {
      calc {
        Square(d);
        (-d) * (-d);
      >
        0.0 * (-d);
        0.0;
      }
    }
  }

  /** The total sum of squares is non-negative, and 0 exactly when every y equals `m`. */
  lemma ZeroTotalSumSquares(ps: seq<Point>, m: real)
    ensures TotalSumSquares(ps, m) >= 0.0
    ensures TotalSumSquares(ps, m) == 0.0 <==> forall i :: 0 <= i < |ps| ==> ps[i].y == m
  {
    var dev := Deviations(ps, m);
    forall i | 0 <= i < |ps| ensures dev[i] >= 0.0 && (dev[i] == 0.0 <==> ps[i].y == m) {
      SquareZero(ps[i].y - m);
    }
    SumNonNegative(dev);
  }

  // Points exactly on a line.

  predicate OnLine(ps: seq<Point>, a: real, b: real) {
    forall i :: 0 <= i < |ps| ==> ps[i].y == a * ps[i].x + b
  }

  function Ones(n: nat): seq<real> {
    seq(n, _ => 1.0)
  }

  lemma CollinearSumY(ps: seq<Point>, a: real, b: real)
    requires OnLine(ps, a, b)
    ensures SumY(ps) == a * SumX(ps) + |ps| as real * b
  {
    SumLinear(Ys(ps), Xs(ps), Ones(|ps|), a, b);
    SumConstant(Ones(|ps|), 1.0);
  }

  lemma CollinearSumXY(ps: seq<Point>, a: real, b: real)
    requires OnLine(ps, a, b)
    ensures SumXY(ps) == a * SumXX(ps) + b * SumX(ps)
  {
    forall i | 0 <= i < |ps| ensures Products(ps)[i] == a * SquaresX(ps)[i] + b * Xs(ps)[i] {
      var x := ps[i].x;
      assert x * (a * x + b) == a * (x * x) + b * x;
    }
    SumLinear(Products(ps), SquaresX(ps), Xs(ps), a, b);
  }

  /** The `i`-th squared residual of the line `y = a x + b`. */
  lemma ResidualAt(ps: seq<Point>, a: real, b: real, i: int)
    requires 0 <= i < |ps|
    ensures Residuals(ps, a, b)[i] == Square(ps[i].y - (a * ps[i].x + b))
  {
  }

  lemma CollinearResiduals(ps: seq<Point>, a: real, b: real)
    requires OnLine(ps, a, b)
    ensures ResidualSumSquares(ps, a, b) == 0.0
  {
    forall i | 0 <= i < |ps|
      ensures Residuals(ps, a, b)[i] == 0.0
    {
      ResidualAt(ps, a, b, i);
    }
    SumConstant(Residuals(ps, a, b), 0.0);
  }

  /** When every x is the same value the slope's denominator is 0. */
  lemma EqualXZeroDenominator(ps: seq<Point>, c: real)
    requires forall i :: 0 <= i < |ps| ==> ps[i].x == c
    ensures Denominator(ps) == 0.0
  {
    SumConstant(Xs(ps), c);
    SumConstant(SquaresX(ps), c * c);
    var n := |ps| as real;
    assert Denominator(ps) == n * (n * (c * c)) - (n * c) * (n * c);
  }

  lemma SlopeRecovered(n: real, sx: real, sy: real, sxy: real, sxx: real, d: real, a: real, b: real)
    requires d == n * sxx - sx * sx && d != 0.0
    requires sy == a * sx + n * b && sxy == a * sxx + b * sx
    ensures (n * sxy - sx * sy) / d == a
  {
    calc {
      n * sxy - sx * sy;
      n * (a * sxx + b * sx) - sx * (a * sx + n * b);
      a * (n * sxx - sx * sx);
      a * d;
    }
  }

  lemma InterceptRecovered(n: real, sx: real, sy: real, a: real, b: real)
    requires n > 0.0 && sy == a * sx + n * b
    ensures (sy - a * sx) / n == b
    ensures sy / n == a * (sx / n) + b
  {
    assert sy - a * sx == n * b;
  }

  /**
   * For points exactly on a line `y = a·x + b` (with x values that are not
   * all equal), the fit recovers the line; R² is 1 unless the line is flat,
   * where every y equals the mean and R² is 0 by convention.
   */
  lemma CollinearFit(ps: seq<Point>, a: real, b: real)
    requires |ps| >= 2 && Denominator(ps) != 0.0
    requires OnLine(ps, a, b)
    ensures LinearRegression(ps).Some?
    ensures LinearRegression(ps).value.slope == a
    ensures LinearRegression(ps).value.intercept == b
    ensures a != 0.0 ==> LinearRegression(ps).value.rSquared == 1.0
    ensures a == 0.0 ==> LinearRegression(ps).value.rSquared == 0.0
  {
    CollinearSlope(ps, a, b);
    CollinearIntercept(ps, a, b);
    CollinearRSquared(ps, a, b);
  }

  lemma CollinearSlope(ps: seq<Point>, a: real, b: real)
    requires |ps| >= 2 && Denominator(ps) != 0.0
    requires OnLine(ps, a, b)
    ensures Slope(ps) == a
  {
    CollinearSumY(ps, a, b);
    CollinearSumXY(ps, a, b);
    SlopeRecovered(|ps| as real, SumX(ps), SumY(ps), SumXY(ps), SumXX(ps), Denominator(ps), a, b);
  }

  lemma CollinearIntercept(ps: seq<Point>, a: real, b: real)
    requires |ps| >= 2
    requires OnLine(ps, a, b)
    ensures Intercept(ps, a) == b
  {
    CollinearSumY(ps, a, b);
    InterceptRecovered(|ps| as real, SumX(ps), SumY(ps), a, b);
  }

  lemma CollinearRSquared(ps: seq<Point>, a: real, b: real)
    requires |ps| >= 2 && Denominator(ps) != 0.0
    requires OnLine(ps, a, b)
    ensures a != 0.0 ==> RSquared(ps, a, b) == 1.0
    ensures a == 0.0 ==> RSquared(ps, a, b) == 0.0
  {
    var meanY := SumY(ps) / |ps| as real;
    CollinearSumY(ps, a, b);
    InterceptRecovered(|ps| as real, SumX(ps), SumY(ps), a, b);
    ZeroTotalSumSquares(ps, meanY);
    if a != 0.0 {
      FlatTotalImpliesEqualX(ps, a, b, meanY);
      CollinearResiduals(ps, a, b);
      PerfectFit(TotalSumSquares(ps, meanY), ResidualSumSquares(ps, a, b));
    } else {
      assert meanY == b;
      assert forall i :: 0 <= i < |ps| ==> ps[i].y == meanY;
    }
  }

  lemma PerfectFit(tss: real, rss: real)
    requires tss != 0.0 && rss == 0.0
    ensures 1.0 - rss / tss == 1.0
  {
  }

  /** On a line that is not flat, y values all equal to `meanY` would force every x to be equal. */
  lemma FlatTotalImpliesEqualX(ps: seq<Point>, a: real, b: real, meanY: real)
    requires |ps| >= 2 && Denominator(ps) != 0.0
    requires OnLine(ps, a, b) && a != 0.0
    ensures exists i :: 0 <= i < |ps| && ps[i].y != meanY
  {
    if forall i :: 0 <= i < |ps| ==> ps[i].y == meanY {
      var c := (meanY - b) / a;
      forall i | 0 <= i < |ps| ensures ps[i].x == c {
        assert a * ps[i].x + b == meanY;
      }
      EqualXZeroDenominator(ps, c);
    }
  }

  /** The three points (1,2), (2,4), (3,6) give slope 2, intercept 0 and R² = 1. */
  lemma DoublingScenario()
    ensures LinearRegression([Point(1.0, 2.0), Point(2.0, 4.0), Point(3.0, 6.0)])
         == Some(Fit(2.0, 0.0, 1.0))
  {
    var ps := [Point(1.0, 2.0), Point(2.0, 4.0), Point(3.0, 6.0)];
    assert Xs(ps) == [1.0, 2.0, 3.0];
    assert SquaresX(ps) == [1.0, 4.0, 9.0];
    assert Xs(ps)[1..] == [2.0, 3.0] && Xs(ps)[1..][1..] == [3.0];
    assert SquaresX(ps)[1..] == [4.0, 9.0] && SquaresX(ps)[1..][1..] == [9.0];
    assert SumX(ps) == 6.0 && SumXX(ps) == 14.0;
    assert Denominator(ps) == 6.0;
    CollinearFit(ps, 2.0, 0.0);
  }
}
