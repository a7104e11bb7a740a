/** `calculateRegression(points)`: the least-squares line through the scatter
    points, drawn between the smallest and largest x, and Pearson's r printed
    with three decimals. The dashboard divides by n·Σx² - (Σx)² without a
    guard; here that division by zero is the error result. */
module Regression {
  import opened Points
  import opened Extrema
  import opened Fixed

  /** One endpoint of the drawn regression line. */
  datatype LinePoint = LinePoint(x: real, y: real)

  /** What the routine hands to the chart: two endpoints and r as text. */
  datatype RegressionResult = RegressionResult(regressionPoints: seq<LinePoint>, r: string)

  /** Fewer than two points, or two or more points that all share one x. */
  datatype Error = InsufficientData | DegenerateX

  datatype Result<T> = Success(value: T) | Failure(error: Error)

  function N(ps: seq<Point>): real { |ps| as real }

  /** n·Σxy - Σx·Σy */
  function SlopeNumerator(ps: seq<Point>): real
  {
    N(ps) * SumXY(ps) - SumX(ps) * SumY(ps)
  }

  /** n·Σx² - Σx·Σx, the divisor the dashboard never checks. */
  function SlopeDenominator(ps: seq<Point>): real
  {
    N(ps) * SumX2(ps) - SumX(ps) * SumX(ps)
  }

  function Slope(ps: seq<Point>): real
    requires SlopeDenominator(ps) != 0.0
  {
    SlopeNumerator(ps) / SlopeDenominator(ps)
  }

  function Intercept(ps: seq<Point>): real
    requires SlopeDenominator(ps) != 0.0
  {
    assert ps != [];
    (SumY(ps) - Slope(ps) * SumX(ps)) / N(ps)
  }

  function MeanX(ps: seq<Point>): real
    requires |ps| > 0
  {
    SumX(ps) / N(ps)
  }

  function MeanY(ps: seq<Point>): real
    requires |ps| > 0
  {
    SumY(ps) / N(ps)
  }

  /** Σ (x - meanX)(y - meanY) */
  function PearsonNumerator(ps: seq<Point>): real
    requires |ps| > 0
  {
    CoDeviation(ps, MeanX(ps), MeanY(ps))
  }

  /** Σ (x - meanX)², the square of denomX */
  function VarianceSumX(ps: seq<Point>): real
    requires |ps| > 0
  {
    SqDeviationX(ps, MeanX(ps))
  }

  /** Σ (y - meanY)², the square of denomY */
  function VarianceSumY(ps: seq<Point>): real
    requires |ps| > 0
  {
    SqDeviationY(ps, MeanY(ps))
  }

  /** `(num / (Math.sqrt(vx) * Math.sqrt(vy))).toFixed(3)`: the square root
      of a negative number and 0/0 are NaN, a non-zero number over 0 is an
      infinity, and otherwise the text of r rounded to thousandths. */
  function FormatR(num: real, vx: real, vy: real): string
  {
    if vx < 0.0 || vy < 0.0 then "NaN"
    else if vx == 0.0 || vy == 0.0 then
      (if num == 0.0 then "NaN" else if num > 0.0 then "Infinity" else "-Infinity")
    else ToFixed3(num < 0.0, MilliOfRoot(Squared(num), vx * vy))
  }

  /** The slope and intercept formulas unfolded, for the lemmas that rewrite them. */
  lemma FitFormulas(ps: seq<Point>)
    requires SlopeDenominator(ps) != 0.0
    ensures |ps| > 0
    ensures SlopeNumerator(ps) == N(ps) * SumXY(ps) - SumX(ps) * SumY(ps)
    ensures SlopeDenominator(ps) == N(ps) * SumX2(ps) - SumX(ps) * SumX(ps)
    ensures Slope(ps) == SlopeNumerator(ps) / SlopeDenominator(ps)
    ensures Intercept(ps) == (SumY(ps) - Slope(ps) * SumX(ps)) / N(ps)
  {
  }

  /** The point of the fitted line `slope·x + intercept` above x. */
  function LineAt(ps: seq<Point>, x: real): LinePoint
    requires SlopeDenominator(ps) != 0.0
  {
    LinePoint(x, Slope(ps) * x + Intercept(ps))
  }

  /** The two endpoints of the drawn line, at the smallest and the largest x. */
  function RegressionPoints(ps: seq<Point>): seq<LinePoint>
    requires SlopeDenominator(ps) != 0.0
  {
    assert ps != [];
    [LineAt(ps, MinX(ps)), LineAt(ps, MaxX(ps))]
  }

  /** r, printed with three decimals. */
  function CorrelationText(ps: seq<Point>): string
    requires |ps| > 0
  {
    FormatR(PearsonNumerator(ps), VarianceSumX(ps), VarianceSumY(ps))
  }

  /** The regression routine of the scatter view. */
  function CalculateRegression(ps: seq<Point>): Result<RegressionResult>
  {
    if |ps| < 2 then Failure(InsufficientData)
    else if SlopeDenominator(ps) == 0.0 then Failure(DegenerateX)
    else Success(RegressionResult(RegressionPoints(ps), CorrelationText(ps)))
  }

  // ---------------------------------------------------------------------
  // The sums, expanded

  lemma CoDeviationExpand(ps: seq<Point>, mx: real, my: real)
    ensures CoDeviation(ps, mx, my) == Combination(1.0, SumXY(ps), -my, SumX(ps), -mx, SumY(ps), mx * my, N(ps))
  {
    var w := (p: Point) => Dev(p.x, mx) * Dev(p.y, my);
    var f, g, h := (p: Point) => p.x * p.y, (p: Point) => p.x, (p: Point) => p.y;
    forall i | 0 <= i < |ps| ensures w(ps[i]) == Combination(1.0, f(ps[i]), -my, g(ps[i]), -mx, h(ps[i]), mx * my, 1.0) {
      DevProduct(ps[i].x, mx, ps[i].y, my);
    }
    SumAffine(ps, w, f, g, h, 1.0, -my, -mx, mx * my);
  }

  lemma SqDeviationXExpand(ps: seq<Point>, m: real)
    ensures SqDeviationX(ps, m) == Combination(1.0, SumX2(ps), -2.0 * m, SumX(ps), 0.0, SumX(ps), m * m, N(ps))
  {
    var w := (p: Point) => Squared(Dev(p.x, m));
    var f, g := (p: Point) => p.x * p.x, (p: Point) => p.x;
    forall i | 0 <= i < |ps| ensures w(ps[i]) == Combination(1.0, f(ps[i]), -2.0 * m, g(ps[i]), 0.0, g(ps[i]), m * m, 1.0) {
      DevSquaredExpand(ps[i].x, m);
    }
    SumAffine(ps, w, f, g, g, 1.0, -2.0 * m, 0.0, m * m);
  }

  lemma SqDeviationYExpand(ps: seq<Point>, m: real)
    ensures SqDeviationY(ps, m) == Combination(1.0, SumY2(ps), -2.0 * m, SumY(ps), 0.0, SumY(ps), m * m, N(ps))
  {
    var w := (p: Point) => Squared(Dev(p.y, m));
    var f, g := (p: Point) => p.y * p.y, (p: Point) => p.y;
    forall i | 0 <= i < |ps| ensures w(ps[i]) == Combination(1.0, f(ps[i]), -2.0 * m, g(ps[i]), 0.0, g(ps[i]), m * m, 1.0) {
      DevSquaredExpand(ps[i].y, m);
    }
    SumAffine(ps, w, f, g, g, 1.0, -2.0 * m, 0.0, m * m);
  }

  // ---------------------------------------------------------------------
  // The slope's divisor

  /** Adding a point e adds Σ (x - e.x)² over the earlier points. */
  lemma SlopeDenominatorStep(ps: seq<Point>)
    requires |ps| > 0
    ensures var rest := ps[..|ps| - 1];
      SlopeDenominator(ps) == SlopeDenominator(rest) + SqDeviationX(rest, ps[|ps| - 1].x)
  {
    var rest := ps[..|ps| - 1];
    var c := ps[|ps| - 1].x;
    SqDeviationXExpand(rest, c);
    var n, s, q := N(rest), SumX(rest), SumX2(rest);
    assert N(ps) == n + 1.0;
    assert SumX(ps) == s + c;
    assert SumX2(ps) == q + c * c;
    calc {
      SlopeDenominator(ps);
      (n + 1.0) * (q + c * c) - (s + c) * (s + c);
      (n * q - s * s) + (q - 2.0 * c * s + c * c * n);
    }
  }

  /** n·Σx² - (Σx)² is never negative and is zero exactly when all x are
      equal, which includes fewer than two points. */
  lemma {:induction false} SlopeDenominatorSpread(ps: seq<Point>)
    ensures 0.0 <= SlopeDenominator(ps)
    ensures SlopeDenominator(ps) == 0.0 <==> AllXEqual(ps)
    decreases |ps|
  {
    if ps == [] {
      assert SlopeDenominator(ps) == 0.0;
    } else {
      var rest := ps[..|ps| - 1];
      var c := ps[|ps| - 1].x;
      SlopeDenominatorSpread(rest);
      SlopeDenominatorStep(ps);
      SqDeviationXNonnegative(rest, c);
      assert forall i :: 0 <= i < |rest| ==> rest[i] == ps[i];
      if AllXEqual(ps) {
        assert AllXEqual(rest);
      }
      if SlopeDenominator(ps) == 0.0 {
        forall i, j | 0 <= i < |ps| && 0 <= j < |ps| ensures ps[i].x == ps[j].x {
          assert ps[i].x == c && ps[j].x == c;
        }
      }
    }
  }

  /** n·Σ(x - meanX)² is the slope's divisor. */
  lemma VarianceSumXScaled(ps: seq<Point>)
    requires |ps| > 0
    ensures N(ps) * VarianceSumX(ps) == SlopeDenominator(ps)
  {
    var n, s := N(ps), SumX(ps);
    var m := MeanX(ps);
    SqDeviationXExpand(ps, m);
    assert m * n == s;
    calc {
      n * VarianceSumX(ps);
      n * (SumX2(ps) - 2.0 * m * s + m * m * n);
      n * SumX2(ps) - 2.0 * (m * n) * s + (m * n) * (m * n);
      SlopeDenominator(ps);
    }
  }

  /** n·Σ(x - meanX)(y - meanY) is the slope's numerator. */
  lemma PearsonNumeratorScaled(ps: seq<Point>)
    requires |ps| > 0
    ensures N(ps) * PearsonNumerator(ps) == SlopeNumerator(ps)
  {
    var n, sx, sy := N(ps), SumX(ps), SumY(ps);
    var mx, my := MeanX(ps), MeanY(ps);
    CoDeviationExpand(ps, mx, my);
    assert mx * n == sx && my * n == sy;
    calc {
      n * PearsonNumerator(ps);
      n * (SumXY(ps) - my * sx - mx * sy + mx * my * n);
      n * SumXY(ps) - (my * n) * sx - (mx * n) * sy + (mx * n) * (my * n);
      SlopeNumerator(ps);
    }
  }
}
