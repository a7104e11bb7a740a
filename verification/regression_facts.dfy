/** What the regression routine's results mean: when it fails, the fitted
    line is the least-squares line and passes through the means, the printed
    r has the sign of the slope and never exceeds one in magnitude, a line
    that fits the data exactly is recovered, and neither the labels nor the
    order of the points matter. */
module RegressionFacts {
  import opened Points
  import opened Extrema
  import opened Fixed
  import opened Regression

  // ---------------------------------------------------------------------
  // Arithmetic over reals

  lemma DivMul(x: real, d: real)
    requires d != 0.0
    ensures (x / d) * d == x
  {
  }

  lemma Cancel(x: real, y: real, n: real)
    requires n != 0.0 && x * n == y * n
    ensures x == y
  {
  }

  /** A positive factor keeps the sign of the other. */
  lemma ScaledSign(n: real, p: real, v: real)
    requires 0.0 < n && n * p == v
    ensures 0.0 < p <==> 0.0 < v
    ensures p < 0.0 <==> v < 0.0
  {
    if 0.0 < p {
      ProductPositive(n, p);
    } else if p < 0.0 {
      var q := -p;
      ProductPositive(n, q);
      assert v == -(n * q);
    }
  }

  // ---------------------------------------------------------------------
  // When the routine fails

  /** Fewer than two points is one error; two or more points sharing one x,
      which is exactly when n·Σx² - (Σx)² is zero, is the other. */
  lemma FailureCases(ps: seq<Point>)
    ensures CalculateRegression(ps) == Failure(InsufficientData) <==> |ps| < 2
    ensures CalculateRegression(ps) == Failure(DegenerateX) <==> 2 <= |ps| && AllXEqual(ps)
    ensures CalculateRegression(ps).Success? <==> 2 <= |ps| && !AllXEqual(ps)
  {
    SlopeDenominatorSpread(ps);
  }

  // ---------------------------------------------------------------------
  // The fitted line

  /** The fitted line passes through (meanX, meanY). */
  lemma LineThroughMeans(ps: seq<Point>)
    requires SlopeDenominator(ps) != 0.0
    ensures |ps| > 0 && Slope(ps) * MeanX(ps) + Intercept(ps) == MeanY(ps)
  {
    MeansArith(Slope(ps), SumX(ps), SumY(ps), N(ps));
  }

  /** s·(sx/n) + (sy - s·sx)/n = sy/n */
  lemma MeansArith(s: real, sx: real, sy: real, n: real)
    requires n != 0.0
    ensures s * (sx / n) + (sy - s * sx) / n == sy / n
  {
    var mx, b, my := sx / n, (sy - s * sx) / n, sy / n;
    DivMul(sx, n);
    DivMul(sy - s * sx, n);
    DivMul(sy, n);
    assert (s * mx + b) * n == my * n;
    Cancel(s * mx + b, my, n);
  }

  /** The height of the line y = slope·x + intercept above x. */
  function LineValue(x: real, slope: real, intercept: real): real
  {
    slope * x + intercept
  }

  /** How far a point lies above the line y = slope·x + intercept. */
  function Residual(p: Point, slope: real, intercept: real): real
  {
    p.y - (slope * p.x + intercept)
  }

  /** The normal equations of least squares: the residuals of the fitted line
      sum to zero, and so does their sum weighted by x. */
  lemma NormalEquations(ps: seq<Point>)
    requires SlopeDenominator(ps) != 0.0
    ensures var s, b := Slope(ps), Intercept(ps);
      Sum(ps, (p: Point) => Residual(p, s, b)) == 0.0
      && Sum(ps, (p: Point) => p.x * Residual(p, s, b)) == 0.0
  {
    FitFormulas(ps);
    NormalArith(N(ps), SumX(ps), SumY(ps), SumXY(ps), SumX2(ps),
      SlopeNumerator(ps), SlopeDenominator(ps), Slope(ps), Intercept(ps));
    ResidualSum(ps, Slope(ps), Intercept(ps));
    ResidualMomentSum(ps, Slope(ps), Intercept(ps));
  }

  /** The fitted line is the least-squares line: no line y = s·x + b has a
      smaller sum of squared residuals. */
  lemma LeastSquares(ps: seq<Point>, s: real, b: real)
    requires SlopeDenominator(ps) != 0.0
    ensures Sum(ps, (p: Point) => Squared(Residual(p, Slope(ps), Intercept(ps))))
         <= Sum(ps, (p: Point) => Squared(Residual(p, s, b)))
  {
    NormalEquations(ps);
    NormalLineIsLeast(ps, Slope(ps), Intercept(ps), s, b);
  }

  /** A line (fs, fb) whose residuals satisfy both normal equations has the
      least sum of squared residuals: moving to another line (s, b) adds the
      squares of the vertical gaps between the two lines, and the cross terms
      are multiples of the two vanishing sums. */
  lemma NormalLineIsLeast(ps: seq<Point>, fs: real, fb: real, s: real, b: real)
    requires Sum(ps, (p: Point) => Residual(p, fs, fb)) == 0.0
    requires Sum(ps, (p: Point) => p.x * Residual(p, fs, fb)) == 0.0
    ensures Sum(ps, (p: Point) => Squared(Residual(p, fs, fb))) <= Sum(ps, (p: Point) => Squared(Residual(p, s, b)))
  {
    var u, v := fs - s, fb - b;
    ShiftSum(ps, fs, fb, s, b, u, v);
    VanishingTerms(2.0 * u, Sum(ps, (p: Point) => p.x * Residual(p, fs, fb)),
                   2.0 * v, Sum(ps, (p: Point) => Residual(p, fs, fb)),
                   Sum(ps, (p: Point) => Squared(Residual(p, fs, fb)) + Squared(LineValue(p.x, u, v))), |ps| as real);
    GapSum(ps, fs, fb, u, v);
  }

  /** Σ (residual from (s, b))² = 2u·Σx·e + 2v·Σe + Σ(e² + (u·x + v)²), with e
      the residual from (fs, fb), u = fs - s and v = fb - b. */
  lemma ShiftSum(ps: seq<Point>, fs: real, fb: real, s: real, b: real, u: real, v: real)
    requires u == fs - s && v == fb - b
    ensures Sum(ps, (p: Point) => Squared(Residual(p, s, b)))
      == Combination(2.0 * u, Sum(ps, (p: Point) => p.x * Residual(p, fs, fb)),
                     2.0 * v, Sum(ps, (p: Point) => Residual(p, fs, fb)),
                     1.0, Sum(ps, (p: Point) => Squared(Residual(p, fs, fb)) + Squared(LineValue(p.x, u, v))),
                     0.0, |ps| as real)
  {
    var res := (p: Point) => Residual(p, fs, fb);
    var xres := (p: Point) => p.x * Residual(p, fs, fb);
    var other := (p: Point) => Squared(Residual(p, s, b));
    var both := (p: Point) => Squared(Residual(p, fs, fb)) + Squared(LineValue(p.x, u, v));
    forall i | 0 <= i < |ps|
      ensures other(ps[i]) == Combination(2.0 * u, xres(ps[i]), 2.0 * v, res(ps[i]), 1.0, both(ps[i]), 0.0, 1.0)
    {
      ShiftAt(ps[i], fs, fb, s, b, u, v, other, xres, res, both);
    }
    SumAffine(ps, other, xres, res, both, 2.0 * u, 2.0 * v, 1.0, 0.0);
  }

  /** ResidualShift at one point, for the term functions ShiftSum sums. */
  lemma ShiftAt(p: Point, fs: real, fb: real, s: real, b: real, u: real, v: real,
                other: Point -> real, xres: Point -> real, res: Point -> real, both: Point -> real)
    requires u == fs - s && v == fb - b
    requires other == ((q: Point) => Squared(Residual(q, s, b)))
    requires xres == ((q: Point) => q.x * Residual(q, fs, fb))
    requires res == ((q: Point) => Residual(q, fs, fb))
    requires both == ((q: Point) => Squared(Residual(q, fs, fb)) + Squared(LineValue(q.x, u, v)))
    ensures other(p) == Combination(2.0 * u, xres(p), 2.0 * v, res(p), 1.0, both(p), 0.0, 1.0)
  {
    ResidualShift(p, fs, fb, s, b, u, v, other(p), xres(p), res(p), both(p));
  }

  /** Σ(e² + (u·x + v)²) is at least Σe². */
  lemma GapSum(ps: seq<Point>, fs: real, fb: real, u: real, v: real)
    ensures Sum(ps, (p: Point) => Squared(Residual(p, fs, fb)))
         <= Sum(ps, (p: Point) => Squared(Residual(p, fs, fb)) + Squared(LineValue(p.x, u, v)))
  {
    var fit := (p: Point) => Squared(Residual(p, fs, fb));
    var gap := (p: Point) => Squared(LineValue(p.x, u, v));
    var both := (p: Point) => Squared(Residual(p, fs, fb)) + Squared(LineValue(p.x, u, v));
    forall i | 0 <= i < |ps|
      ensures both(ps[i]) == Combination(1.0, fit(ps[i]), 1.0, gap(ps[i]), 0.0, gap(ps[i]), 0.0, 1.0)
    {
    }
    SumAffine(ps, both, fit, gap, gap, 1.0, 1.0, 0.0, 0.0);
    forall i | 0 <= i < |ps| ensures 0.0 <= gap(ps[i]) {
      SquaredSign(LineValue(ps[i].x, u, v));
    }
    SumNonnegative(ps, gap);
  }

  /** Terms multiplying a vanishing sum drop out of a combination. */
  lemma VanishingTerms(a: real, x: real, c: real, r: real, t: real, n: real)
    requires x == 0.0 && r == 0.0
    ensures Combination(a, x, c, r, 1.0, t, 0.0, n) == t
  {
  }

  /** The squared residual q of p from line (s, b), written through the
      residual e from line (fs, fb) and the gap t = u·x + v between the two
      lines, where u = fs - s and v = fb - b: (e + t)² = 2u·x·e + 2v·e + e² + t². */
  lemma ResidualShift(p: Point, fs: real, fb: real, s: real, b: real, u: real, v: real,
                      q: real, xe: real, e: real, w: real)
    requires u == fs - s && v == fb - b
    requires q == Squared(Residual(p, s, b))
    requires xe == p.x * Residual(p, fs, fb) && e == Residual(p, fs, fb)
    requires w == Squared(Residual(p, fs, fb)) + Squared(LineValue(p.x, u, v))
    ensures q == Combination(2.0 * u, xe, 2.0 * v, e, 1.0, w, 0.0, 1.0)
  {
    var t := LineValue(p.x, u, v);
    assert Residual(p, s, b) == e + t;
    assert Squared(e + t) == Squared(e) + 2.0 * (e * t) + Squared(t);
    assert e * t == u * (p.x * e) + v * e;
  }

  /** The residuals of any line sum to Σy - s·Σx - b·n. */
  lemma ResidualSum(ps: seq<Point>, s: real, b: real)
    ensures Sum(ps, (p: Point) => Residual(p, s, b))
      == Combination(1.0, SumY(ps), -s, SumX(ps), 0.0, SumX(ps), -b, N(ps))
  {
    var x, y := (p: Point) => p.x, (p: Point) => p.y;
    var res := (p: Point) => Residual(p, s, b);
    forall i | 0 <= i < |ps| ensures res(ps[i]) == Combination(1.0, y(ps[i]), -s, x(ps[i]), 0.0, x(ps[i]), -b, 1.0) {
      ResidualLinear(ps[i].x, ps[i].y, s, b);
    }
    SumAffine(ps, res, y, x, x, 1.0, -s, 0.0, -b);
  }

  /** The residuals of any line, weighted by x, sum to Σxy - s·Σx² - b·Σx. */
  lemma ResidualMomentSum(ps: seq<Point>, s: real, b: real)
    ensures Sum(ps, (p: Point) => p.x * Residual(p, s, b))
      == Combination(1.0, SumXY(ps), -s, SumX2(ps), -b, SumX(ps), 0.0, N(ps))
  {
    var x, xy, xx := (p: Point) => p.x, (p: Point) => p.x * p.y, (p: Point) => p.x * p.x;
    var xres := (p: Point) => p.x * Residual(p, s, b);
    forall i | 0 <= i < |ps| ensures xres(ps[i]) == Combination(1.0, xy(ps[i]), -s, xx(ps[i]), -b, x(ps[i]), 0.0, 1.0) {
      ResidualMoment(ps[i].x, ps[i].y, s, b);
    }
    SumAffine(ps, xres, xy, xx, x, 1.0, -s, -b, 0.0);
  }

  lemma ResidualLinear(x: real, y: real, s: real, b: real)
    ensures y - (s * x + b) == Combination(1.0, y, -s, x, 0.0, x, -b, 1.0)
  {
  }

  lemma ResidualMoment(x: real, y: real, s: real, b: real)
    ensures x * (y - (s * x + b)) == Combination(1.0, x * y, -s, x * x, -b, x, 0.0, 1.0)
  {
  }

  /** For the slope and intercept the routine computes from n and the sums,
      both residual sums vanish. */
  lemma NormalArith(n: real, sx: real, sy: real, sxy: real, sx2: real, num: real, den: real, s: real, b: real)
    requires n != 0.0 && den != 0.0
    requires num == n * sxy - sx * sy && den == n * sx2 - sx * sx
    requires s == num / den && b == (sy - s * sx) / n
    ensures Combination(1.0, sy, -s, sx, 0.0, sx, -b, n) == 0.0
    ensures Combination(1.0, sxy, -s, sx2, -b, sx, 0.0, n) == 0.0
  {
    DivMul(num, den);
    DivMul(sy - s * sx, n);
    var m := sxy - s * sx2 - b * sx;
    assert m * n == 0.0 * n;
    Cancel(m, 0.0, n);
  }

  /** q lies on the line of the fitted slope through (meanX, meanY). */
  predicate OnFittedLine(ps: seq<Point>, q: LinePoint)
    requires SlopeDenominator(ps) != 0.0
  {
    assert ps != [];
    q.y - MeanY(ps) == Slope(ps) * (q.x - MeanX(ps))
  }

  /** The drawn segment: two points at the smallest and the largest x, which
      differ, every sample's x lies between them, and both lie on the line of
      the fitted slope through (meanX, meanY). */
  lemma RegressionPointsShape(ps: seq<Point>)
    requires SlopeDenominator(ps) != 0.0
    ensures |ps| > 0 && |RegressionPoints(ps)| == 2
    ensures var rp := RegressionPoints(ps);
      rp[0].x == MinX(ps) < MaxX(ps) == rp[1].x
      && (forall i :: 0 <= i < |ps| ==> rp[0].x <= ps[i].x <= rp[1].x)
      && OnFittedLine(ps, rp[0]) && OnFittedLine(ps, rp[1])
  {
    EndpointOnLine(ps, MinX(ps));
    EndpointOnLine(ps, MaxX(ps));
    SlopeDenominatorSpread(ps);
    RangeDegenerate(ps);
  }

  /** Every point of the fitted line is on the line through the means. */
  lemma EndpointOnLine(ps: seq<Point>, x: real)
    requires SlopeDenominator(ps) != 0.0
    ensures OnFittedLine(ps, LineAt(ps, x))
  {
    LineThroughMeans(ps);
    assert Slope(ps) * (x - MeanX(ps)) == Slope(ps) * x - Slope(ps) * MeanX(ps);
  }

  // ---------------------------------------------------------------------
  // The correlation coefficient

  /** Pearson's numerator has the sign of the slope. */
  lemma SlopeSign(ps: seq<Point>)
    requires SlopeDenominator(ps) != 0.0
    ensures |ps| > 0
    ensures 0.0 < Slope(ps) <==> 0.0 < PearsonNumerator(ps)
    ensures Slope(ps) < 0.0 <==> PearsonNumerator(ps) < 0.0
  {
    SlopeDenominatorSpread(ps);
    var d, num := SlopeDenominator(ps), SlopeNumerator(ps);
    DivMul(num, d);
    ScaledSign(d, Slope(ps), num);
    PearsonNumeratorScaled(ps);
    ScaledSign(N(ps), PearsonNumerator(ps), num);
  }

  /** Cauchy–Schwarz at the means: num² <= Σ(x - meanX)²·Σ(y - meanY)², so
      |r| <= 1; when either spread is zero so is the numerator. */
  lemma CorrelationBounded(ps: seq<Point>)
    requires |ps| > 0
    ensures 0.0 <= VarianceSumX(ps) && 0.0 <= VarianceSumY(ps)
    ensures Squared(PearsonNumerator(ps)) <= VarianceSumX(ps) * VarianceSumY(ps)
    ensures VarianceSumX(ps) == 0.0 || VarianceSumY(ps) == 0.0 ==> PearsonNumerator(ps) == 0.0
  {
    var mx, my := MeanX(ps), MeanY(ps);
    CauchySchwarz(ps, mx, my);
    SqDeviationXNonnegative(ps, mx);
    SqDeviationYNonnegative(ps, my);
    var vx, vy, num := VarianceSumX(ps), VarianceSumY(ps), PearsonNumerator(ps);
    if vx == 0.0 || vy == 0.0 {
      ZeroFactor(vx, vy);
      SquaredSign(num);
    }
  }

  lemma ZeroFactor(u: real, v: real)
    requires u == 0.0 || v == 0.0
    ensures u * v == 0.0
  {
  }

  /** How r is printed when both spreads are positive: a fixed-point text,
      never "NaN", with a minus sign exactly when the numerator is negative. */
  lemma FormatRShape(t: string, num: real, vx: real, vy: real)
    requires t == FormatR(num, vx, vy) && 0.0 < vx && 0.0 < vy
    ensures t != "NaN" && IsFixed3(t) && (t[0] == '-' <==> num < 0.0)
  {
    FormatRPositive(num, vx, vy);
    FixedMagnitude(num < 0.0, MilliOfRoot(Squared(num), vx * vy));
  }

  /** ... and when the numerator obeys Cauchy–Schwarz (num² <= d = vx·vy),
      the text read back is |r| = |num| / sqrt(d) rounded to thousandths. */
  lemma FormatRRounded(t: string, num: real, vx: real, vy: real, d: real)
    requires t == FormatR(num, vx, vy)
    requires 0.0 < vx && 0.0 < vy && d == vx * vy && Squared(num) <= d
    ensures IsFixed3(t) && NearestMilli(Abs(ParseFixed3(t)), Squared(num), d)
  {
    ProductPositive(vx, vy);
    SquaredSign(num);
    MilliOfRootNearest(Squared(num), d);
    FormatRPositive(num, vx, vy);
    FixedMagnitude(num < 0.0, MilliOfRoot(Squared(num), d));
  }

  lemma FormatRPositive(num: real, vx: real, vy: real)
    requires 0.0 < vx && 0.0 < vy
    ensures FormatR(num, vx, vy) == ToFixed3(num < 0.0, MilliOfRoot(Squared(num), vx * vy))
  {
  }

  /** The routine prints "NaN" for r exactly when every y is the same. */
  lemma CorrelationNaN(ps: seq<Point>)
    requires SlopeDenominator(ps) != 0.0
    ensures |ps| > 0
    ensures CorrelationText(ps) == "NaN" <==> forall i :: 0 <= i < |ps| ==> ps[i].y == MeanY(ps)
  {
    SpreadXPositive(ps);
    FlatY(ps);
    if VarianceSumY(ps) == 0.0 {
      CorrelationFlat(ps);
    } else {
      CorrelationShape(ps);
    }
  }

  /** Otherwise r is printed with three decimals and a minus sign exactly
      when the fitted slope is negative. */
  lemma CorrelationSign(ps: seq<Point>)
    requires SlopeDenominator(ps) != 0.0
    ensures |ps| > 0
    ensures CorrelationText(ps) != "NaN" ==>
      IsFixed3(CorrelationText(ps)) && (CorrelationText(ps)[0] == '-' <==> Slope(ps) < 0.0)
  {
    SpreadXPositive(ps);
    if VarianceSumY(ps) == 0.0 {
      CorrelationFlat(ps);
    } else {
      CorrelationShape(ps);
      SlopeSign(ps);
    }
  }

  /** ... and the printed value is r rounded to thousandths: its magnitude
      k satisfies k - 1/2 <= 1000·|r| < k + 1/2, where r² is
      Σ(x - meanX)(y - meanY)² / (Σ(x - meanX)²·Σ(y - meanY)²). */
  lemma CorrelationRounding(ps: seq<Point>)
    requires SlopeDenominator(ps) != 0.0
    ensures |ps| > 0
    ensures CorrelationText(ps) != "NaN" ==>
      IsFixed3(CorrelationText(ps)) &&
      NearestMilli(Abs(ParseFixed3(CorrelationText(ps))), Squared(PearsonNumerator(ps)), VarianceSumX(ps) * VarianceSumY(ps))
  {
    SpreadXPositive(ps);
    if VarianceSumY(ps) == 0.0 {
      CorrelationFlat(ps);
    } else {
      CorrelationMagnitude(ps);
    }
  }

  /** Σ(y - meanY)² is zero exactly when every y equals the mean. */
  lemma FlatY(ps: seq<Point>)
    requires |ps| > 0
    ensures VarianceSumY(ps) == 0.0 <==> forall i :: 0 <= i < |ps| ==> ps[i].y == MeanY(ps)
  {
    SqDeviationYNonnegative(ps, MeanY(ps));
  }

  lemma CorrelationFlat(ps: seq<Point>)
    requires SlopeDenominator(ps) != 0.0 && |ps| > 0 && VarianceSumY(ps) == 0.0
    ensures CorrelationText(ps) == "NaN"
  {
    assert CorrelationText(ps) == FormatR(PearsonNumerator(ps), VarianceSumX(ps), VarianceSumY(ps));
    SpreadXPositive(ps);
    CorrelationBounded(ps);
    FlatCorrelation(PearsonNumerator(ps), VarianceSumX(ps), VarianceSumY(ps));
  }

  lemma CorrelationShape(ps: seq<Point>)
    requires SlopeDenominator(ps) != 0.0 && |ps| > 0 && VarianceSumY(ps) != 0.0
    ensures var t := CorrelationText(ps);
      t != "NaN" && IsFixed3(t) && (t[0] == '-' <==> PearsonNumerator(ps) < 0.0)
  {
    RoundingApplies(ps);
    FormatRShape(CorrelationText(ps), PearsonNumerator(ps), VarianceSumX(ps), VarianceSumY(ps));
  }

  lemma CorrelationMagnitude(ps: seq<Point>)
    requires SlopeDenominator(ps) != 0.0 && |ps| > 0 && VarianceSumY(ps) != 0.0
    ensures var t := CorrelationText(ps);
      IsFixed3(t) && NearestMilli(Abs(ParseFixed3(t)), Squared(PearsonNumerator(ps)), VarianceSumX(ps) * VarianceSumY(ps))
  {
    RoundingApplies(ps);
    SquaredSign(PearsonNumerator(ps));
    assert CorrelationText(ps) == FormatR(PearsonNumerator(ps), VarianceSumX(ps), VarianceSumY(ps));
    assert FormatR(PearsonNumerator(ps), VarianceSumX(ps), VarianceSumY(ps))
      == ToFixed3(PearsonNumerator(ps) < 0.0, MilliOfRoot(Squared(PearsonNumerator(ps)), VarianceSumX(ps) * VarianceSumY(ps)));
    RoundedRatio(ps);
    FixedMagnitude(PearsonNumerator(ps) < 0.0, MilliOfRoot(Squared(PearsonNumerator(ps)), VarianceSumX(ps) * VarianceSumY(ps)));
  }

  /** The search rounds r to thousandths for this data. */
  lemma RoundedRatio(ps: seq<Point>)
    requires |ps| > 0
    requires 0.0 < VarianceSumX(ps) * VarianceSumY(ps)
    requires Squared(PearsonNumerator(ps)) <= VarianceSumX(ps) * VarianceSumY(ps)
    ensures NearestMilli(MilliOfRoot(Squared(PearsonNumerator(ps)), VarianceSumX(ps) * VarianceSumY(ps)),
      Squared(PearsonNumerator(ps)), VarianceSumX(ps) * VarianceSumY(ps))
  {
    SquaredSign(PearsonNumerator(ps));
    MilliOfRootNearest(Squared(PearsonNumerator(ps)), VarianceSumX(ps) * VarianceSumY(ps));
  }

  /** Both spreads positive and the numerator within Cauchy–Schwarz. */
  lemma RoundingApplies(ps: seq<Point>)
    requires SlopeDenominator(ps) != 0.0 && |ps| > 0 && VarianceSumY(ps) != 0.0
    ensures 0.0 < VarianceSumX(ps) && 0.0 < VarianceSumY(ps)
    ensures 0.0 < VarianceSumX(ps) * VarianceSumY(ps)
    ensures Squared(PearsonNumerator(ps)) <= VarianceSumX(ps) * VarianceSumY(ps)
  {
    SpreadXPositive(ps);
    CorrelationBounded(ps);
    ProductPositive(VarianceSumX(ps), VarianceSumY(ps));
  }

  /** When the routine succeeds, Σ(x - meanX)² is positive. */
  lemma SpreadXPositive(ps: seq<Point>)
    requires SlopeDenominator(ps) != 0.0
    ensures |ps| > 0 && 0.0 < VarianceSumX(ps)
  {
    SlopeDenominatorSpread(ps);
    VarianceSumXScaled(ps);
    ScaledSign(N(ps), VarianceSumX(ps), SlopeDenominator(ps));
  }

  // ---------------------------------------------------------------------
  // Data on a line

  /** Every sample lies on y = a·x + b. */
  ghost predicate OnLine(ps: seq<Point>, a: real, b: real)
  {
    forall i :: 0 <= i < |ps| ==> ps[i].y == a * ps[i].x + b
  }

  /** Samples that lie exactly on a line y = a·x + b with at least two
      distinct x: the routine succeeds, recovers a and b, and prints r as
      "1.000", "-1.000", or "NaN" for a horizontal line. */
  lemma CollinearRecovered(ps: seq<Point>, a: real, b: real)
    requires OnLine(ps, a, b) && !AllXEqual(ps)
    ensures CalculateRegression(ps).Success?
    ensures SlopeDenominator(ps) != 0.0 && Slope(ps) == a && Intercept(ps) == b
    ensures CalculateRegression(ps).value.r == if 0.0 < a then "1.000" else if a < 0.0 then "-1.000" else "NaN"
  {
    FailureCases(ps);
    SlopeDenominatorSpread(ps);
    CollinearSlope(ps, a, b);
    CollinearText(ps, a, b);
  }

  lemma CollinearText(ps: seq<Point>, a: real, b: real)
    requires OnLine(ps, a, b) && SlopeDenominator(ps) != 0.0
    ensures |ps| > 0
    ensures CorrelationText(ps) == if 0.0 < a then "1.000" else if a < 0.0 then "-1.000" else "NaN"
  {
    SpreadXPositive(ps);
    CollinearDeviations(ps, a, b);
    UnitCorrelation(a, PearsonNumerator(ps), VarianceSumX(ps), VarianceSumY(ps));
  }

  lemma CollinearSumY(ps: seq<Point>, a: real, b: real)
    requires OnLine(ps, a, b)
    ensures SumY(ps) == Combination(a, SumX(ps), 0.0, SumX(ps), 0.0, SumX(ps), b, N(ps))
  {
    var x, y := (p: Point) => p.x, (p: Point) => p.y;
    forall i | 0 <= i < |ps| ensures y(ps[i]) == Combination(a, x(ps[i]), 0.0, x(ps[i]), 0.0, x(ps[i]), b, 1.0) {
      LinearPoint(ps[i].x, ps[i].y, a, b);
    }
    SumAffine(ps, y, x, x, x, a, 0.0, 0.0, b);
  }

  lemma CollinearSumXY(ps: seq<Point>, a: real, b: real)
    requires OnLine(ps, a, b)
    ensures SumXY(ps) == Combination(a, SumX2(ps), b, SumX(ps), 0.0, SumX(ps), 0.0, N(ps))
  {
    var x, xy, xx := (p: Point) => p.x, (p: Point) => p.x * p.y, (p: Point) => p.x * p.x;
    forall i | 0 <= i < |ps| ensures xy(ps[i]) == Combination(a, xx(ps[i]), b, x(ps[i]), 0.0, x(ps[i]), 0.0, 1.0) {
      LinearMoment(ps[i].x, ps[i].y, a, b);
    }
    SumAffine(ps, xy, xx, x, x, a, b, 0.0, 0.0);
  }

  lemma LinearPoint(x: real, y: real, a: real, b: real)
    requires y == a * x + b
    ensures y == Combination(a, x, 0.0, x, 0.0, x, b, 1.0)
  {
  }

  lemma LinearMoment(x: real, y: real, a: real, b: real)
    requires y == a * x + b
    ensures x * y == Combination(a, x * x, b, x, 0.0, x, 0.0, 1.0)
  {
  }

  /** On a line, the slope and intercept computed from the sums are a and b. */
  lemma CollinearSlope(ps: seq<Point>, a: real, b: real)
    requires OnLine(ps, a, b) && SlopeDenominator(ps) != 0.0
    ensures Slope(ps) == a && Intercept(ps) == b
  {
    CollinearSumY(ps, a, b);
    CollinearSumXY(ps, a, b);
    FitFormulas(ps);
    CollinearArith(N(ps), SumX(ps), SumX2(ps), SumY(ps), SumXY(ps),
      SlopeNumerator(ps), SlopeDenominator(ps), Slope(ps), Intercept(ps), a, b);
  }

  lemma CollinearArith(n: real, sx: real, sx2: real, sy: real, sxy: real,
                       num: real, den: real, s: real, c: real, a: real, b: real)
    requires n != 0.0 && den != 0.0
    requires sy == Combination(a, sx, 0.0, sx, 0.0, sx, b, n)
    requires sxy == Combination(a, sx2, b, sx, 0.0, sx, 0.0, n)
    requires num == n * sxy - sx * sy && den == n * sx2 - sx * sx
    requires s == num / den && c == (sy - s * sx) / n
    ensures s == a && c == b
  {
    assert num == a * den;
    DivMul(num, den);
    Cancel(s, a, den);
    DivMul(sy - s * sx, n);
    assert c * n == b * n;
    Cancel(c, b, n);
  }

  /** On a line, every y-deviation is a times the x-deviation, so the
      Pearson numerator is a·Σ(x - meanX)² and the y-spread a²·Σ(x - meanX)². */
  lemma CollinearDeviations(ps: seq<Point>, a: real, b: real)
    requires OnLine(ps, a, b) && |ps| > 0
    ensures PearsonNumerator(ps) == a * VarianceSumX(ps)
    ensures VarianceSumY(ps) == Squared(a) * VarianceSumX(ps)
  {
    CollinearSumY(ps, a, b);
    MeanOfLine(SumX(ps), SumY(ps), N(ps), a, b);
    CollinearCoDeviation(ps, a, b, MeanX(ps), MeanY(ps));
    CollinearSqDeviationY(ps, a, b, MeanX(ps), MeanY(ps));
  }

  lemma CollinearCoDeviation(ps: seq<Point>, a: real, b: real, mx: real, my: real)
    requires OnLine(ps, a, b) && my == a * mx + b
    ensures CoDeviation(ps, mx, my) == a * SqDeviationX(ps, mx)
  {
    var sq := (p: Point) => Squared(Dev(p.x, mx));
    var co := (p: Point) => Dev(p.x, mx) * Dev(p.y, my);
    forall i | 0 <= i < |ps|
      ensures co(ps[i]) == Combination(a, sq(ps[i]), 0.0, sq(ps[i]), 0.0, sq(ps[i]), 0.0, 1.0)
    {
      DevOnLine(ps[i].x, ps[i].y, mx, my, a, b);
      ScaledDeviation(Dev(ps[i].x, mx), Dev(ps[i].y, my), a);
    }
    SumAffine(ps, co, sq, sq, sq, a, 0.0, 0.0, 0.0);
  }

  lemma CollinearSqDeviationY(ps: seq<Point>, a: real, b: real, mx: real, my: real)
    requires OnLine(ps, a, b) && my == a * mx + b
    ensures SqDeviationY(ps, my) == Squared(a) * SqDeviationX(ps, mx)
  {
    var sq := (p: Point) => Squared(Dev(p.x, mx));
    var sqy := (p: Point) => Squared(Dev(p.y, my));
    forall i | 0 <= i < |ps|
      ensures sqy(ps[i]) == Combination(Squared(a), sq(ps[i]), 0.0, sq(ps[i]), 0.0, sq(ps[i]), 0.0, 1.0)
    {
      DevOnLine(ps[i].x, ps[i].y, mx, my, a, b);
      ScaledDeviation(Dev(ps[i].x, mx), Dev(ps[i].y, my), a);
    }
    SumAffine(ps, sqy, sq, sq, sq, Squared(a), 0.0, 0.0, 0.0);
  }

  lemma MeanOfLine(sx: real, sy: real, n: real, a: real, b: real)
    requires n != 0.0 && sy == Combination(a, sx, 0.0, sx, 0.0, sx, b, n)
    ensures sy / n == a * (sx / n) + b
  {
    DivMul(sx, n);
    DivMul(sy, n);
    assert (sy / n) * n == (a * (sx / n) + b) * n;
    Cancel(sy / n, a * (sx / n) + b, n);
  }

  lemma DevOnLine(x: real, y: real, mx: real, my: real, a: real, b: real)
    requires y == a * x + b && my == a * mx + b
    ensures Dev(y, my) == a * Dev(x, mx)
  {
  }

  lemma ScaledDeviation(u: real, v: real, a: real)
    requires v == a * u
    ensures u * v == Combination(a, Squared(u), 0.0, Squared(u), 0.0, Squared(u), 0.0, 1.0)
    ensures Squared(v) == Combination(Squared(a), Squared(u), 0.0, Squared(u), 0.0, Squared(u), 0.0, 1.0)
  {
  }

  /** A perfect linear relation prints as ±1, or "NaN" when flat. */
  lemma UnitCorrelation(a: real, num: real, vx: real, vy: real)
    requires 0.0 < vx && num == a * vx && vy == Squared(a) * vx
    ensures FormatR(num, vx, vy) == if 0.0 < a then "1.000" else if a < 0.0 then "-1.000" else "NaN"
  {
    SquaredSign(a);
    if a == 0.0 {
      ZeroFactor(Squared(a), vx);
      ZeroFactor(a, vx);
      FlatCorrelation(num, vx, vy);
    } else {
      ProductPositive(Squared(a), vx);
      ScaledSign(vx, a, num);
      SquaredProduct(a, vx, num, vy);
      FullCorrelation(num, vx, vy);
    }
  }

  /** No y-spread and no co-deviation: 0/0 prints as "NaN". */
  lemma FlatCorrelation(num: real, vx: real, vy: real)
    requires 0.0 < vx && vy == 0.0 && num == 0.0
    ensures FormatR(num, vx, vy) == "NaN"
  {
  }

  /** num² = Σ(x - meanX)²·Σ(y - meanY)² prints as ±1. */
  lemma FullCorrelation(num: real, vx: real, vy: real)
    requires 0.0 < vx && 0.0 < vy && Squared(num) == vx * vy
    ensures FormatR(num, vx, vy) == if num < 0.0 then "-1.000" else "1.000"
  {
    ProductPositive(vx, vy);
    MilliOfRootWhole(vx * vy);
    UnitText(num < 0.0);
  }

  lemma SquaredProduct(a: real, v: real, num: real, w: real)
    requires num == a * v && w == Squared(a) * v
    ensures Squared(num) == v * w
  {
  }

  // ---------------------------------------------------------------------
  // Worked examples

  /** Three points on y = 2x give the segment from (1, 2) to (3, 6) and
      r = "1.000"; two points sharing x = 5 and a single point fail. */
  lemma ExampleLine()
    ensures CalculateRegression([Point(1.0, 2.0, "a"), Point(2.0, 4.0, "b"), Point(3.0, 6.0, "c")])
      == Success(RegressionResult([LinePoint(1.0, 2.0), LinePoint(3.0, 6.0)], "1.000"))
  {
    var ps := [Point(1.0, 2.0, "a"), Point(2.0, 4.0, "b"), Point(3.0, 6.0, "c")];
    assert ps[0].x != ps[1].x;
    CollinearRecovered(ps, 2.0, 0.0);
    ExampleRange(ps);
    LineAtValue(ps, 1.0);
    LineAtValue(ps, 3.0);
    assert RegressionPoints(ps) == [LinePoint(1.0, 2.0), LinePoint(3.0, 6.0)];
  }

  lemma ExampleRange(ps: seq<Point>)
    requires ps == [Point(1.0, 2.0, "a"), Point(2.0, 4.0, "b"), Point(3.0, 6.0, "c")]
    ensures MinX(ps) == 1.0 && MaxX(ps) == 3.0
  {
    var i :| 0 <= i < |ps| && ps[i].x == MinX(ps);
    var j :| 0 <= j < |ps| && ps[j].x == MaxX(ps);
    assert MinX(ps) <= ps[0].x && ps[2].x <= MaxX(ps);
  }

  lemma ExampleFailures()
    ensures CalculateRegression([Point(5.0, 1.0, "a"), Point(5.0, 2.0, "b")]) == Failure(DegenerateX)
    ensures CalculateRegression([Point(1.0, 1.0, "a")]) == Failure(InsufficientData)
  {
    FailureCases([Point(5.0, 1.0, "a"), Point(5.0, 2.0, "b")]);
  }

  // ---------------------------------------------------------------------
  // What the result depends on

  /** The result is a function of n, Σx, Σy, Σxy, Σx², Σy² and the x-range. */
  lemma DeterminedBySums(ps: seq<Point>, qs: seq<Point>)
    requires |ps| == |qs|
    requires SumX(ps) == SumX(qs) && SumY(ps) == SumY(qs) && SumXY(ps) == SumXY(qs)
    requires SumX2(ps) == SumX2(qs) && SumY2(ps) == SumY2(qs)
    requires |ps| > 0 ==> MinX(ps) == MinX(qs) && MaxX(ps) == MaxX(qs)
    ensures CalculateRegression(ps) == CalculateRegression(qs)
  {
    SameDenominator(ps, qs);
    if 2 <= |ps| && SlopeDenominator(ps) != 0.0 {
      SameFit(ps, qs);
      SameStatistics(ps, qs);
      SameOutput(ps, qs);
    }
  }

  lemma SameDenominator(ps: seq<Point>, qs: seq<Point>)
    requires |ps| == |qs| && SumX(ps) == SumX(qs) && SumX2(ps) == SumX2(qs)
    ensures SlopeDenominator(ps) == SlopeDenominator(qs)
  {
  }

  lemma SameFit(ps: seq<Point>, qs: seq<Point>)
    requires |ps| == |qs| && SlopeDenominator(ps) != 0.0
    requires SumX(ps) == SumX(qs) && SumY(ps) == SumY(qs) && SumXY(ps) == SumXY(qs) && SumX2(ps) == SumX2(qs)
    ensures SlopeDenominator(qs) != 0.0 && Slope(ps) == Slope(qs) && Intercept(ps) == Intercept(qs)
  {
    SameNumerator(ps, qs);
    SameDenominator(ps, qs);
    FitFormulas(ps);
    FitFormulas(qs);
  }

  lemma SameNumerator(ps: seq<Point>, qs: seq<Point>)
    requires |ps| == |qs| && SumX(ps) == SumX(qs) && SumY(ps) == SumY(qs) && SumXY(ps) == SumXY(qs)
    ensures SlopeNumerator(ps) == SlopeNumerator(qs)
  {
  }

  lemma SameOutput(ps: seq<Point>, qs: seq<Point>)
    requires SlopeDenominator(ps) != 0.0 && SlopeDenominator(qs) != 0.0
    requires Slope(ps) == Slope(qs) && Intercept(ps) == Intercept(qs)
    requires |ps| > 0 && |qs| > 0 && MinX(ps) == MinX(qs) && MaxX(ps) == MaxX(qs)
    requires PearsonNumerator(ps) == PearsonNumerator(qs)
    requires VarianceSumX(ps) == VarianceSumX(qs) && VarianceSumY(ps) == VarianceSumY(qs)
    ensures RegressionPoints(ps) == RegressionPoints(qs) && CorrelationText(ps) == CorrelationText(qs)
  {
    SameLineAt(ps, qs, MinX(ps));
    SameLineAt(ps, qs, MaxX(ps));
    assert CorrelationText(ps) == FormatR(PearsonNumerator(ps), VarianceSumX(ps), VarianceSumY(ps));
    assert CorrelationText(qs) == FormatR(PearsonNumerator(qs), VarianceSumX(qs), VarianceSumY(qs));
  }

  lemma SameLineAt(ps: seq<Point>, qs: seq<Point>, x: real)
    requires SlopeDenominator(ps) != 0.0 && SlopeDenominator(qs) != 0.0
    requires Slope(ps) == Slope(qs) && Intercept(ps) == Intercept(qs)
    ensures LineAt(ps, x) == LineAt(qs, x)
  {
    LineAtValue(ps, x);
    LineAtValue(qs, x);
  }

  /** LineAt unfolded, for the lemmas that compare endpoints. */
  lemma LineAtValue(ps: seq<Point>, x: real)
    requires SlopeDenominator(ps) != 0.0
    ensures LineAt(ps, x) == LinePoint(x, Slope(ps) * x + Intercept(ps))
  {
  }

  lemma SameStatistics(ps: seq<Point>, qs: seq<Point>)
    requires |ps| == |qs| > 0
    requires SumX(ps) == SumX(qs) && SumY(ps) == SumY(qs) && SumXY(ps) == SumXY(qs)
    requires SumX2(ps) == SumX2(qs) && SumY2(ps) == SumY2(qs)
    ensures MeanX(ps) == MeanX(qs) && MeanY(ps) == MeanY(qs)
    ensures PearsonNumerator(ps) == PearsonNumerator(qs)
    ensures VarianceSumX(ps) == VarianceSumX(qs) && VarianceSumY(ps) == VarianceSumY(qs)
  {
    var mx, my := MeanX(ps), MeanY(ps);
    assert MeanX(qs) == mx && MeanY(qs) == my;
    CoDeviationExpand(ps, mx, my);
    CoDeviationExpand(qs, mx, my);
    SqDeviationXExpand(ps, mx);
    SqDeviationXExpand(qs, mx);
    SqDeviationYExpand(ps, my);
    SqDeviationYExpand(qs, my);
  }

  /** The labels do not take part: same coordinates, same result. */
  lemma LabelsIgnored(ps: seq<Point>, qs: seq<Point>)
    requires SameCoordinates(ps, qs)
    ensures CalculateRegression(ps) == CalculateRegression(qs)
  {
    SumCongruent(ps, qs, (p: Point) => p.x, (p: Point) => p.x);
    SumCongruent(ps, qs, (p: Point) => p.y, (p: Point) => p.y);
    SumCongruent(ps, qs, (p: Point) => p.x * p.y, (p: Point) => p.x * p.y);
    SumCongruent(ps, qs, (p: Point) => p.x * p.x, (p: Point) => p.x * p.x);
    SumCongruent(ps, qs, (p: Point) => p.y * p.y, (p: Point) => p.y * p.y);
    if |ps| > 0 {
      RangeCongruent(ps, qs);
    }
    DeterminedBySums(ps, qs);
  }

  /** The order of the points does not matter. */
  lemma PermutationInvariant(ps: seq<Point>, qs: seq<Point>)
    requires multiset(ps) == multiset(qs)
    ensures CalculateRegression(ps) == CalculateRegression(qs)
  {
    assert |ps| == |multiset(ps)| == |multiset(qs)| == |qs|;
    SumPermutation(ps, qs, (p: Point) => p.x);
    SumPermutation(ps, qs, (p: Point) => p.y);
    SumPermutation(ps, qs, (p: Point) => p.x * p.y);
    SumPermutation(ps, qs, (p: Point) => p.x * p.x);
    SumPermutation(ps, qs, (p: Point) => p.y * p.y);
    if |ps| > 0 {
      RangePermutation(ps, qs);
    }
    DeterminedBySums(ps, qs);
  }
}
