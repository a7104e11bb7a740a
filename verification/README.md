# Least-squares regression of the scatter view

The dashboard's scatter view plots one indicator against another for every
country, draws a least-squares line through the cloud and shows Pearson's
correlation coefficient. The routine behind this is `calculateRegression(points)`.
It exists twice, with the same body:

- `static/js/correlation.js:93-120`
- `BootProject3/static/js/correlation.js:21-48`, which binds the two endpoints to
  a local before returning them.

One model serves both copies. The routine does the following:

- It takes n, the number of points, and folds the points into Σx, Σy, Σxy and Σx².
- It computes the ordinary-least-squares slope `(n·Σxy - Σx·Σy) / (n·Σx² - (Σx)²)`
  and the intercept `(Σy - slope·Σx) / n`.
- It computes the means, the Pearson numerator Σ(x - meanX)(y - meanY) and the
  two square-rooted spreads.
- It finds the smallest and the largest x.
- It returns the line's two endpoints above those x, together with
  `r.toFixed(3)`.

The model works over exact reals. It is split into these modules:

- `Points` (points.dfy): the sample point and the sums. `Sum(ps, f)` is the
  0-seeded left fold of `reduce`. The point's display label is the field
  `name`, because `label` is a Dafny keyword.
- `Extrema` (extrema.dfy): `Math.min` and `Math.max` over the x coordinates.
- `Fixed` (fixed.dfy): `toFixed(3)` for a value of magnitude at most one. There
  is no square root in Dafny, so r = num / sqrt(Σ(x-mx)²·Σ(y-my)²) is rounded
  to thousandths by comparing squares. `ToFixed3` lays out the text, and
  `ParseFixed3` reads it back.
- `Regression` (regression.dfy): the routine itself, `CalculateRegression`.
- `RegressionFacts` (regression_facts.dfy): what its result means.

The dashboard divides by n·Σx² - (Σx)² and by n without any guard. The model
makes both divisions by zero explicit error results:

- `Failure(InsufficientData)` for fewer than two points;
- `Failure(DegenerateX)` for two or more points that all share one x.

## Model

| member | source | states |
|---|---|---|
| Regression.CalculateRegression | static/js/correlation.js:93-120 | the routine (the copy in BootProject3/static/js/correlation.js:21-48 differs only in binding the endpoints to a local first): an error for fewer than two points or for a single shared x, otherwise the two endpoints and r as text; RegressionFacts.FailureCases, RegressionPointsShape and CorrelationRounding state what the result means |
| Points.Sum | static/js/correlation.js:95-98 | the 0-seeded left fold of `reduce`; Points.SumEmpty, SumPermutation and SumCongruent state its properties |
| Points.SumX | BootProject3/static/js/correlation.js:23 | Σx; its order independence is Points.SumPermutation, as used by RegressionFacts.PermutationInvariant |
| Points.SumY | BootProject3/static/js/correlation.js:24 | Σy; same partner lemmas as Points.SumX |
| Points.SumXY | BootProject3/static/js/correlation.js:25 | Σxy; same partner lemmas as Points.SumX |
| Points.SumX2 | BootProject3/static/js/correlation.js:26 | Σx²; same partner lemmas as Points.SumX |
| Regression.Slope | static/js/correlation.js:100 | (n·Σxy - Σx·Σy) / (n·Σx² - (Σx)²), defined only when the divisor is non-zero; RegressionFacts.NormalEquations, LeastSquares and CollinearRecovered state its meaning |
| Regression.Intercept | static/js/correlation.js:101 | (Σy - slope·Σx) / n; RegressionFacts.LineThroughMeans states that it puts the line through the means |
| Regression.MeanX | static/js/correlation.js:103 | Σx / n; used by RegressionFacts.LineThroughMeans |
| Regression.MeanY | static/js/correlation.js:104 | Σy / n; used by RegressionFacts.LineThroughMeans and CorrelationNaN |
| Regression.PearsonNumerator | static/js/correlation.js:105 | Σ(x - meanX)(y - meanY); Regression.PearsonNumeratorScaled ties it to the slope's numerator and RegressionFacts.SlopeSign to the slope's sign |
| Regression.VarianceSumX | static/js/correlation.js:106 | Σ(x - meanX)², the square of denomX; Regression.VarianceSumXScaled and RegressionFacts.CorrelationBounded state its meaning |
| Regression.VarianceSumY | static/js/correlation.js:107 | Σ(y - meanY)², the square of denomY; RegressionFacts.CorrelationBounded and FlatY state its meaning |
| Regression.FormatR | static/js/correlation.js:108 | num / (sqrt(vx)·sqrt(vy)) printed with three decimals, "NaN" for 0/0; RegressionFacts.FormatRShape and FormatRRounded state its meaning |
| Regression.CorrelationText | static/js/correlation.js:118 | `r.toFixed(3)` for the data; RegressionFacts.CorrelationNaN, CorrelationSign and CorrelationRounding state its meaning |
| Regression.RegressionPoints | static/js/correlation.js:113-117 | the two endpoints at minX and maxX; RegressionFacts.RegressionPointsShape states their shape |
| Regression.LineAt | BootProject3/static/js/correlation.js:42-45 | the point (x, slope·x + intercept); RegressionFacts.EndpointOnLine puts it on the fitted line through the means |
| Fixed.MilliOfRoot | static/js/correlation.js:118 | the thousandths toFixed(3) prints for sqrt(q/d); Fixed.MilliOfRootNearest states that it is the nearest integer, halves up |
| Points.SumEmpty | static/js/correlation.js:95-98 | every sum is 0 on no points, the seed of `reduce` |
| Points.SumPermutation | BootProject3/static/js/correlation.js:22-26 | a sum over the points is the same for any reordering of them (same multiset) |
| Points.SumCongruent | static/js/correlation.js:95-98 | sums whose terms agree point by point are equal, so what a term does not read cannot change a sum |
| Points.SqDeviationXNonnegative | BootProject3/static/js/correlation.js:35 | Σ(x - m)² is at least 0, and above 0 exactly when some x differs from m |
| Points.SqDeviationYNonnegative | BootProject3/static/js/correlation.js:36 | Σ(y - m)² is at least 0, and above 0 exactly when some y differs from m |
| Points.CauchySchwarz | static/js/correlation.js:105-108 | (Σ(x - mx)(y - my))² is at most Σ(x - mx)²·Σ(y - my)², for any centres |
| Extrema.MinX | static/js/correlation.js:110 | minX is at most every x and is the x of some point |
| Extrema.MaxX | BootProject3/static/js/correlation.js:40 | maxX is at least every x and is the x of some point |
| Extrema.RangeDegenerate | static/js/correlation.js:110-111 | minX is at most maxX, and the two are equal exactly when all x are equal |
| Extrema.RangePermutation | BootProject3/static/js/correlation.js:39-40 | minX and maxX do not depend on the order of the points |
| Extrema.RangeCongruent | static/js/correlation.js:110-111 | minX and maxX read only the x coordinates |
| Fixed.ToFixed3 | static/js/correlation.js:118 | the text is an optional minus sign, digits, a point and exactly three digits, with the sign exactly when negative, and the digits before the point are exactly those of n / 1000 (so 866 thousandths prints as "0.866") |
| Fixed.DigitsRoundTrip | static/js/correlation.js:118 | reading the decimal digits of n back gives n |
| Fixed.FixedRoundTrip | static/js/correlation.js:118 | reading the fixed-point text back gives the signed number of thousandths it was made from |
| Fixed.MilliOfRootNearest | static/js/correlation.js:106-118 | for 0 <= q <= d and d > 0, the digits chosen are 1000·sqrt(q/d) rounded to the nearest integer, halves up |
| Fixed.UnitText | BootProject3/static/js/correlation.js:47 | a magnitude of exactly one prints as "1.000" or "-1.000" |
| Regression.SlopeDenominatorSpread | static/js/correlation.js:100 | n·Σx² - (Σx)² is never negative, and it is zero exactly when all x are equal (including fewer than two points) |
| Regression.VarianceSumXScaled | BootProject3/static/js/correlation.js:28-35 | n·Σ(x - meanX)² equals the slope's divisor n·Σx² - (Σx)² |
| Regression.PearsonNumeratorScaled | static/js/correlation.js:100-105 | the Pearson numerator is (n·Σxy - Σx·Σy)/n, the slope's numerator over n |
| RegressionFacts.FailureCases | static/js/correlation.js:94-101 | the routine fails with InsufficientData exactly for fewer than two points, with DegenerateX exactly for two or more points sharing one x, and succeeds otherwise |
| RegressionFacts.LineThroughMeans | static/js/correlation.js:100-104 | the fitted line passes through (meanX, meanY) |
| RegressionFacts.NormalEquations | BootProject3/static/js/correlation.js:28-29 | both normal equations hold: the residuals of the fitted line sum to zero and, weighted by x, also sum to zero |
| RegressionFacts.LeastSquares | static/js/correlation.js:100-101 | the fitted line is the least-squares line: no line y = s·x + b has a smaller sum of squared residuals |
| RegressionFacts.NormalLineIsLeast | BootProject3/static/js/correlation.js:28-29 | any line whose residuals satisfy both normal equations has a sum of squared residuals no larger than that of any other line |
| RegressionFacts.RegressionPointsShape | static/js/correlation.js:110-117 | exactly two endpoints, at minX and then maxX with minX < maxX, every sample's x lies between them, and both lie on the line of the fitted slope through the means |
| RegressionFacts.SlopeSign | static/js/correlation.js:100-108 | the Pearson numerator is positive, or negative, exactly when the slope is |
| RegressionFacts.CorrelationBounded | BootProject3/static/js/correlation.js:34-37 | both spreads are at least 0, num² is at most their product (so the magnitude of r is at most one), and num is 0 when either spread is 0 |
| RegressionFacts.FormatRShape | static/js/correlation.js:106-118 | with both spreads positive the text is a fixed-point number, never "NaN", with a minus sign exactly when the numerator is negative |
| RegressionFacts.FormatRRounded | BootProject3/static/js/correlation.js:35-47 | when num² <= vx·vy as well, the text reads back as the magnitude of num / sqrt(vx·vy) rounded to thousandths |
| RegressionFacts.CorrelationNaN | static/js/correlation.js:105-118 | on success, r prints as "NaN" exactly when every y equals meanY |
| RegressionFacts.CorrelationSign | BootProject3/static/js/correlation.js:34-47 | on success, a printed r other than "NaN" is a three-decimal text whose minus sign appears exactly when the slope is negative |
| RegressionFacts.CorrelationRounding | static/js/correlation.js:105-118 | on success, a printed r other than "NaN" reads back as the magnitude of r rounded to thousandths, halves up |
| RegressionFacts.CollinearRecovered | BootProject3/static/js/correlation.js:28-29 | points on y = a·x + b with two distinct x: the routine succeeds, its slope is a and its intercept b, and r prints as "1.000", "-1.000", or "NaN" for a horizontal line |
| RegressionFacts.ExampleLine | static/js/correlation.js:93-120 | (1,2), (2,4), (3,6) give the segment from (1, 2) to (3, 6) and r = "1.000" |
| RegressionFacts.ExampleFailures | static/js/correlation.js:100 | two points at x = 5 fail with DegenerateX; one point fails with InsufficientData |
| RegressionFacts.DeterminedBySums | static/js/correlation.js:94-111 | two inputs with the same n, Σx, Σy, Σxy, Σx², Σy², minX and maxX get the same result |
| RegressionFacts.LabelsIgnored | static/js/correlation.js:93-119 | inputs that differ only in the labels get the same result |
| RegressionFacts.PermutationInvariant | BootProject3/static/js/correlation.js:21-47 | reordering the points does not change the result |

## Left out

- IEEE-754 doubles: every quantity is an exact real. Rounding in the sums, the
  divisions and `Math.sqrt` is not modelled.
- `Math.sqrt` itself is not modelled. r is never formed; the rounding of
  num / sqrt(vx·vy) is decided by comparing squares.
- Fixed.ToFixed3: the rounding of `toFixed(3)` is modelled as exact
  round-half-up of the real |r|. The binary representation of the double,
  which decides ties in JavaScript, is not modelled. A negative r whose
  magnitude rounds to zero prints as "-0.000", as JavaScript's `toFixed(3)`
  also does, so the model matches there.
- The unguarded divisions by n·Σx² - (Σx)² and by n are not modelled as the
  NaN or Infinity values JavaScript produces. They are the explicit
  `Failure(InsufficientData)` and `Failure(DegenerateX)` results instead.
- Zero spread in y with at least two distinct x: the routine still returns the
  line, and r is 0/0, which prints as "NaN". The model follows the code here
  and does not fail.
- Regression.FormatR's branches for a negative spread and for "Infinity" model
  how JavaScript prints those values. No input reaches them, which
  RegressionFacts.CorrelationBounded shows.
- The input is an immutable value, so "the points are not modified" holds by
  construction. The result datatype has exactly the two returned fields,
  `regressionPoints` and `r`.
- The chart, map, dropdowns, event listeners and download button of both
  `correlation.js` files and both `main.js` files are not part of this model.
  Neither are the data `fetch` calls, nor the Flask and SQLite back ends
  (`app.py`, `BootProject3/app.py`). All of these are UI, network and database
  glue around the routine.
