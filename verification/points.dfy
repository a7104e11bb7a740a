/** Sample points and the sums the regression routine folds over them. */
module Points {

  /** One sample of the scatter view: `x` and `y` are the two indicator
      values, `name` is the display label (a country name) that rides along.
      The field is called `label` in the dashboard; `label` is a reserved word
      in Dafny, hence `name`. */
  datatype Point = Point(x: real, y: real, name: string)

  /** `points.reduce((sum, p) => sum + f(p), 0)`: a left fold seeded with 0,
      so the last point is added last. */
  function Sum(ps: seq<Point>, f: Point -> real): real
  {
    if ps == [] then 0.0 else Sum(ps[..|ps| - 1], f) + f(ps[|ps| - 1])
  }

  function SumX(ps: seq<Point>): real { Sum(ps, (p: Point) => p.x) }
  function SumY(ps: seq<Point>): real { Sum(ps, (p: Point) => p.y) }
  function SumXY(ps: seq<Point>): real { Sum(ps, (p: Point) => p.x * p.y) }
  function SumX2(ps: seq<Point>): real { Sum(ps, (p: Point) => p.x * p.x) }
  /** Σy² is not computed by the dashboard; the proofs about r use it. */
  function SumY2(ps: seq<Point>): real { Sum(ps, (p: Point) => p.y * p.y) }

  /** The deviation of a coordinate from a centre, `p.x - meanX`. */
  function Dev(v: real, m: real): real { v - m }

  /** `t ** 2` */
  function Squared(t: real): real { t * t }

  /** Σ (x - mx)(y - my), the Pearson numerator for given means. */
  function CoDeviation(ps: seq<Point>, mx: real, my: real): real
  {
    Sum(ps, (p: Point) => Dev(p.x, mx) * Dev(p.y, my))
  }

  /** Σ (x - mx)², the square of the Pearson x-denominator. */
  function SqDeviationX(ps: seq<Point>, mx: real): real
  {
    Sum(ps, (p: Point) => Squared(Dev(p.x, mx)))
  }

  /** Σ (y - my)², the square of the Pearson y-denominator. */
  function SqDeviationY(ps: seq<Point>, my: real): real
  {
    Sum(ps, (p: Point) => Squared(Dev(p.y, my)))
  }

  /** Every point has the same x (vacuously true for fewer than two points). */
  ghost predicate AllXEqual(ps: seq<Point>)
  {
    forall i, j :: 0 <= i < |ps| && 0 <= j < |ps| ==> ps[i].x == ps[j].x
  }

  /** Same coordinates, point by point; the labels may differ. */
  ghost predicate SameCoordinates(ps: seq<Point>, qs: seq<Point>)
  {
    |ps| == |qs| && forall i :: 0 <= i < |ps| ==> ps[i].x == qs[i].x && ps[i].y == qs[i].y
  }

  lemma {:induction false} SumEmpty(f: Point -> real)
    ensures Sum([], f) == 0.0
  {
  }

  /** Folding a concatenation folds each part. */
  lemma {:induction false} SumAppend(a: seq<Point>, b: seq<Point>, f: Point -> real)
    ensures Sum(a + b, f) == Sum(a, f) + Sum(b, f)
    decreases |b|
  {
    if b == [] {
      assert a + b == a;
    } else {
      var b' := b[..|b| - 1];
      assert (a + b)[..|a + b| - 1] == a + b';
      assert (a + b)[|a + b| - 1] == b[|b| - 1];
      SumAppend(a, b', f);
    }
  }

  /** Taking out the point at index i removes exactly its term. */
  lemma {:induction false} SumRemove(ps: seq<Point>, i: nat, f: Point -> real)
    requires i < |ps|
    ensures Sum(ps, f) == Sum(ps[..i] + ps[i + 1..], f) + f(ps[i])
  {
    assert ps == ps[..i] + ([ps[i]] + ps[i + 1..]);
    SumAppend(ps[..i], [ps[i]] + ps[i + 1..], f);
    SumAppend([ps[i]], ps[i + 1..], f);
    SumAppend(ps[..i], ps[i + 1..], f);
    assert [ps[i]][..0] == [];
  }

  /** The sums do not depend on the order of the points. */
  lemma {:induction false} SumPermutation(ps: seq<Point>, qs: seq<Point>, f: Point -> real)
    requires multiset(ps) == multiset(qs)
    ensures Sum(ps, f) == Sum(qs, f)
    decreases |ps|
  {
    if ps == [] {
      assert |qs| == |multiset(qs)| == 0;
    } else {
      var e := ps[|ps| - 1];
      var ps' := ps[..|ps| - 1];
      var i := IndexOf(qs, e);
      var qs' := qs[..i] + qs[i + 1..];
      MultisetRemove(ps, |ps| - 1);
      MultisetRemove(qs, i);
      assert multiset(ps') == multiset(qs');
      SumPermutation(ps', qs', f);
      SumRemove(qs, i, f);
    }
  }

  /** Removing the element at index i removes one occurrence of it. */
  lemma MultisetRemove(ps: seq<Point>, i: nat)
    requires i < |ps|
    ensures multiset(ps[..i] + ps[i + 1..]) == multiset(ps) - multiset{ps[i]}
  {
    assert ps == ps[..i] + [ps[i]] + ps[i + 1..];
  }

  /** An index at which a member of the multiset of a sequence occurs. */
  lemma IndexOf(qs: seq<Point>, e: Point) returns (i: nat)
    requires e in multiset(qs)
    ensures i < |qs| && qs[i] == e
  {
    assert e in qs;
    i :| i < |qs| && qs[i] == e;
  }

  /** Sums over point sequences whose terms agree index by index are equal. */
  lemma {:induction false} SumCongruent(ps: seq<Point>, qs: seq<Point>, f: Point -> real, g: Point -> real)
    requires |ps| == |qs|
    requires forall i :: 0 <= i < |ps| ==> f(ps[i]) == g(qs[i])
    ensures Sum(ps, f) == Sum(qs, g)
    decreases |ps|
  {
    if ps != [] {
      SumCongruent(ps[..|ps| - 1], qs[..|qs| - 1], f, g);
    }
  }

  /** a·u + b·v + c·t + d·n. Every linear expansion of a sum in this model
      (SumAffine and its callers) is written in this one four-slot shape,
      with the count n as its own argument. The arithmetic then matches
      term for term between a lemma and its caller instead of being
      re-normalised by the solver. A slot that a particular expansion does
      not need gets a zero coefficient. */
  function Combination(a: real, u: real, b: real, v: real, c: real, t: real, d: real, n: real): real
  {
    a * u + b * v + c * t + d * n
  }

  /** Linearity: a sum of a combination of terms is that combination of the
      sums, a constant term contributing once per point. */
  lemma {:induction false} SumAffine(ps: seq<Point>, w: Point -> real, f: Point -> real, g: Point -> real,
                                     h: Point -> real, a: real, b: real, c: real, d: real)
    requires forall i :: 0 <= i < |ps| ==> w(ps[i]) == Combination(a, f(ps[i]), b, g(ps[i]), c, h(ps[i]), d, 1.0)
    ensures Sum(ps, w) == Combination(a, Sum(ps, f), b, Sum(ps, g), c, Sum(ps, h), d, |ps| as real)
    decreases |ps|
  {
    if ps != [] {
      var ps' := ps[..|ps| - 1];
      SumAffine(ps', w, f, g, h, a, b, c, d);
      var e := ps[|ps| - 1];
      assert w(e) == a * f(e) + b * g(e) + c * h(e) + d;
      assert Sum(ps, w) == Sum(ps', w) + w(e);
      assert Sum(ps, f) == Sum(ps', f) + f(e);
      assert Sum(ps, g) == Sum(ps', g) + g(e);
      assert Sum(ps, h) == Sum(ps', h) + h(e);
      assert |ps| as real == |ps'| as real + 1.0;
    }
  }

  /** A sum of non-negative terms is non-negative, and positive exactly when
      some term is positive. */
  lemma {:induction false} SumNonnegative(ps: seq<Point>, f: Point -> real)
    requires forall i :: 0 <= i < |ps| ==> 0.0 <= f(ps[i])
    ensures 0.0 <= Sum(ps, f)
    ensures 0.0 < Sum(ps, f) <==> exists i :: 0 <= i < |ps| && 0.0 < f(ps[i])
    decreases |ps|
  {
    if ps != [] {
      var ps' := ps[..|ps| - 1];
      SumNonnegative(ps', f);
      if 0.0 < Sum(ps', f) {
        var i :| 0 <= i < |ps'| && 0.0 < f(ps'[i]);
        assert ps[i] == ps'[i];
      }
      if exists i :: 0 <= i < |ps| && 0.0 < f(ps[i]) {
        var i :| 0 <= i < |ps| && 0.0 < f(ps[i]);
        if i < |ps'| { assert ps[i] == ps'[i]; }
      }
    }
  }

  /** Squared deviations are never negative, and are positive exactly when
      some coordinate differs from the centre. */
  lemma SqDeviationXNonnegative(ps: seq<Point>, m: real)
    ensures 0.0 <= SqDeviationX(ps, m)
    ensures 0.0 < SqDeviationX(ps, m) <==> exists i :: 0 <= i < |ps| && ps[i].x != m
  {
    var f := (p: Point) => Squared(Dev(p.x, m));
    forall i | 0 <= i < |ps| ensures 0.0 <= f(ps[i]) && (0.0 < f(ps[i]) <==> ps[i].x != m) {
      DevSquaredSign(ps[i].x, m);
    }
    SumNonnegative(ps, f);
  }

  lemma SqDeviationYNonnegative(ps: seq<Point>, m: real)
    ensures 0.0 <= SqDeviationY(ps, m)
    ensures 0.0 < SqDeviationY(ps, m) <==> exists i :: 0 <= i < |ps| && ps[i].y != m
  {
    var f := (p: Point) => Squared(Dev(p.y, m));
    forall i | 0 <= i < |ps| ensures 0.0 <= f(ps[i]) && (0.0 < f(ps[i]) <==> ps[i].y != m) {
      DevSquaredSign(ps[i].y, m);
    }
    SumNonnegative(ps, f);
  }

  /** Cauchy–Schwarz for deviations: (Σ (x - mx)(y - my))² ≤ Σ (x - mx)² · Σ (y - my)². */
  lemma {:induction false} CauchySchwarz(ps: seq<Point>, mx: real, my: real)
    ensures Squared(CoDeviation(ps, mx, my)) <= SqDeviationX(ps, mx) * SqDeviationY(ps, my)
    decreases |ps|
  {
    if ps == [] {
      assert Squared(CoDeviation(ps, mx, my)) == Squared(0.0);
    } else {
      var ps' := ps[..|ps| - 1];
      var e := ps[|ps| - 1];
      CauchySchwarz(ps', mx, my);
      SqDeviationXNonnegative(ps', mx);
      SqDeviationYNonnegative(ps', my);
      var a, b := Dev(e.x, mx), Dev(e.y, my);
      var A, B, C := SqDeviationX(ps', mx), SqDeviationY(ps', my), CoDeviation(ps', mx, my);
      assert SqDeviationX(ps, mx) == A + Squared(a);
      assert SqDeviationY(ps, my) == B + Squared(b);
      assert CoDeviation(ps, mx, my) == C + a * b;
      CrossTerm(a, b, A, B, C, SqDeviationX(ps, mx), SqDeviationY(ps, my), CoDeviation(ps, mx, my));
    }
  }

  /** The arithmetic step of Cauchy–Schwarz: adding one pair (a, b) to sums
      A = Σ f², B = Σ g², C = Σ f·g keeps C² ≤ A·B. */
  lemma CrossTerm(a: real, b: real, A: real, B: real, C: real, A': real, B': real, C': real)
    requires 0.0 <= A && 0.0 <= B && Squared(C) <= A * B
    requires A' == A + Squared(a) && B' == B + Squared(b) && C' == C + a * b
    ensures Squared(C') <= A' * B'
  {
    MixedBound(a, b, A, B, C);
    GrowSquare(a, b, C);
    GrowProduct(a, b, A, B);
  }

  lemma GrowSquare(a: real, b: real, C: real)
    ensures Squared(C + a * b) == Squared(C) + 2.0 * a * b * C + Squared(a) * Squared(b)
  {
  }

  lemma GrowProduct(a: real, b: real, A: real, B: real)
    ensures (A + Squared(a)) * (B + Squared(b)) == A * B + (Squared(a) * B + Squared(b) * A) + Squared(a) * Squared(b)
  {
  }

  /** 2abC ≤ a²B + b²A when C² ≤ AB and A, B ≥ 0: both sides squared, the
      right one exceeds the left by (a²B - b²A)². */
  lemma MixedBound(a: real, b: real, A: real, B: real, C: real)
    requires 0.0 <= A && 0.0 <= B && Squared(C) <= A * B
    ensures 2.0 * a * b * C <= Squared(a) * B + Squared(b) * A
  {
    var P := Squared(a) * B + Squared(b) * A;
    var Q := 2.0 * a * b * C;
    SquaredSign(a);
    SquaredSign(b);
    ProductNonnegative(Squared(a), B);
    ProductNonnegative(Squared(b), A);
    if 0.0 < Q {
      var k := 4.0 * Squared(a) * Squared(b);
      ProductNonnegative(Squared(a), Squared(b));
      ScaleBound(k, Squared(C), A * B);
      SquaredOfMixed(a, b, C);
      SquaredOfSum(a, b, A, B);
      SquaredSign(Squared(a) * B - Squared(b) * A);
      SquaredMonotone(P, Q);
    }
  }

  lemma SquaredOfMixed(a: real, b: real, C: real)
    ensures Squared(2.0 * a * b * C) == (4.0 * Squared(a) * Squared(b)) * Squared(C)
  {
  }

  lemma SquaredOfSum(a: real, b: real, A: real, B: real)
    ensures Squared(Squared(a) * B + Squared(b) * A)
         == (4.0 * Squared(a) * Squared(b)) * (A * B) + Squared(Squared(a) * B - Squared(b) * A)
  {
  }

  /** Of two non-negative numbers, the one with the larger square is larger. */
  lemma SquaredMonotone(p: real, q: real)
    requires 0.0 <= p && 0.0 <= q && Squared(q) <= Squared(p)
    ensures q <= p
  {
    if p < q {
      SquaredIncreasing(p, q);
    }
  }

  lemma SquaredIncreasing(p: real, q: real)
    requires 0.0 <= p < q
    ensures Squared(p) < Squared(q)
  {
    var u, v := q - p, q + p;
    ProductPositive(u, v);
    assert Squared(q) - Squared(p) == u * v;
  }

  lemma ScaleBound(k: real, u: real, v: real)
    requires 0.0 <= k && u <= v
    ensures k * u <= k * v
  {
    ProductNonnegative(k, v - u);
  }

  lemma ProductNonnegative(u: real, v: real)
    requires 0.0 <= u && 0.0 <= v
    ensures 0.0 <= u * v
  {
  }

  lemma ProductPositive(u: real, v: real)
    requires 0.0 < u && 0.0 < v
    ensures 0.0 < u * v
  {
  }

  /** A product of deviations, multiplied out. */
  lemma DevProduct(x: real, mx: real, y: real, my: real)
    ensures Dev(x, mx) * Dev(y, my) == Combination(1.0, x * y, -my, x, -mx, y, mx * my, 1.0)
  {
  }

  /** A squared deviation, multiplied out. */
  lemma DevSquaredExpand(x: real, m: real)
    ensures Squared(Dev(x, m)) == Combination(1.0, x * x, -2.0 * m, x, 0.0, x, m * m, 1.0)
  {
  }

  /** A square is never negative, and is positive exactly when its root is
      not zero. */
  lemma SquaredSign(t: real)
    ensures 0.0 <= Squared(t)
    ensures 0.0 < Squared(t) <==> t != 0.0
  {
    SquaredAsProduct(t);
    ProductSign(t);
  }

  // The solver's arithmetic reasons about the sign of a product of two
  // distinct terms, not of a literal square; `Dev(t, 0.0)` is t as a
  // second term.
  lemma SquaredAsProduct(t: real)
    ensures Squared(t) == t * Dev(t, 0.0)
  {
  }

  lemma ProductSign(t: real)
    ensures 0.0 <= t * Dev(t, 0.0)
    ensures t < 0.0 || 0.0 < t ==> 0.0 < t * Dev(t, 0.0)
  {
  }

  /** A squared deviation is never negative, and is positive exactly when
      the coordinate is off the centre. */
  lemma DevSquaredSign(v: real, m: real)
    ensures 0.0 <= Squared(Dev(v, m))
    ensures 0.0 < Squared(Dev(v, m)) <==> v != m
  {
    SquaredSign(Dev(v, m));
  }
}
