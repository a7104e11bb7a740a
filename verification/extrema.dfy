/** `Math.min(...points.map(p => p.x))` and `Math.max(...)`, the x-range the
    fitted line is drawn over. */
module Extrema {
  import opened Points

  function Min(a: real, b: real): real { if a <= b then a else b }
  function Max(a: real, b: real): real { if a >= b then a else b }

  /** Smallest x: bounds every x from below and is the x of some point. */
  function MinX(ps: seq<Point>): (m: real)
    requires |ps| > 0
    ensures forall i :: 0 <= i < |ps| ==> m <= ps[i].x
    ensures exists i :: 0 <= i < |ps| && ps[i].x == m
  {
    if |ps| == 1 then ps[0].x
    else
      var rest := ps[..|ps| - 1];
      var m := Min(MinX(rest), ps[|ps| - 1].x);
      assert forall i :: 0 <= i < |rest| ==> rest[i] == ps[i];
      m
  }

  /** Largest x: bounds every x from above and is the x of some point. */
  function MaxX(ps: seq<Point>): (m: real)
    requires |ps| > 0
    ensures forall i :: 0 <= i < |ps| ==> ps[i].x <= m
    ensures exists i :: 0 <= i < |ps| && ps[i].x == m
  {
    if |ps| == 1 then ps[0].x
    else
      var rest := ps[..|ps| - 1];
      var m := Max(MaxX(rest), ps[|ps| - 1].x);
      assert forall i :: 0 <= i < |rest| ==> rest[i] == ps[i];
      m
  }

  /** The range is empty exactly when every x is the same. */
  lemma RangeDegenerate(ps: seq<Point>)
    requires |ps| > 0
    ensures MinX(ps) <= MaxX(ps)
    ensures MinX(ps) == MaxX(ps) <==> AllXEqual(ps)
  {
    if MinX(ps) == MaxX(ps) {
      assert AllXEqual(ps);
    }
  }

  /** Both extremes depend only on the multiset of points, not their order. */
  lemma RangePermutation(ps: seq<Point>, qs: seq<Point>)
    requires |ps| > 0
    requires multiset(ps) == multiset(qs)
    ensures |qs| == |ps|
    ensures MinX(ps) == MinX(qs) && MaxX(ps) == MaxX(qs)
  {
    assert |qs| == |multiset(qs)| == |multiset(ps)| == |ps|;
    var i :| 0 <= i < |ps| && ps[i].x == MinX(ps);
    var j :| 0 <= j < |qs| && qs[j].x == MinX(qs);
    var k :| 0 <= k < |ps| && ps[k].x == MaxX(ps);
    var l :| 0 <= l < |qs| && qs[l].x == MaxX(qs);
    var i' := IndexOf(qs, ps[i]);
    var j' := IndexOf(ps, qs[j]);
    var k' := IndexOf(qs, ps[k]);
    var l' := IndexOf(ps, qs[l]);
  }

  /** Both extremes read only the x coordinates. */
  lemma RangeCongruent(ps: seq<Point>, qs: seq<Point>)
    requires |ps| > 0
    requires SameCoordinates(ps, qs)
    ensures MinX(ps) == MinX(qs) && MaxX(ps) == MaxX(qs)
  {
    var i :| 0 <= i < |ps| && ps[i].x == MinX(ps);
    var j :| 0 <= j < |qs| && qs[j].x == MinX(qs);
    var k :| 0 <= k < |ps| && ps[k].x == MaxX(ps);
    var l :| 0 <= l < |qs| && qs[l].x == MaxX(qs);
    assert ps[j].x == qs[j].x && ps[l].x == qs[l].x;
  }
}
