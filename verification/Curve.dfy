/**
 The interpolation curve between two keyframes: a straight line, or the Catmull-Rom
 spline through the two and steered by their outer neighbours.
 */
module Curve {

  /** The spline's polynomial. */
  function Spline(p0: real, p1: real, p2: real, p3: real, t: real): real {
    var t2 := t * t;
    var t3 := t2 * t;
    (2.0 * p1
     + (p2 - p0) * t
     + (2.0 * p0 - 5.0 * p1 + 4.0 * p2 - p3) * t2
     + (3.0 * p1 - p0 - 3.0 * p2 + p3) * t3) / 2.0
  }

  function Line(p1: real, p2: real, t: real): real {
    t * (p2 - p1) + p1
  }

  function At(linear: bool, p0: real, p1: real, p2: real, p3: real, t: real): real {
    if linear then Line(p1, p2, t)
    else if p1 == p2 then p1
    else Spline(p0, p1, p2, p3, t)
  }

  /** The curve meets both of its keyframes. */
  lemma Ends(linear: bool, p0: real, p1: real, p2: real, p3: real)
    ensures At(linear, p0, p1, p2, p3, 0.0) == p1
    ensures At(linear, p0, p1, p2, p3, 1.0) == p2
  {
  }

  /** Moving all control values moves the curve. */
  lemma Translated(linear: bool, p0: real, p1: real, p2: real, p3: real, d: real, t: real)
    ensures At(linear, p0 - d, p1 - d, p2 - d, p3 - d, t) == At(linear, p0, p1, p2, p3, t) - d
  {
    var t2 := t * t;
    var t3 := t2 * t;
    if !linear && p1 != p2 {
      assert (p2 - d) - (p0 - d) == p2 - p0;
      assert 2.0 * (p0 - d) - 5.0 * (p1 - d) + 4.0 * (p2 - d) - (p3 - d) == 2.0 * p0 - 5.0 * p1 + 4.0 * p2 - p3;
      assert 3.0 * (p1 - d) - (p0 - d) - 3.0 * (p2 - d) + (p3 - d) == 3.0 * p1 - p0 - 3.0 * p2 + p3;
    }
  }

  // The weights the spline gives its control values; the outer two are negative

  function OuterStart(t: real): real { t * (1.0 - t) * (1.0 - t) / 2.0 }

  function OuterEnd(t: real): real { t * t * (1.0 - t) / 2.0 }

  function InnerStart(t: real): real { (1.0 - t) * (2.0 + 2.0 * t - 3.0 * t * t) / 2.0 }

  function InnerEnd(t: real): real { t * (1.0 + 4.0 * t - 3.0 * t * t) / 2.0 }

  lemma Product(a: real, b: real)
    requires a >= 0.0 && b >= 0.0
    ensures a * b >= 0.0
  {
  }

  lemma Square(x: real)
    ensures x * x >= 0.0
  {
  }

  lemma Weights(t: real)
    requires 0.0 <= t <= 1.0
    ensures OuterStart(t) >= 0.0 && OuterEnd(t) >= 0.0 && InnerStart(t) >= 0.0 && InnerEnd(t) >= 0.0
    ensures InnerStart(t) + InnerEnd(t) == 1.0 + OuterStart(t) + OuterEnd(t)
    ensures OuterStart(t) + OuterEnd(t) <= 0.125
  {
    var u, t2 := 1.0 - t, t * t;
    Product(t, u);
    assert t * u == t - t2;
    Product(t, u);
    Product(t * u, u);
    Product(t2, u);
    Product(u, 2.0 + 2.0 * t - 3.0 * t2);
    Product(t, 1.0 + 4.0 * t - 3.0 * t2);
    assert 3.0 * t * t == 3.0 * t2;
    assert OuterStart(t) + OuterEnd(t) == t * u / 2.0;
    Square(t - 0.5);
  }

  lemma Weighted(p0: real, p1: real, p2: real, p3: real, t: real)
    ensures Spline(p0, p1, p2, p3, t) ==
            p1 * InnerStart(t) + p2 * InnerEnd(t) - p0 * OuterStart(t) - p3 * OuterEnd(t)
  {
  }

  // A weighted sum whose inner weights add up to one more than its outer ones, bounded by
  // a certificate: the gap to the bound is a sum of products of non-negative numbers

  lemma Certificate(p0: real, p1: real, p2: real, p3: real, a: real, c: real, d: real, lo: real, hi: real)
    ensures (hi - p1) * a + (hi - p2) * (1.0 + c + d - a) + (p0 - lo) * c + (p3 - lo) * d + (hi - lo) * (0.125 - c - d)
            == hi + (hi - lo) * 0.125 - (p1 * a + p2 * (1.0 + c + d - a) - p0 * c - p3 * d)
  {
  }

  lemma FiveTerms(v: real, w: real, x: real, y: real, z: real, total: real)
    requires v >= 0.0 && w >= 0.0 && x >= 0.0 && y >= 0.0 && z >= 0.0 && v + w + x + y + z == total
    ensures total >= 0.0
  {
  }

  lemma AtMost(p0: real, p1: real, p2: real, p3: real, a: real, c: real, d: real, lo: real, hi: real)
    requires a >= 0.0 && 1.0 + c + d - a >= 0.0 && c >= 0.0 && d >= 0.0 && 0.125 - c - d >= 0.0
    requires hi - p1 >= 0.0 && hi - p2 >= 0.0 && p0 - lo >= 0.0 && p3 - lo >= 0.0 && hi - lo >= 0.0
    ensures hi + (hi - lo) * 0.125 - (p1 * a + p2 * (1.0 + c + d - a) - p0 * c - p3 * d) >= 0.0
  {
    Product(hi - p1, a);
    Product(hi - p2, 1.0 + c + d - a);
    Product(p0 - lo, c);
    Product(p3 - lo, d);
    Product(hi - lo, 0.125 - c - d);
    Certificate(p0, p1, p2, p3, a, c, d, lo, hi);
    FiveTerms((hi - p1) * a, (hi - p2) * (1.0 + c + d - a), (p0 - lo) * c, (p3 - lo) * d, (hi - lo) * (0.125 - c - d),
              hi + (hi - lo) * 0.125 - (p1 * a + p2 * (1.0 + c + d - a) - p0 * c - p3 * d));
  }

  lemma SplineAtMost(p0: real, p1: real, p2: real, p3: real, t: real, lo: real, hi: real)
    requires 0.0 <= t <= 1.0
    requires lo <= p0 <= hi && lo <= p1 <= hi && lo <= p2 <= hi && lo <= p3 <= hi
    ensures Spline(p0, p1, p2, p3, t) <= hi + (hi - lo) * 0.125
  {
    Weights(t);
    Weighted(p0, p1, p2, p3, t);
    AtMost(p0, p1, p2, p3, InnerStart(t), OuterStart(t), OuterEnd(t), lo, hi);
    assert InnerEnd(t) == 1.0 + OuterStart(t) + OuterEnd(t) - InnerStart(t);
  }

  /** Turning the control values upside down turns the spline upside down. */
  lemma Mirrored(p0: real, p1: real, p2: real, p3: real, t: real)
    ensures Spline(-p0, -p1, -p2, -p3, t) == -Spline(p0, p1, p2, p3, t)
  {
  }

  lemma SplineOvershoot(p0: real, p1: real, p2: real, p3: real, t: real, lo: real, hi: real)
    requires 0.0 <= t <= 1.0
    requires lo <= p0 <= hi && lo <= p1 <= hi && lo <= p2 <= hi && lo <= p3 <= hi
    ensures lo - (hi - lo) * 0.125 <= Spline(p0, p1, p2, p3, t) <= hi + (hi - lo) * 0.125
  {
    SplineAtMost(p0, p1, p2, p3, t, lo, hi);
    SplineAtMost(-p0, -p1, -p2, -p3, t, -hi, -lo);
    Mirrored(p0, p1, p2, p3, t);
  }

  lemma LineAbove(p1: real, p2: real, t: real)
    requires 0.0 <= t <= 1.0 && p1 <= p2
    ensures p1 <= Line(p1, p2, t) <= p2
  {
    Product(t, p2 - p1);
    Product(1.0 - t, p2 - p1);
    assert t * (p2 - p1) + (1.0 - t) * (p2 - p1) == p2 - p1;
  }

  lemma LineReversed(p1: real, p2: real, t: real)
    ensures Line(p2, p1, 1.0 - t) == Line(p1, p2, t)
  {
  }

  lemma LineBetween(p1: real, p2: real, t: real)
    requires 0.0 <= t <= 1.0
    ensures p1 <= p2 ==> p1 <= Line(p1, p2, t) <= p2
    ensures p2 <= p1 ==> p2 <= Line(p1, p2, t) <= p1
  {
    if p1 <= p2 {
      LineAbove(p1, p2, t);
    } else {
      LineAbove(p2, p1, 1.0 - t);
      LineReversed(p1, p2, t);
    }
  }

  /** The spline overshoots the range of its control values by an eighth of it at most;
      a straight line stays between its ends. */
  lemma Overshoot(linear: bool, p0: real, p1: real, p2: real, p3: real, t: real, lo: real, hi: real)
    requires 0.0 <= t <= 1.0
    requires lo <= p0 <= hi && lo <= p1 <= hi && lo <= p2 <= hi && lo <= p3 <= hi
    ensures lo - (hi - lo) * 0.125 <= At(linear, p0, p1, p2, p3, t) <= hi + (hi - lo) * 0.125
    ensures linear && p1 <= p2 ==> p1 <= At(linear, p0, p1, p2, p3, t) <= p2
    ensures linear && p2 <= p1 ==> p2 <= At(linear, p0, p1, p2, p3, t) <= p1
  {
    if linear {
      LineBetween(p1, p2, t);
      Inside(Line(p1, p2, t), p1, p2, lo, hi);
    } else if p1 == p2 {
      Inside(p1, p1, p2, lo, hi);
    } else {
      SplineOvershoot(p0, p1, p2, p3, t, lo, hi);
    }
  }

  lemma Inside(v: real, p1: real, p2: real, lo: real, hi: real)
    requires lo <= p1 <= hi && lo <= p2 <= hi && (p1 <= v <= p2 || p2 <= v <= p1)
    ensures lo - (hi - lo) * 0.125 <= v <= hi + (hi - lo) * 0.125
  {
  }

  // Near the keyframes

  ghost predicate Spans(p0: real, p1: real, p2: real, p3: real, lo: real, hi: real) {
    lo <= p0 <= hi && lo <= p1 <= hi && lo <= p2 <= hi && lo <= p3 <= hi
  }

  lemma TimesFraction(x: real, r: real, t: real)
    requires 0.0 <= t <= 1.0 && x <= r && r >= 0.0
    ensures x * t <= r
  {
    Product(r - x, t);
    Product(r, 1.0 - t);
    assert (r - x) * t + r * (1.0 - t) == r - x * t;
  }

  lemma TimesWeight(x: real, r: real, t: real)
    requires x <= r && t >= 0.0
    ensures x * t <= r * t
  {
    Product(r - x, t);
    assert (r - x) * t == r * t - x * t;
  }

  /** The spline's slope from its first keyframe. */
  function Slope(p0: real, p1: real, p2: real, p3: real, t: real): real {
    (p2 - p0) + ((2.0 * p0 - 5.0 * p1 + 4.0 * p2 - p3) + (3.0 * p1 - p0 - 3.0 * p2 + p3) * t) * t
  }

  lemma FromStart(p0: real, p1: real, p2: real, p3: real, t: real)
    ensures Spline(p0, p1, p2, p3, t) - p1 == Slope(p0, p1, p2, p3, t) * t * 0.5
  {
  }

  lemma SlopeAtMost(p0: real, p1: real, p2: real, p3: real, t: real, lo: real, hi: real)
    requires 0.0 <= t <= 1.0 && Spans(p0, p1, p2, p3, lo, hi)
    ensures Slope(p0, p1, p2, p3, t) <= 11.0 * (hi - lo)
  {
    var r := hi - lo;
    var b, c := 2.0 * p0 - 5.0 * p1 + 4.0 * p2 - p3, 3.0 * p1 - p0 - 3.0 * p2 + p3;
    TimesFraction(c, 4.0 * r, t);
    TimesFraction(b + c * t, 10.0 * r, t);
  }

  /** How far the curve can get from a keyframe's value in a fraction t of a segment. */
  function Reach(lo: real, hi: real, t: real): real { 6.0 * ((hi - lo) * t) }

  lemma LineNear(p1: real, p2: real, t: real, lo: real, hi: real)
    requires 0.0 <= t && lo <= p1 <= hi && lo <= p2 <= hi
    ensures Line(p1, p2, t) - p1 <= Reach(lo, hi, t)
  {
    Product(hi - lo, t);
    TimesWeight(p2 - p1, hi - lo, t);
    AtMostSix((p2 - p1) * t, (hi - lo) * t);
    assert Line(p1, p2, t) - p1 == (p2 - p1) * t;
  }

  lemma AtMostSix(x: real, y: real)
    requires x <= y && 0.0 <= y
    ensures x <= 6.0 * y
  {
  }

  lemma HalfOfEleven(x: real, y: real)
    requires x <= 11.0 * y && 0.0 <= y
    ensures x * 0.5 <= 6.0 * y
  {
  }

  lemma SplineNear(p0: real, p1: real, p2: real, p3: real, t: real, lo: real, hi: real)
    requires 0.0 <= t <= 1.0 && Spans(p0, p1, p2, p3, lo, hi)
    ensures Spline(p0, p1, p2, p3, t) - p1 <= Reach(lo, hi, t)
  {
    var slope := Slope(p0, p1, p2, p3, t);
    Product(hi - lo, t);
    SlopeAtMost(p0, p1, p2, p3, t, lo, hi);
    TimesWeight(slope, 11.0 * (hi - lo), t);
    assert 11.0 * (hi - lo) * t == 11.0 * ((hi - lo) * t);
    HalfOfEleven(slope * t, (hi - lo) * t);
    FromStart(p0, p1, p2, p3, t);
  }

  /** Near its first keyframe the curve is near the keyframe's value. */
  lemma NearStartAbove(linear: bool, p0: real, p1: real, p2: real, p3: real, t: real, lo: real, hi: real)
    requires 0.0 <= t <= 1.0 && Spans(p0, p1, p2, p3, lo, hi)
    ensures At(linear, p0, p1, p2, p3, t) - p1 <= Reach(lo, hi, t)
  {
    LineNear(p1, p2, t, lo, hi);
    SplineNear(p0, p1, p2, p3, t, lo, hi);
    Product(hi - lo, t);
  }

  lemma Upturned(linear: bool, p0: real, p1: real, p2: real, p3: real, t: real)
    ensures At(linear, -p0, -p1, -p2, -p3, t) == -At(linear, p0, p1, p2, p3, t)
  {
    Mirrored(p0, p1, p2, p3, t);
  }

  lemma Reversed(linear: bool, p0: real, p1: real, p2: real, p3: real, t: real)
    ensures At(linear, p3, p2, p1, p0, 1.0 - t) == At(linear, p0, p1, p2, p3, t)
  {
    LineReversed(p1, p2, t);
    SplineReversed(p0, p1, p2, p3, t);
  }

  lemma SplineReversed(p0: real, p1: real, p2: real, p3: real, t: real)
    ensures Spline(p3, p2, p1, p0, 1.0 - t) == Spline(p0, p1, p2, p3, t)
  {
  }

  /** Both ends: the curve leaves a keyframe, and arrives at the next, at a bounded rate,
      so that neighbouring segments meet without a jump. */
  lemma Continuous(linear: bool, p0: real, p1: real, p2: real, p3: real, t: real, lo: real, hi: real)
    requires 0.0 <= t <= 1.0 && Spans(p0, p1, p2, p3, lo, hi)
    ensures -Reach(lo, hi, t) <= At(linear, p0, p1, p2, p3, t) - p1 <= Reach(lo, hi, t)
    ensures -Reach(lo, hi, 1.0 - t) <= At(linear, p0, p1, p2, p3, t) - p2 <= Reach(lo, hi, 1.0 - t)
  {
    NearStartAbove(linear, p0, p1, p2, p3, t, lo, hi);
    NearStartAbove(linear, -p0, -p1, -p2, -p3, t, -hi, -lo);
    Upturned(linear, p0, p1, p2, p3, t);
    NearStartAbove(linear, p3, p2, p1, p0, 1.0 - t, lo, hi);
    NearStartAbove(linear, -p3, -p2, -p1, -p0, 1.0 - t, -hi, -lo);
    Upturned(linear, p3, p2, p1, p0, 1.0 - t);
    Reversed(linear, p0, p1, p2, p3, t);
  }
}
