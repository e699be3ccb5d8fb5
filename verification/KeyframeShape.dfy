/**
 The shape of the interpolation between keyframes, which says which neighbour steers which
 end: quadratics are reproduced, and segments leave and reach a keyframe with half the
 difference of its neighbours' values. Both fail for two equal values next to each other,
 between which the curve is flat.
 */
module KeyframeShape {
  import Curve
  import opened Keyframes

  // Quadratics

  function Quadratic(a: real, b: real, c: real, x: real): real { a * x * x + b * x + c }

  lemma QuadraticSpline(a: real, b: real, c: real, t: real)
    ensures Curve.Spline(a - b + c, c, a + b + c, 4.0 * a + 2.0 * b + c, t) == Quadratic(a, b, c, t)
  {
    var p0, p1, p2, p3 := a - b + c, c, a + b + c, 4.0 * a + 2.0 * b + c;
    assert p2 - p0 == 2.0 * b;
    assert 2.0 * p0 - 5.0 * p1 + 4.0 * p2 - p3 == 2.0 * a;
    assert 3.0 * p1 - p0 - 3.0 * p2 + p3 == 0.0;
  }

  /** A quadratic in steps of h from s is a quadratic in the number of steps. */
  lemma Rescaled(a: real, b: real, c: real, s: real, h: real, u: real)
    ensures Quadratic(a, b, c, s + u * h)
            == Quadratic(a * h * h, 2.0 * a * s * h + b * h, Quadratic(a, b, c, s), u)
  {
    assert (s + u * h) * (s + u * h) == s * s + 2.0 * (s * (u * h)) + (u * h) * (u * h);
    var x := s + u * h;
    assert a * x * x == a * (x * x);
    assert a * (s * s + 2.0 * (s * (u * h)) + (u * h) * (u * h)) == a * s * s + 2.0 * a * s * h * u + a * h * h * u * u;
  }

  /** Four evenly spaced frames whose values are those of a quadratic in time. */
  ghost predicate OnQuadratic(kf: seq<Keyframe>, k: nat, a: real, b: real, c: real) {
    && 2 <= k < |kf| - 1
    && kf[k - 1].ms - kf[k - 2].ms == kf[k].ms - kf[k - 1].ms == kf[k + 1].ms - kf[k].ms
    && forall j :: k - 2 <= j <= k + 1 ==> Value(kf, j) == Quadratic(a, b, c, kf[j].ms as real)
  }

  lemma SegmentQuadratic(kf: seq<Keyframe>, k: nat, ms: nat, a: real, b: real, c: real)
    requires OnQuadratic(kf, k, a, b, c) && kf[k - 1].ms < kf[k].ms && kf[k - 1].ms <= ms <= kf[k].ms
    requires kf[k - 1].value != kf[k].value
    ensures Segment(false, kf, k, Fraction(kf, k, ms)) == Quadratic(a, b, c, ms as real)
  {
    var s, h, u := kf[k - 1].ms as real, (kf[k].ms - kf[k - 1].ms) as real, Fraction(kf, k, ms);
    Steps(kf, k, a, b, c, s, h);
    assert u * h == (ms - kf[k - 1].ms) as real;
    Rescaled(a, b, c, s, h, u);
    QuadraticSpline(a * h * h, 2.0 * a * s * h + b * h, Quadratic(a, b, c, s), u);
  }

  /** The four values by the number of steps. */
  lemma Steps(kf: seq<Keyframe>, k: nat, a: real, b: real, c: real, s: real, h: real)
    requires OnQuadratic(kf, k, a, b, c) && s == kf[k - 1].ms as real && h == (kf[k].ms - kf[k - 1].ms) as real
    ensures var A, B, C := a * h * h, 2.0 * a * s * h + b * h, Quadratic(a, b, c, s);
            && Value(kf, k - 2) == A - B + C && Value(kf, k - 1) == C
            && Value(kf, k) == A + B + C && Value(kf, k + 1) == 4.0 * A + 2.0 * B + C
  {
    assert kf[k - 2].ms as real == s + -1.0 * h && kf[k].ms as real == s + 1.0 * h && kf[k + 1].ms as real == s + 2.0 * h;
    Rescaled(a, b, c, s, h, -1.0);
    Rescaled(a, b, c, s, h, 1.0);
    Rescaled(a, b, c, s, h, 2.0);
  }

  /** Between equal values a quadratic is not flat, unless it is no quadratic. */
  lemma FlatExactly(a: real, b: real, c: real, s: real, e: real, x: real)
    requires s < x < e && Quadratic(a, b, c, s) == Quadratic(a, b, c, e)
    ensures Quadratic(a, b, c, x) == Quadratic(a, b, c, s) <==> a == 0.0
  {
    assert (a * (s + e) + b) * (e - s) == Quadratic(a, b, c, e) - Quadratic(a, b, c, s);
    assert a * (s + e) + b == 0.0;
    assert Quadratic(a, b, c, x) - Quadratic(a, b, c, s) == (a * (s + x) + b) * (x - s);
    assert a * (s + x) + b == a * (x - e) + (a * (s + e) + b);
    NotZero(a * (x - e), x - s);
    NotZero(a, x - e);
  }

  lemma NotZero(x: real, y: real)
    requires y != 0.0
    ensures x * y == 0.0 <==> x == 0.0
  {
  }

  /** Quadratics, straight lines among them, are reproduced: between evenly spaced frames
      with the values of a quadratic in time, the interpolation is that quadratic exactly
      when the two neighbouring values differ or it is no more than a line. */
  lemma QuadraticsExactly(kf: seq<Keyframe>, k: nat, ms: nat, a: real, b: real, c: real)
    requires Ordered(kf) && OnQuadratic(kf, k, a, b, c) && kf[k - 1].ms < ms < kf[k].ms
    ensures Defined(kf, ms)
    ensures Interpolate(false, kf, ms) == Quadratic(a, b, c, ms as real) <==> kf[k - 1].value != kf[k].value || a == 0.0
  {
    SeekIs(kf, ms, 1, k);
    if kf[k - 1].value != kf[k].value {
      SegmentQuadratic(kf, k, ms, a, b, c);
    } else {
      assert Value(kf, k - 1) == Value(kf, k);
      FlatExactly(a, b, c, kf[k - 1].ms as real, kf[k].ms as real, ms as real);
    }
  }

  // Slopes

  /** The straight line that leaves p with half the difference m of the neighbours. */
  function Tangent(p: real, m: real, t: real): real { p + m * t * 0.5 }

  /** How far a curve with values in a range r can bend away from it. */
  function Bend(r: real, t: real): real { 5.0 * (r * (t * t)) }

  lemma TangentUpturned(p: real, m: real, t: real)
    ensures Tangent(-p, -m, t) == -Tangent(p, m, t)
  {
    assert -m * t * 0.5 == -(m * t * 0.5);
  }

  lemma ScaledAtMost(x: real, r: real, t: real)
    requires x <= 10.0 * r
    ensures x * (t * t) * 0.5 <= Bend(r, t)
  {
    Curve.Square(t);
    Curve.TimesWeight(x, 10.0 * r, t * t);
    assert 10.0 * r * (t * t) == 10.0 * (r * (t * t));
  }

  /** The spline by powers of t. */
  function Powers(p1: real, m: real, b: real, c: real, t: real): real {
    (2.0 * p1 + m * t + b * (t * t) + c * (t * t * t)) / 2.0
  }

  lemma PowersBend(p1: real, m: real, b: real, c: real, t: real)
    ensures Powers(p1, m, b, c, t) - Tangent(p1, m, t) == (b + c * t) * (t * t) * 0.5
  {
    assert (b + c * t) * (t * t) == b * (t * t) + c * t * (t * t);
    assert c * t * (t * t) == c * (t * t * t);
  }

  lemma PowersAtMost(p1: real, m: real, b: real, c: real, t: real, r: real)
    requires 0.0 <= t <= 1.0 && r >= 0.0 && b <= 6.0 * r && c <= 4.0 * r
    ensures Powers(p1, m, b, c, t) - Tangent(p1, m, t) <= Bend(r, t)
  {
    Curve.TimesFraction(c, 4.0 * r, t);
    ScaledAtMost(b + c * t, r, t);
    PowersBend(p1, m, b, c, t);
  }

  lemma SplineByPowers(p0: real, p1: real, p2: real, p3: real, t: real)
    ensures Curve.Spline(p0, p1, p2, p3, t)
            == Powers(p1, p2 - p0, 2.0 * p0 - 5.0 * p1 + 4.0 * p2 - p3, 3.0 * p1 - p0 - 3.0 * p2 + p3, t)
  {
  }

  lemma BendAtMost(p0: real, p1: real, p2: real, p3: real, t: real, lo: real, hi: real)
    requires 0.0 <= t <= 1.0 && Curve.Spans(p0, p1, p2, p3, lo, hi)
    ensures Curve.Spline(p0, p1, p2, p3, t) - Tangent(p1, p2 - p0, t) <= Bend(hi - lo, t)
  {
    SplineByPowers(p0, p1, p2, p3, t);
    PowersAtMost(p1, p2 - p0, 2.0 * p0 - 5.0 * p1 + 4.0 * p2 - p3, 3.0 * p1 - p0 - 3.0 * p2 + p3, t, hi - lo);
  }

  /** The spline leaves its first keyframe with half the difference of the second's and the
      outer neighbour's value, up to a bend in the square of the distance. */
  lemma LeavesWith(p0: real, p1: real, p2: real, p3: real, t: real, lo: real, hi: real)
    requires 0.0 <= t <= 1.0 && Curve.Spans(p0, p1, p2, p3, lo, hi)
    ensures -Bend(hi - lo, t) <= Curve.Spline(p0, p1, p2, p3, t) - Tangent(p1, p2 - p0, t) <= Bend(hi - lo, t)
  {
    BendAtMost(p0, p1, p2, p3, t, lo, hi);
    BendAtLeast(p0, p1, p2, p3, t, lo, hi);
  }

  lemma ArrivesWith(p0: real, p1: real, p2: real, p3: real, t: real, lo: real, hi: real)
    requires 0.0 <= t <= 1.0 && Curve.Spans(p0, p1, p2, p3, lo, hi)
    ensures -Bend(hi - lo, 1.0 - t) <= Curve.Spline(p0, p1, p2, p3, t) - Tangent(p2, p1 - p3, 1.0 - t) <= Bend(hi - lo, 1.0 - t)
  {
    LeavesWith(p3, p2, p1, p0, 1.0 - t, lo, hi);
    Curve.SplineReversed(p0, p1, p2, p3, t);
  }

  lemma BendAtLeast(p0: real, p1: real, p2: real, p3: real, t: real, lo: real, hi: real)
    requires 0.0 <= t <= 1.0 && Curve.Spans(p0, p1, p2, p3, lo, hi)
    ensures -Bend(hi - lo, t) <= Curve.Spline(p0, p1, p2, p3, t) - Tangent(p1, p2 - p0, t)
  {
    BendAtMost(-p0, -p1, -p2, -p3, t, -hi, -lo);
    Curve.Mirrored(p0, p1, p2, p3, t);
    TangentUpturned(p1, p2 - p0, t);
    assert -p2 - -p0 == -(p2 - p0) && -lo - -hi == hi - lo;
  }

  /** The value of the keyframe before the segment that ends at k, and of the one after it; at
      the ends of the group the segment's own. */
  function Before(kf: seq<Keyframe>, k: nat): real
    requires 0 < k < |kf|
  {
    if k == 1 then kf[0].value as real else kf[k - 2].value as real
  }

  function Following(kf: seq<Keyframe>, k: nat): real
    requires 0 < k < |kf|
  {
    if k == |kf| - 1 then kf[k].value as real else kf[k + 1].value as real
  }

  /** The slopes at both ends of every segment, per length of the segment: half the way from
      the keyframe before an end to the one after it, up to a bend in the square of the
      distance from that end. So the two segments at a keyframe meet with the same slope.
      Between equal values the curve is flat instead. */
  lemma SlopesAtKeyframes(kf: seq<Keyframe>, k: nat, ms: nat, lo: int, hi: int)
    requires Ordered(kf) && 0 < k < |kf| && kf[k - 1].ms < ms < kf[k].ms && ValuesWithin(kf, lo, hi)
    ensures Defined(kf, ms)
    ensures var t, r := (ms - kf[k - 1].ms) as real / (kf[k].ms - kf[k - 1].ms) as real, (hi - lo) as real;
            var v, v1, v2 := Interpolate(false, kf, ms), kf[k - 1].value as real, kf[k].value as real;
            if v1 == v2 then v == v1
            else
              && -Bend(r, t) <= v - Tangent(v1, v2 - Before(kf, k), t) <= Bend(r, t)
              && -Bend(r, 1.0 - t) <= v - Tangent(v2, v1 - Following(kf, k), 1.0 - t) <= Bend(r, 1.0 - t)
  {
    SeekIs(kf, ms, 1, k);
    SegmentSlopes(kf, k, Fraction(kf, k, ms), lo, hi);
  }

  lemma SegmentSlopes(kf: seq<Keyframe>, k: nat, t: real, lo: int, hi: int)
    requires 0 < k < |kf| && 0.0 <= t <= 1.0 && ValuesWithin(kf, lo, hi)
    ensures var v, r := Segment(false, kf, k, t), (hi - lo) as real;
            var v1, v2 := kf[k - 1].value as real, kf[k].value as real;
            if v1 == v2 then v == v1
            else
              && -Bend(r, t) <= v - Tangent(v1, v2 - Before(kf, k), t) <= Bend(r, t)
              && -Bend(r, 1.0 - t) <= v - Tangent(v2, v1 - Following(kf, k), 1.0 - t) <= Bend(r, 1.0 - t)
  {
    var p0, p1, p2, p3 := Before(kf, k), Value(kf, k - 1), Value(kf, k), Following(kf, k);
    if p1 != p2 {
      assert hi as real - lo as real == (hi - lo) as real;
      LeavesWith(p0, p1, p2, p3, t, lo as real, hi as real);
      ArrivesWith(p0, p1, p2, p3, t, lo as real, hi as real);
    }
  }

  /** From the last keyframe on its value is held. */
  lemma EndIsHeld(linear: bool, kf: seq<Keyframe>, ms: nat)
    requires kf != [] && ms >= kf[|kf| - 1].ms
    ensures Defined(kf, ms) && Interpolate(linear, kf, ms) == kf[|kf| - 1].value as real
  {
  }
}
