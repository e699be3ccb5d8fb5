/**
 Keyframe groups: a value for each of a few moments of the run, interpolated in
 between. This module holds the interpolation and what it guarantees.
 */
module Keyframes {
  import Curve

  datatype Keyframe = Keyframe(value: int, ms: nat)

  /** Times strictly increase. */
  ghost predicate Ordered(kf: seq<Keyframe>) {
    forall i, j :: 0 <= i < j < |kf| ==> kf[i].ms < kf[j].ms
  }

  function Last(kf: seq<Keyframe>): Keyframe
    requires kf != []
  {
    kf[|kf| - 1]
  }

  /** The first keyframe from k on that is not before the given time. */
  function Seek(kf: seq<Keyframe>, ms: nat, k: nat): (r: nat)
    requires k <= |kf|
    ensures k <= r <= |kf|
    ensures r < |kf| ==> kf[r].ms >= ms
    ensures forall j :: k <= j < r ==> kf[j].ms < ms
    decreases |kf| - k
  {
    if k == |kf| || kf[k].ms >= ms then k else Seek(kf, ms, k + 1)
  }

  /** Exactly where the interpolation divides by something other than zero and does not
      look before the first keyframe. No order of the times is needed for that. */
  predicate Defined(kf: seq<Keyframe>, ms: nat) {
    kf != [] && (ms >= Last(kf).ms || (kf[0].ms <= ms && (kf[0].ms < ms || ms < kf[1].ms)))
  }

  function Value(kf: seq<Keyframe>, k: nat): real
    requires k < |kf|
  {
    kf[k].value as real
  }

  /** How far ms is into the segment that ends at keyframe k. */
  function Fraction(kf: seq<Keyframe>, k: nat, ms: nat): (t: real)
    requires 0 < k < |kf| && kf[k - 1].ms <= ms <= kf[k].ms && kf[k - 1].ms < kf[k].ms
    ensures 0.0 <= t <= 1.0
  {
    (ms - kf[k - 1].ms) as real / (kf[k].ms - kf[k - 1].ms) as real
  }

  /** The curve's value in the segment that ends at keyframe k; at either end of the
      group the missing outer neighbour is replaced by the keyframe next to it. */
  function Segment(linear: bool, kf: seq<Keyframe>, k: nat, t: real): real
    requires 0 < k < |kf|
  {
    Curve.At(linear,
             if k >= 2 then Value(kf, k - 2) else Value(kf, k - 1),
             Value(kf, k - 1),
             Value(kf, k),
             if k < |kf| - 1 then Value(kf, k + 1) else Value(kf, k),
             t)
  }

  function Interpolate(linear: bool, kf: seq<Keyframe>, ms: nat): real
    requires Defined(kf, ms)
  {
    if ms >= Last(kf).ms then Value(kf, |kf| - 1)
    else
      var k := Seek(kf, ms, 1);
      Segment(linear, kf, k, Fraction(kf, k, ms))
  }

  /** The search loop and the choice of control values. */
  method InterpolateKeyframe(linear: bool, kf: seq<Keyframe>, ms: nat) returns (v: real)
    requires Defined(kf, ms)
    ensures v == Interpolate(linear, kf, ms)
  {
    var n := |kf|;
    if ms >= kf[n - 1].ms { return kf[n - 1].value as real; }
    var key1, key2, key3, key4 := 0.0, 0.0, 0.0, 0.0;
    var ki := 0;
    var k := 0;
    while k < n
      invariant 0 <= k <= Seek(kf, ms, 1) < n
      invariant ki == 0
    {
      if kf[k].ms >= ms && k > 0 {
        assert k == Seek(kf, ms, 1);
        key1, key2, key3, key4 := kf[k].value as real, kf[k].value as real, kf[k].value as real, kf[k].value as real;
        ki := k - 1;
        key1, key2 := kf[ki].value as real, kf[ki].value as real;
        if ki > 0 {
          ki := ki - 1;
          key1 := kf[ki].value as real;
        }
        ki := k;
        if ki < n - 1 {
          ki := ki + 1;
          key4 := kf[ki].value as real;
        }
        ki := k;
        break;
      }
      k := k + 1;
    }
    var lastMs := kf[if ki > 0 then ki - 1 else 0].ms;
    var t := (ms - lastMs) as real / (kf[ki].ms - lastMs) as real;
    v := Curve.At(linear, key1, key2, key3, key4, t);
  }

  /** Ordered groups that start at time zero can be asked for any time. */
  lemma AlwaysDefined(kf: seq<Keyframe>, ms: nat)
    requires |kf| >= 2 && Ordered(kf) && kf[0].ms == 0
    ensures Defined(kf, ms)
  {
  }

  lemma SegmentEnds(linear: bool, kf: seq<Keyframe>, k: nat)
    requires 0 < k < |kf|
    ensures Segment(linear, kf, k, 0.0) == Value(kf, k - 1)
    ensures Segment(linear, kf, k, 1.0) == Value(kf, k)
  {
    var p0 := if k >= 2 then Value(kf, k - 2) else Value(kf, k - 1);
    var p3 := if k < |kf| - 1 then Value(kf, k + 1) else Value(kf, k);
    Curve.Ends(linear, p0, Value(kf, k - 1), Value(kf, k), p3);
  }

  lemma SeekKeyframe(kf: seq<Keyframe>, j: nat)
    requires |kf| >= 2 && Ordered(kf) && j < |kf|
    ensures Seek(kf, kf[j].ms, 1) == if j == 0 then 1 else j
  {
    assert kf[0].ms < kf[1].ms;
  }

  lemma FractionEnds(kf: seq<Keyframe>, k: nat)
    requires 0 < k < |kf| && kf[k - 1].ms < kf[k].ms
    ensures Fraction(kf, k, kf[k - 1].ms) == 0.0
    ensures Fraction(kf, k, kf[k].ms) == 1.0
  {
  }

  /** The interpolation passes through every keyframe. */
  lemma PassesThrough(linear: bool, kf: seq<Keyframe>, j: nat)
    requires |kf| >= 2 && Ordered(kf) && j < |kf|
    ensures Defined(kf, kf[j].ms)
    ensures Interpolate(linear, kf, kf[j].ms) == Value(kf, j)
  {
    if j < |kf| - 1 {
      var k := if j == 0 then 1 else j;
      SeekKeyframe(kf, j);
      FractionEnds(kf, k);
      SegmentEnds(linear, kf, k);
    }
  }

  ghost predicate ValuesWithin(kf: seq<Keyframe>, lo: int, hi: int) {
    forall i :: 0 <= i < |kf| ==> lo <= kf[i].value <= hi
  }

  /** The interpolation overshoots the values' range by an eighth of it at most. */
  lemma Bounded(linear: bool, kf: seq<Keyframe>, ms: nat, lo: int, hi: int)
    requires Defined(kf, ms) && ValuesWithin(kf, lo, hi)
    ensures var over := (hi - lo) as real * 0.125;
            lo as real - over <= Interpolate(linear, kf, ms) <= hi as real + over
  {
    var n := |kf|;
    if ms >= Last(kf).ms {
      assert lo <= Last(kf).value <= hi;
    } else {
      var k := Seek(kf, ms, 1);
      var p0 := if k >= 2 then Value(kf, k - 2) else Value(kf, k - 1);
      var p3 := if k < n - 1 then Value(kf, k + 1) else Value(kf, k);
      Curve.Overshoot(linear, p0, Value(kf, k - 1), Value(kf, k), p3, Fraction(kf, k, ms), lo as real, hi as real);
    }
  }

  /** In linear mode it stays between the two neighbouring keyframes. */
  lemma LinearBetween(kf: seq<Keyframe>, ms: nat)
    requires Defined(kf, ms) && ms < Last(kf).ms
    ensures var k := Seek(kf, ms, 1);
            var v := Interpolate(true, kf, ms);
            Value(kf, k - 1) <= v <= Value(kf, k) || Value(kf, k) <= v <= Value(kf, k - 1)
  {
    var k := Seek(kf, ms, 1);
    Curve.LineBetween(Value(kf, k - 1), Value(kf, k), Fraction(kf, k, ms));
  }

  /** Continuity: in every segment the value is close to each end's keyframe in
      proportion to the time from it. */
  lemma ContinuousAtKeyframes(linear: bool, kf: seq<Keyframe>, ms: nat, lo: int, hi: int)
    requires Defined(kf, ms) && ms < Last(kf).ms && ValuesWithin(kf, lo, hi)
    ensures var k := Seek(kf, ms, 1);
            var v, t := Interpolate(linear, kf, ms), Fraction(kf, k, ms);
            var start, end := Curve.Reach(lo as real, hi as real, t), Curve.Reach(lo as real, hi as real, 1.0 - t);
            && -start <= v - Value(kf, k - 1) <= start
            && -end <= v - Value(kf, k) <= end
  {
    var n, k := |kf|, Seek(kf, ms, 1);
    var p0 := if k >= 2 then Value(kf, k - 2) else Value(kf, k - 1);
    var p3 := if k < n - 1 then Value(kf, k + 1) else Value(kf, k);
    Curve.Continuous(linear, p0, Value(kf, k - 1), Value(kf, k), p3, Fraction(kf, k, ms), lo as real, hi as real);
  }

  function Edited(kf: seq<Keyframe>, j: nat, value: int): (r: seq<Keyframe>)
    requires j < |kf|
  {
    kf[j := Keyframe(value, kf[j].ms)]
  }

  /** A segment does not see a keyframe that is none of its four control values. */
  lemma SegmentIsLocal(linear: bool, kf: seq<Keyframe>, j: nat, value: int, k: nat, t: real)
    requires 0 < k < |kf| && j < |kf| && (k + 1 < j || j + 2 < k)
    ensures Segment(linear, Edited(kf, j, value), k, t) == Segment(linear, kf, k, t)
  {
  }

  lemma LocalSegment(linear: bool, kf: seq<Keyframe>, j: nat, value: int, ms: nat)
    requires j < |kf| && Defined(kf, ms) && ms < Last(kf).ms
    requires var k := Seek(kf, ms, 1); k + 1 < j || j + 2 < k
    ensures var e := Edited(kf, j, value);
            Defined(e, ms) && Interpolate(linear, e, ms) == Interpolate(linear, kf, ms)
  {
    var k := Seek(kf, ms, 1);
    SameTimes(kf, Edited(kf, j, value), ms, 1);
    SegmentIsLocal(linear, kf, j, value, k, Fraction(kf, k, ms));
  }

  lemma LocalBefore(linear: bool, kf: seq<Keyframe>, j: nat, value: int, ms: nat)
    requires Ordered(kf) && 2 <= j < |kf| && Defined(kf, ms) && ms <= kf[j - 2].ms
    ensures var e := Edited(kf, j, value);
            Defined(e, ms) && Interpolate(linear, e, ms) == Interpolate(linear, kf, ms)
  {
    SeekKeyframe(kf, j - 2);
    SeekIsMonotone(kf, ms, kf[j - 2].ms, 1);
    if j == 2 {
      assert ms == kf[0].ms;
      PassesThrough(linear, kf, 0);
      PassesThrough(linear, Edited(kf, j, value), 0);
    } else {
      LocalSegment(linear, kf, j, value, ms);
    }
  }

  lemma LocalAfter(linear: bool, kf: seq<Keyframe>, j: nat, value: int, ms: nat)
    requires Ordered(kf) && j + 2 < |kf| && Defined(kf, ms) && kf[j + 2].ms <= ms
    ensures var e := Edited(kf, j, value);
            Defined(e, ms) && Interpolate(linear, e, ms) == Interpolate(linear, kf, ms)
  {
    if ms == kf[j + 2].ms {
      PassesThrough(linear, kf, j + 2);
      PassesThrough(linear, Edited(kf, j, value), j + 2);
    } else {
      LocalBeyond(linear, kf, j, value, ms);
    }
  }

  lemma LocalBeyond(linear: bool, kf: seq<Keyframe>, j: nat, value: int, ms: nat)
    requires Ordered(kf) && j + 2 < |kf| && Defined(kf, ms) && kf[j + 2].ms < ms
    ensures var e := Edited(kf, j, value);
            Defined(e, ms) && Interpolate(linear, e, ms) == Interpolate(linear, kf, ms)
  {
    if ms < Last(kf).ms {
      SeekKeyframe(kf, j + 2);
      SeekIsMonotone(kf, kf[j + 2].ms, ms, 1);
      LocalSegment(linear, kf, j, value, ms);
    }
  }

  /** Locality: editing one value changes nothing from two keyframes before it back and
      from two keyframes after it on. */
  lemma Local(linear: bool, kf: seq<Keyframe>, j: nat, value: int, ms: nat)
    requires Ordered(kf) && j < |kf| && Defined(kf, ms)
    requires (j >= 2 && ms <= kf[j - 2].ms) || (j + 2 < |kf| && kf[j + 2].ms <= ms)
    ensures var e := Edited(kf, j, value);
            Defined(e, ms) && Interpolate(linear, e, ms) == Interpolate(linear, kf, ms)
  {
    if j >= 2 && ms <= kf[j - 2].ms { LocalBefore(linear, kf, j, value, ms); }
    else { LocalAfter(linear, kf, j, value, ms); }
  }

  lemma {:induction false} SeekIsMonotone(kf: seq<Keyframe>, ms: nat, later: nat, k: nat)
    requires ms <= later && k <= |kf|
    ensures Seek(kf, ms, k) <= Seek(kf, later, k)
    decreases |kf| - k
  {
    if k < |kf| && kf[k].ms < ms { SeekIsMonotone(kf, ms, later, k + 1); }
  }

  lemma {:induction false} SameTimes(kf: seq<Keyframe>, other: seq<Keyframe>, ms: nat, k: nat)
    requires |kf| == |other| && k <= |kf| && forall i :: 0 <= i < |kf| ==> kf[i].ms == other[i].ms
    ensures Seek(kf, ms, k) == Seek(other, ms, k)
    decreases |kf| - k
  {
    if k < |kf| && kf[k].ms < ms { SameTimes(kf, other, ms, k + 1); }
  }

  // Rebasing

  /** All values lowered by d. */
  function Lowered(kf: seq<Keyframe>, d: int): (r: seq<Keyframe>)
    ensures |r| == |kf|
    ensures forall i :: 0 <= i < |kf| ==> r[i] == Keyframe(kf[i].value - d, kf[i].ms)
  {
    seq(|kf|, i requires 0 <= i < |kf| => Keyframe(kf[i].value - d, kf[i].ms))
  }

  lemma SegmentLowered(linear: bool, kf: seq<Keyframe>, d: int, k: nat, t: real)
    requires 0 < k < |kf|
    ensures Segment(linear, Lowered(kf, d), k, t) == Segment(linear, kf, k, t) - d as real
  {
    var p0 := if k >= 2 then Value(kf, k - 2) else Value(kf, k - 1);
    var p3 := if k < |kf| - 1 then Value(kf, k + 1) else Value(kf, k);
    Curve.Translated(linear, p0, Value(kf, k - 1), Value(kf, k), p3, d as real, t);
  }

  /** Rebasing: the interpolated target moves with the values, at every time and in both
      modes, so the distance to a position moved alike stays what it was. */
  lemma RebasingKeepsDistance(linear: bool, kf: seq<Keyframe>, d: int, position: int, ms: nat)
    requires Defined(kf, ms)
    ensures Defined(Lowered(kf, d), ms)
    ensures Interpolate(linear, Lowered(kf, d), ms) - (position - d) as real
            == Interpolate(linear, kf, ms) - position as real
  {
    if ms < Last(kf).ms {
      SameTimes(kf, Lowered(kf, d), ms, 1);
      var k := Seek(kf, ms, 1);
      SegmentLowered(linear, kf, d, k, Fraction(kf, k, ms));
    }
  }

  /** C's conversion of a target to whole steps, towards zero. */
  function Truncate(x: real): int {
    if x >= 0.0 then x.Floor else -((-x).Floor)
  }

  /** With the targets cut to whole steps, rebasing changes a move by one step at most. */
  lemma RebasingMovesOneStep(linear: bool, kf: seq<Keyframe>, d: int, position: int, ms: nat)
    requires Defined(kf, ms)
    ensures Defined(Lowered(kf, d), ms)
    ensures var before := Truncate(Interpolate(linear, kf, ms)) - position;
            var after := Truncate(Interpolate(linear, Lowered(kf, d), ms)) - (position - d);
            -1 <= after - before <= 1
  {
    RebasingKeepsDistance(linear, kf, d, 0, ms);
  }

  // Adding a keyframe on the line

  function Inserted(kf: seq<Keyframe>, i: nat, f: Keyframe): (r: seq<Keyframe>)
    requires i <= |kf|
  {
    kf[..i] + [f] + kf[i..]
  }

  /** A straight line by its gradient. */
  lemma ByGradient(va: real, vc: real, a: real, c: real, m: real)
    requires a < c
    ensures Curve.Line(va, vc, (m - a) / (c - a)) == va + (vc - va) / (c - a) * (m - a)
  {
    assert (m - a) / (c - a) * (vc - va) == (vc - va) / (c - a) * (m - a);
  }

  lemma SameGradient(v: real, g: real, x: real)
    requires x > 0.0 && v == g * x
    ensures v / x == g
  {
  }

  /** A point on a line splits it into two with the same gradient. */
  lemma SplitLine(va: real, vb: real, vc: real, a: real, b: real, c: real, m: real)
    requires a < b < c
    requires vb == Curve.Line(va, vc, (b - a) / (c - a))
    ensures Curve.Line(va, vb, (m - a) / (b - a)) == Curve.Line(va, vc, (m - a) / (c - a))
    ensures Curve.Line(vb, vc, (m - b) / (c - b)) == Curve.Line(va, vc, (m - a) / (c - a))
  {
    var g := (vc - va) / (c - a);
    ByGradient(va, vc, a, c, b);
    ByGradient(va, vc, a, c, m);
    ByGradient(va, vb, a, b, m);
    ByGradient(vb, vc, b, c, m);
    SameGradient(vb - va, g, b - a);
    assert g * (c - a) == vc - va;
    assert vc - vb == g * (c - b);
    SameGradient(vc - vb, g, c - b);
    assert vb + g * (m - b) == va + g * (m - a);
  }

  lemma SeekIs(kf: seq<Keyframe>, ms: nat, k: nat, r: nat)
    requires k <= r < |kf| && kf[r].ms >= ms && forall j :: k <= j < r ==> kf[j].ms < ms
    ensures Seek(kf, ms, k) == r
  {
  }

  /** Where the search ends once f is inserted before keyframe i. */
  function SeekAfter(k: nat, i: nat, f: Keyframe, ms: nat): nat {
    if k < i || (k == i && ms <= f.ms) then k else k + 1
  }

  lemma SeekInserted(kf: seq<Keyframe>, i: nat, f: Keyframe, ms: nat)
    requires 0 < i < |kf| && kf[i - 1].ms < f.ms < kf[i].ms && Ordered(kf)
    requires ms < Last(kf).ms
    ensures Seek(Inserted(kf, i, f), ms, 1) == SeekAfter(Seek(kf, ms, 1), i, f, ms)
  {
    var kf', r := Inserted(kf, i, f), SeekAfter(Seek(kf, ms, 1), i, f, ms);
    forall j | 1 <= j < r ensures kf'[j].ms < ms { InsertedFrames(kf, i, f, j); }
    InsertedFrames(kf, i, f, r);
    SeekIs(kf', ms, 1, r);
  }

  /** The straight line from a to c, at time m. */
  function LineAt(a: Keyframe, c: Keyframe, m: nat): real
    requires a.ms < c.ms
  {
    Curve.Line(a.value as real, c.value as real, (m - a.ms) as real / (c.ms - a.ms) as real)
  }

  lemma LinearIsLine(kf: seq<Keyframe>, ms: nat)
    requires Defined(kf, ms) && ms < Last(kf).ms
    ensures var k := Seek(kf, ms, 1); Interpolate(true, kf, ms) == LineAt(kf[k - 1], kf[k], ms)
  {
  }

  lemma SplitKeyframes(a: Keyframe, b: Keyframe, c: Keyframe, m: nat)
    requires a.ms < b.ms < c.ms && b.value as real == LineAt(a, c, b.ms)
    ensures LineAt(a, b, m) == LineAt(a, c, m) && LineAt(b, c, m) == LineAt(a, c, m)
  {
    SplitLine(a.value as real, b.value as real, c.value as real, a.ms as real, b.ms as real, c.ms as real, m as real);
  }

  lemma InsertedDefined(kf: seq<Keyframe>, i: nat, f: Keyframe, ms: nat)
    requires 0 < i < |kf| && kf[i - 1].ms < f.ms < kf[i].ms && Defined(kf, ms)
    ensures Last(Inserted(kf, i, f)) == Last(kf)
    ensures Defined(Inserted(kf, i, f), ms)
  {
    var kf' := Inserted(kf, i, f);
    assert kf'[0] == kf[0];
    assert i == 1 ==> kf'[1] == f;
    assert i > 1 ==> kf'[1] == kf[1];
  }

  lemma InsertedFrames(kf: seq<Keyframe>, i: nat, f: Keyframe, j: nat)
    requires i <= |kf| && j <= |kf|
    ensures |Inserted(kf, i, f)| == |kf| + 1
    ensures Inserted(kf, i, f)[j] == if j < i then kf[j] else if j == i then f else kf[j - 1]
  {
  }

  /** The line through which time ms is interpolated stays the same line. */
  lemma InsertedLine(kf: seq<Keyframe>, i: nat, f: Keyframe, ms: nat, k: nat)
    requires 0 < i < |kf| && kf[i - 1].ms < f.ms < kf[i].ms && Ordered(kf)
    requires f.value as real == LineAt(kf[i - 1], kf[i], f.ms)
    requires 0 < k < |kf|
    ensures var k' := SeekAfter(k, i, f, ms);
            && 0 < k' <= |kf|
            && Inserted(kf, i, f)[k' - 1].ms < Inserted(kf, i, f)[k'].ms
            && LineAt(Inserted(kf, i, f)[k' - 1], Inserted(kf, i, f)[k'], ms) == LineAt(kf[k - 1], kf[k], ms)
  {
    var k' := SeekAfter(k, i, f, ms);
    InsertedFrames(kf, i, f, k' - 1);
    InsertedFrames(kf, i, f, k');
    if k == i { SplitKeyframes(kf[i - 1], f, kf[i], ms); }
  }

  /** In linear mode, adding a keyframe strictly between two others with the value found
      there changes nothing at any time. */
  lemma OnTheLine(kf: seq<Keyframe>, i: nat, f: Keyframe, ms: nat)
    requires Ordered(kf) && 0 < i < |kf| && kf[i - 1].ms < f.ms < kf[i].ms
    requires f.value as real == LineAt(kf[i - 1], kf[i], f.ms)
    requires Defined(kf, ms)
    ensures Defined(Inserted(kf, i, f), ms)
    ensures Interpolate(true, Inserted(kf, i, f), ms) == Interpolate(true, kf, ms)
  {
    InsertedDefined(kf, i, f, ms);
    var kf' := Inserted(kf, i, f);
    if ms < Last(kf).ms {
      SeekInserted(kf, i, f, ms);
      LinearIsLine(kf, ms);
      LinearIsLine(kf', ms);
      InsertedLine(kf, i, f, ms, Seek(kf, ms, 1));
    } else {
      assert Interpolate(true, kf', ms) == Last(kf).value as real;
    }
  }
}
