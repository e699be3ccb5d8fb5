/**
 Whether the allocator leaves an ISO step that would still fit, and exactly when. A closing
 step reduces an aperture beyond its upper limit; the last loop then steps back and makes
 room that ISO is not offered again.
 */
module ExposureOptimality {
  import opened BulbShift
  import opened Steppers
  import opened Exposure
  import opened ExposureTheorems
  import opened ExposureBytes

  /** The allocation leaves an ISO step that would still fit. */
  ghost predicate IsoStepLeft(l: Limits, exp: nat, aperture: nat, iso: nat)
    requires l.Ordered()
  {
    var a := Allocate(l, exp, aperture, iso);
    Usable(l, exp, a.shift, a.iso, l.IsoDown(a.iso))
  }

  /** A closing step would open the aperture instead. */
  predicate StepsBack(l: Limits, ev: nat)
    requires l.apertures != []
  {
    l.ApertureUp(ev) < ev < NOT_A_STOP
  }

  /** Where opening the aperture ends: the lens's widest stop, or the lower limit. */
  function Widest(l: Limits): nat
    requires l.apertures != []
  {
    Max(l.apertures[0], l.apertureMin)
  }

  /** What aperture and limits have to be like for ISO to be spent: neither the current
      aperture nor the widest is one that a closing step reduces. */
  predicate KeepsRoom(l: Limits, aperture: nat)
    requires l.apertures != []
  {
    !StepsBack(l, aperture) && !StepsBack(l, Widest(l))
  }

  /** The widest stop steps back exactly when the limits are the wrong way round or do not
      overlap the lens's range. */
  lemma WidestStepsBackExactly(l: Limits)
    requires l.Ordered() && l.apertures != [] && Listed(l)
    ensures StepsBack(l, Widest(l)) <==>
            l.apertureMax < l.apertureMin || l.apertureMax < l.apertures[0] || Last(l.apertures) < l.apertureMin
  {
    var w := Widest(l);
    var k := IndexOf(l.apertures, w);
    if k < |l.apertures| { assert l.apertures[k] == w; }
  }

  lemma OpeningStepKeepsRoom(l: Limits, aperture: nat)
    requires l.Ordered() && l.apertures != [] && Listed(l) && KeepsRoom(l, aperture)
    ensures KeepsRoom(l, l.ApertureDown(aperture))
  {
    var k, next := IndexOf(l.apertures, aperture), l.ApertureDown(aperture);
    if 0 < k < |l.apertures| && l.apertureMin < l.apertures[k - 1] {
      assert l.apertures[k - 1] < l.apertures[k] == aperture;
      assert IndexOf(l.apertures, next) == k - 1;
    } else {
      assert next == Widest(l);
    }
  }

  lemma {:induction false} OpeningKeepsRoom(l: Limits, exp: nat, a: Alloc)
    requires l.Ordered() && l.apertures != [] && Listed(l) && KeepsRoom(l, a.aperture)
    ensures KeepsRoom(l, OpenAperture(l, exp, a).aperture)
    decreases DownRank(l, a.aperture)
  {
    RanksDecrease(l, a.aperture);
    var next := l.ApertureDown(a.aperture);
    if a.bulb > l.bulbMax && next != a.aperture {
      OpeningStepKeepsRoom(l, a.aperture);
      OpeningKeepsRoom(l, exp, a.WithAperture(exp, next));
    }
  }

  /** From a settled value the closing loop only ever closes. */
  lemma {:induction false} ClosingSettled(l: Limits, exp: nat, a: Alloc)
    requires l.Ordered() && l.apertures != [] && SettledUp(l.apertures, l.apertureMax, a.aperture)
    ensures a.aperture <= CloseAperture(l, exp, a).aperture
    decreases UpRank(l, a.aperture)
  {
    RanksDecrease(l, a.aperture);
    var next := l.ApertureUp(a.aperture);
    if Usable(l, exp, a.shift, a.aperture, next) {
      ApertureUpSteps(l.apertures, l.apertureMax, a.aperture);
      ClosingSettled(l, exp, a.WithAperture(exp, next));
    }
  }

  /** A closing step opens the aperture only from a value that is not settled. */
  lemma SettledUpExactly(l: Limits, ev: nat)
    requires l.Ordered() && l.apertures != []
    ensures SettledUp(l.apertures, l.apertureMax, ev) <==> ev <= l.ApertureUp(ev)
  {
    ApertureUpSteps(l.apertures, l.apertureMax, ev);
  }

  /** The closing loop never shortens the time, from a value it does not step back from. */
  lemma ClosingCloses(l: Limits, exp: nat, a: Alloc)
    requires l.Ordered() && l.apertures != [] && l.Tabled() && a.Tabled() && !StepsBack(l, a.aperture)
    ensures var r := CloseAperture(l, exp, a); r.Tabled() && r.iso == a.iso && r.shift >= a.shift
  {
    CloseApertureEnds(l, exp, a);
    ClosingFollows(l, exp, a);
    ClosingSide(l, exp, a);
    if a.aperture < NOT_A_STOP {
      SettledUpExactly(l, a.aperture);
      ClosingSettled(l, exp, a);
    }
  }

  /** The time that an ISO step from here would come to. */
  lemma UsableTabled(l: Limits, exp: nat, a: Alloc)
    requires l.isos != [] && l.Tabled() && a.Tabled()
    ensures var next := l.IsoDown(a.iso);
            Usable(l, exp, a.shift, a.iso, next) <==>
            next != a.iso && next < NOT_A_STOP && Shifted(exp, a.shift + Fold(next) - Fold(a.iso)) < l.bulbMax
  {
    StepsAreTabled(l, a.iso);
    FoldedStep(a.shift, a.iso, l.IsoDown(a.iso));
  }

  /** Closing the aperture only takes room away from ISO. */
  lemma ClosingKeepsIsoSpent(l: Limits, exp: nat, a: Alloc)
    requires l.Ordered() && l.apertures != [] && l.isos != [] && l.Tabled() && a.Tabled()
    requires !StepsBack(l, a.aperture) && !Usable(l, exp, a.shift, a.iso, l.IsoDown(a.iso))
    ensures var r := CloseAperture(l, exp, a); !Usable(l, exp, r.shift, r.iso, l.IsoDown(r.iso))
  {
    ClosingCloses(l, exp, a);
    LongerIsNoBetter(l, exp, a, CloseAperture(l, exp, a));
  }

  /** A step that does not fit does not fit a longer time either. */
  lemma LongerIsNoBetter(l: Limits, exp: nat, a: Alloc, r: Alloc)
    requires l.isos != [] && l.Tabled() && a.Tabled() && r.Tabled() && r.iso == a.iso && a.shift <= r.shift
    requires !Usable(l, exp, a.shift, a.iso, l.IsoDown(a.iso))
    ensures !Usable(l, exp, r.shift, r.iso, l.IsoDown(r.iso))
  {
    var step := Fold(l.IsoDown(a.iso)) - Fold(a.iso);
    UsableTabled(l, exp, a);
    UsableTabled(l, exp, r);
    ShiftedMonotone(exp, a.shift + step, r.shift + step);
  }

  /** Local optimality for ISO, from every code a camera can report: no further ISO step
      would fit, unless the aperture, or the widest one, is one a closing step reduces. */
  lemma NoIsoStepLeft(l: Limits, exp: nat, aperture: nat, iso: nat)
    requires l.Ordered() && l.IsoOn() && Listed(l) && ApertureCode(aperture) && IsoCode(iso)
    requires l.ApertureOn() ==> KeepsRoom(l, aperture)
    ensures !IsoStepLeft(l, exp, aperture, iso)
  {
    ListedTabled(l);
    var a0 := Alloc(aperture, iso, 0, exp);
    var a1 := if l.ApertureOn() then OpenAperture(l, exp, a0) else a0;
    var a2 := Shortened(l, exp, aperture, iso);
    RaiseIsoEnds(l, exp, a1);
    LowerIsoEnds(l, exp, a2);
    if l.ApertureOn() {
      OpeningKeepsRoom(l, exp, a0);
      ShortenedFollows(l, exp, aperture, iso);
      LoweringFollows(l, exp, a2);
      ClosingKeepsIsoSpent(l, exp, LowerIso(l, exp, a2));
    }
  }

  // Where it fails

  /** A closing step that opens the aperture instead lands on a value it keeps. */
  lemma BackstepIsFinal(l: Limits, ev: nat)
    requires l.Ordered() && l.apertures != [] && l.ApertureUp(ev) < ev
    ensures l.ApertureUp(l.ApertureUp(ev)) == l.ApertureUp(ev)
  {
    var k, next := IndexOf(l.apertures, ev), l.ApertureUp(ev);
    if k < |l.apertures| { assert l.apertures[k] == ev; }
    var j := IndexOf(l.apertures, next);
    if j < |l.apertures| { assert l.apertures[j] == next; }
  }

  /** The closing loop takes the step back and stops there. */
  lemma ClosingStepsBack(l: Limits, exp: nat, a: Alloc)
    requires l.Ordered() && l.apertures != []
    requires l.ApertureUp(a.aperture) < a.aperture
    requires Usable(l, exp, a.shift, a.aperture, l.ApertureUp(a.aperture))
    ensures CloseAperture(l, exp, a) == a.WithAperture(exp, l.ApertureUp(a.aperture))
  {
    BackstepIsFinal(l, a.aperture);
    var r := a.WithAperture(exp, l.ApertureUp(a.aperture));
    assert CloseAperture(l, exp, r) == r;
  }

  /** Stepping the aperture back after ISO was settled makes room for a further ISO step
      that missed by less than a third-stop. */
  lemma BackstepMakesRoom(l: Limits, exp: nat, aperture: nat, iso: nat, a: Alloc)
    requires l.Ordered() && l.IsoOn() && l.ApertureOn() && l.Tabled() && a.Tabled() && StepsBack(l, a.aperture)
    requires Shortened(l, exp, aperture, iso) == a == LowerIso(l, exp, a)
    requires a.iso < l.IsoDown(a.iso) < NOT_A_STOP
    requires Shifted(exp, a.shift + l.IsoDown(a.iso) - a.iso - 1) < l.bulbMax
    ensures IsoStepLeft(l, exp, aperture, iso)
  {
    BackstepIsTaken(l, exp, a, l.IsoDown(a.iso) - a.iso - 1);
    IsoFitsAfterBackstep(l, exp, a);
  }

  lemma IsoFitsAfterBackstep(l: Limits, exp: nat, a: Alloc)
    requires l.apertures != [] && l.isos != [] && l.Tabled() && a.Tabled() && StepsBack(l, a.aperture)
    requires a.iso < l.IsoDown(a.iso) < NOT_A_STOP
    requires Shifted(exp, a.shift + l.IsoDown(a.iso) - a.iso - 1) < l.bulbMax
    ensures var r := a.WithAperture(exp, l.ApertureUp(a.aperture)); Usable(l, exp, r.shift, r.iso, l.IsoDown(r.iso))
  {
    var down := l.IsoDown(a.iso) - a.iso;
    BackstepTabled(l, exp, a);
    var r := a.WithAperture(exp, l.ApertureUp(a.aperture));
    UsableTabled(l, exp, r);
    ShiftedMonotone(exp, r.shift + down, a.shift + down - 1);
  }

  lemma BackstepIsTaken(l: Limits, exp: nat, a: Alloc, more: nat)
    requires l.Ordered() && l.apertures != [] && l.Tabled() && a.Tabled() && StepsBack(l, a.aperture)
    requires Shifted(exp, a.shift + more) < l.bulbMax
    ensures CloseAperture(l, exp, a) == a.WithAperture(exp, l.ApertureUp(a.aperture))
  {
    BackstepTabled(l, exp, a);
    ShiftedMonotone(exp, a.WithAperture(exp, l.ApertureUp(a.aperture)).shift, a.shift + more);
    ClosingStepsBack(l, exp, a);
  }

  lemma BackstepTabled(l: Limits, exp: nat, a: Alloc)
    requires l.apertures != [] && l.Tabled() && a.Tabled() && StepsBack(l, a.aperture)
    ensures var r := a.WithAperture(exp, l.ApertureUp(a.aperture));
            r.Tabled() && r.shift < a.shift && r.shift == Add8(a.shift, r.aperture - a.aperture)
  {
    StepsAreTabled(l, a.aperture);
    ApertureTabled(exp, a, l.ApertureUp(a.aperture));
  }

  /** The camera's ISO list and its limit replaced. */
  function With(l: Limits, isos: seq<nat>, isoMax: nat): Limits {
    l.(isos := isos, isoMax := isoMax)
  }

  /** An ISO list that ends in a step of x and one of a third-stop, at ISO 81000. */
  function Steps(x: nat): seq<nat> { [x + 15, 15, 14] }

  lemma TwoSteps(x: nat)
    requires 0 < x <= 33
    ensures var isos := Steps(x);
            && Decreasing(isos) && IndexOf(isos, x + 15) == 0 && IndexOf(isos, 15) == 1 && IndexOf(isos, 14) == 2
            && (forall k :: 0 <= k < |isos| ==> 14 <= isos[k] <= 48)
  {
    var isos := Steps(x);
    assert isos[0] == x + 15 && isos[1] == 15 && isos[2] == 14;
  }

  lemma OneStepLonger(b: nat)
    requires b >= 8
    ensures b <= Shifted(b - 1, 1)
  {
    ScaledStep(b - 1, 0);
    assert Scaled(b - 1, 0) == (b - 1) as real;
  }

  /** The first family where local optimality fails: from every aperture that a closing
      step reduces, whatever the bulb's maximum, a frame a millisecond below it leaves room
      that ISO could have used. */
  lemma BackstepLeavesIsoStep(l: Limits, exp: nat, aperture: nat)
    requires l.Ordered() && l.IsoOn() && l.ApertureOn() && Listed(l) && l.bulbMax == exp + 1 >= 8
    requires ApertureCode(aperture) && StepsBack(l, aperture) && l.isos == Steps(1)
    ensures IsoStepLeft(l, exp, aperture, 14)
  {
    ListedTabled(l);
    var a0 := Alloc(aperture, 14, 0, exp);
    TwoSteps(1);
    OneStepLonger(l.bulbMax);
    ShiftedByZero(exp);
    assert Shortened(l, exp, aperture, 14) == a0;
    assert LowerIso(l, exp, a0) == a0;
    BackstepMakesRoom(l, exp, aperture, 14, a0);
  }

  /** While the bulb stays too long, the aperture is opened all the way. */
  lemma {:induction false} OpensToWidest(l: Limits, exp: nat, a: Alloc, low: int)
    requires l.Ordered() && l.apertures != [] && Listed(l) && a.Tabled()
    requires a.bulb > l.bulbMax && Shifted(exp, low) > l.bulbMax
    requires low <= a.shift + Widest(l) - Fold(a.aperture)
    ensures var r := OpenAperture(l, exp, a); r.aperture == Widest(l) && r.iso == a.iso && r.bulb > l.bulbMax
    decreases DownRank(l, a.aperture)
  {
    ListedTabled(l);
    RanksDecrease(l, a.aperture);
    StepsAreTabled(l, a.aperture);
    var next := l.ApertureDown(a.aperture);
    OpeningStepIsAtLeastWidest(l, a.aperture);
    if next != a.aperture {
      ApertureTabled(exp, a, next);
      var r := a.WithAperture(exp, next);
      ShiftedMonotone(exp, low, r.shift);
      OpensToWidest(l, exp, r, low);
    }
  }

  lemma OpeningStepIsAtLeastWidest(l: Limits, aperture: nat)
    requires l.Ordered() && l.apertures != []
    ensures Widest(l) <= l.ApertureDown(aperture)
    ensures l.ApertureDown(aperture) == aperture ==> aperture == Widest(l)
  {
    var k := IndexOf(l.apertures, aperture);
    if 0 < k < |l.apertures| { assert l.apertures[0] <= l.apertures[k - 1] < l.apertures[k]; }
  }

  lemma TwoStepsTabled(l: Limits, exp: nat, a: Alloc, x: nat)
    requires 0 < x <= 33 && a.Tabled() && a.iso == x + 15
    ensures var one := a.WithIso(exp, 15);
            var none := one.WithIso(exp, 14);
            && one.shift == a.shift - x && none == Alloc(a.aperture, 14, a.shift - x - 1, none.bulb) && none.Tabled()
  {
    IsoTabled(exp, a, 15);
    IsoTabled(exp, a.WithIso(exp, 15), 14);
  }

  /** The first of two steps does not make the bulb fit, so both are taken. */
  lemma RaisesTwice(l: Limits, exp: nat, a: Alloc, x: nat)
    requires l.Ordered() && l.Tabled() && 0 < x <= 33 && l.isos == Steps(x) && l.isoMax == 14
    requires a.Tabled() && a.iso == x + 15 && a.bulb > l.bulbMax && Shifted(exp, a.shift - x) > l.bulbMax
    ensures var r := RaiseIso(l, exp, a);
            && r == a.WithIso(exp, 15).WithIso(exp, 14) && l.IsoDown(14) == 15
  {
    TwoSteps(x);
    TwoStepsTabled(l, exp, a, x);
    var one := a.WithIso(exp, 15);
    var none := one.WithIso(exp, 14);
    assert RaiseIso(l, exp, none) == none;
    assert RaiseIso(l, exp, one) == none;
  }

  lemma LowersNoStep(l: Limits, exp: nat, a: Alloc)
    requires l.isos != [] && l.Tabled() && a.Tabled() && a.iso == 14 && l.IsoDown(14) == 15
    requires Shifted(exp, a.shift + 1) > l.bulbMax
    ensures LowerIso(l, exp, a) == a
  {
    UsableTabled(l, exp, a);
  }

  lemma OpensFromStart(l: Limits, exp: nat, a: Alloc, t: int)
    requires l.Ordered() && l.apertures != [] && Listed(l) && l.Tabled() && a.Tabled()
    requires a.shift == 0 && a.bulb == exp
    requires t <= 0 && t <= Widest(l) - Fold(a.aperture) && l.bulbMax < Shifted(exp, t)
    ensures var r := OpenAperture(l, exp, a);
            && r.Tabled() && r.aperture == Widest(l) && r.iso == a.iso && r.bulb > l.bulbMax
            && r.shift == Widest(l) - Fold(a.aperture)
  {
    ShiftedByZero(exp);
    ShiftedMonotone(exp, t, 0);
    OpensToWidest(l, exp, a, t);
    OpeningFollows(l, exp, a);
  }

  /** A frame whose bulb is too long all the way to the widest aperture and the first of
      two ISO steps. */
  lemma WideningShortens(l: Limits, exp: nat, aperture: nat, x: nat, t: int)
    requires l.Ordered() && l.IsoOn() && l.ApertureOn() && Listed(l) && l.Tabled()
    requires ApertureCode(aperture) && 0 < x <= 33 && l.isos == Steps(x) && l.isoMax == 14
    requires t == Widest(l) - Fold(aperture) - x <= 0 && l.bulbMax < Shifted(exp, t)
    ensures var a := Shortened(l, exp, aperture, x + 15);
            && a.Tabled() && a.aperture == Widest(l) && a.iso == 14 && a.shift == t - 1
            && LowerIso(l, exp, a) == a && l.IsoDown(14) == 15
  {
    var a0 := Alloc(aperture, x + 15, 0, exp);
    OpensFromStart(l, exp, a0, t);
    var a1 := OpenAperture(l, exp, a0);
    RaisesTwice(l, exp, a1, x);
    TwoStepsTabled(l, exp, a1, x);
    LowersNoStep(l, exp, RaiseIso(l, exp, a1));
  }

  lemma WideningMakesRoom(l: Limits, exp: nat, aperture: nat, x: nat, iso: nat)
    requires l.Ordered() && l.IsoOn() && l.ApertureOn() && Listed(l) && StepsBack(l, Widest(l))
    requires ApertureCode(aperture) && 0 < x <= 33 && iso == x + 15 && l.isos == Steps(x) && l.isoMax == 14
    requires var t := Widest(l) - Fold(aperture) - x;
             t <= 0 && Shifted(exp, t - 1) < l.bulbMax < Shifted(exp, t)
    ensures IsoStepLeft(l, exp, aperture, iso)
  {
    ListedTabled(l);
    WideningShortens(l, exp, aperture, x, Widest(l) - Fold(aperture) - x);
    BackstepMakesRoom(l, exp, aperture, iso, Shortened(l, exp, aperture, iso));
  }

  /** For every maximum of eight or more there is a time that just misses it at one shift and
      meets it a third-stop below. */
  lemma JustTooLong(ev: int, max: nat) returns (exp: nat)
    requires ev <= 0 && max >= 8
    ensures Shifted(exp, ev - 1) < max < Shifted(exp, ev)
  {
    var p := Power(-ev);
    exp := ((max + 1) as real * p).Floor + 1;
    InReach((max + 1) as real, p);
    Quotient(exp as real, p, (max + 1) as real, (max + 2) as real);
    ScaledStep(exp, ev - 1);
  }

  lemma InReach(m: real, p: real)
    requires p >= 1.0
    ensures m * p + 1.0 <= (m + 1.0) * p
  {
  }

  lemma TwoStepCamera(l: Limits, x: nat)
    requires l.Ordered() && Listed(l) && l.apertures != [] && 0 < x <= 33
    ensures var m := With(l, Steps(x), 14);
            m.Ordered() && Listed(m) && Widest(m) == Widest(l) && (StepsBack(l, Widest(l)) ==> StepsBack(m, Widest(m)))
  {
    TwoSteps(x);
  }

  lemma WideningFrame(l: Limits, exp: nat, aperture: nat, x: nat, iso: nat)
    requires l.Ordered() && l.IsoOn() && l.ApertureOn() && Listed(l) && StepsBack(l, Widest(l))
    requires ApertureCode(aperture) && 0 < x <= 33 && iso == x + 15
    requires var t := Widest(l) - Fold(aperture) - x;
             t <= 0 && Shifted(exp, t - 1) < l.bulbMax < Shifted(exp, t)
    ensures With(l, Steps(x), 14).Ordered() && Listed(With(l, Steps(x), 14))
    ensures IsoStepLeft(With(l, Steps(x), 14), exp, aperture, iso)
  {
    TwoStepCamera(l, x);
    WideningMakesRoom(With(l, Steps(x), 14), exp, aperture, x, iso);
  }

  lemma WideningChoice(l: Limits, aperture: nat) returns (x: nat, exp: nat)
    requires l.apertures != [] && Listed(l) && l.bulbMax >= 8 && ApertureCode(aperture)
    ensures 0 < x <= 33
    ensures var t := Widest(l) - Fold(aperture) - x;
            t <= 0 && Shifted(exp, t - 1) < l.bulbMax < Shifted(exp, t)
  {
    var w := Widest(l);
    x := if w > Fold(aperture) then w - Fold(aperture) else 1;
    exp := JustTooLong(w - Fold(aperture) - x, l.bulbMax);
  }

  /** The second family: with limits for which the widest aperture is one that a closing
      step reduces, whatever the bulb's maximum, there is a camera and a frame, from any
      aperture, that leaves a usable ISO step. */
  lemma WideningLeavesIsoStep(l: Limits, aperture: nat) returns (x: nat, exp: nat, iso: nat)
    requires l.Ordered() && l.IsoOn() && l.ApertureOn() && Listed(l) && l.bulbMax >= 8
    requires ApertureCode(aperture) && StepsBack(l, Widest(l))
    ensures With(l, Steps(x), 14).Ordered() && Listed(With(l, Steps(x), 14)) && IsoCode(iso)
    ensures IsoStepLeft(With(l, Steps(x), 14), exp, aperture, iso)
  {
    x, exp := WideningChoice(l, aperture);
    iso := x + 15;
    WideningFrame(l, exp, aperture, x, iso);
  }

  /** Limits the menu accepts, the two apertures the wrong way round: at f/3.2 to f/10, with
      ISO 20000, 64000 and 81000, a frame of 1.1 seconds leaves a usable ISO step although
      the current aperture is within its limit. */
  lemma CrossedLimits(l: Limits)
    requires l.Ordered() && l.IsoOn() && l.ApertureOn()
    requires l.apertures == [10, 20] && l.apertureMin == 15 && l.apertureMax == 10
    requires l.isos == [20, 15, 14] && l.isoMax == 14 && l.bulbMax == 1000
    ensures Listed(l) && !StepsBack(l, 10) && IsoStepLeft(l, 1100, 10, 20)
  {
    assert l.apertures[0] == 10 && l.apertures[1] == 20;
    assert IndexOf(l.apertures, 10) == 0 && IndexOf(l.apertures, 15) == 2;
    TwoSteps(5);
    ShiftedByZero(1100);
    ScaledStep(1100, -1);
    WideningMakesRoom(l, 1100, 10, 5, 20);
  }

  /** Whatever table stops the camera's ISO list and the ISO limit are, whatever the current
      ISO and the frame's time, no usable ISO step is left. */
  ghost predicate IsoAlwaysSpent(l: Limits, aperture: nat)
    requires l.Ordered()
  {
    forall isos: seq<nat>, isoMax: nat, exp: nat, iso: nat ::
      isos != [] && Decreasing(isos) && Listed(With(l, isos, isoMax)) && IsoCode(iso) ==>
        !IsoStepLeft(With(l, isos, isoMax), exp, aperture, iso)
  }

  /** Exactly when ISO is always spent, for each maximum of its own: nothing fits into no time
      at all; otherwise a closing step must reduce neither the current aperture nor the
      widest one. A caller can test that. Maxima are zero or table times. */
  lemma IsoAlwaysSpentExactly(l: Limits, aperture: nat)
    requires l.Ordered() && l.IsoOn() && l.ApertureOn() && Listed(l) && ApertureCode(aperture)
    requires l.bulbMax == 0 || l.bulbMax >= 8
    ensures IsoAlwaysSpent(l, aperture) <==> l.bulbMax == 0 || KeepsRoom(l, aperture)
  {
    if l.bulbMax == 0 {
      NoTimeSpends(l, aperture);
    } else if KeepsRoom(l, aperture) {
      KeptRoomSpends(l, aperture);
    } else if StepsBack(l, aperture) {
      BackstepNotSpent(l, aperture);
    } else {
      WideningNotSpent(l, aperture);
    }
  }

  lemma NoTimeSpends(l: Limits, aperture: nat)
    requires l.Ordered() && l.bulbMax == 0
    ensures IsoAlwaysSpent(l, aperture)
  {
  }

  lemma BackstepNotSpent(l: Limits, aperture: nat)
    requires l.Ordered() && l.IsoOn() && l.ApertureOn() && Listed(l) && l.bulbMax >= 8
    requires ApertureCode(aperture) && StepsBack(l, aperture)
    ensures !IsoAlwaysSpent(l, aperture)
  {
    var exp := l.bulbMax - 1;
    TwoStepCamera(l, 1);
    BackstepLeavesIsoStep(With(l, Steps(1), 14), exp, aperture);
    LeftIsNotSpent(l, aperture, Steps(1), exp, 14);
  }

  lemma WideningNotSpent(l: Limits, aperture: nat)
    requires l.Ordered() && l.IsoOn() && l.ApertureOn() && Listed(l) && l.bulbMax >= 8
    requires ApertureCode(aperture) && StepsBack(l, Widest(l))
    ensures !IsoAlwaysSpent(l, aperture)
  {
    var x, exp, iso := WideningLeavesIsoStep(l, aperture);
    LeftIsNotSpent(l, aperture, Steps(x), exp, iso);
  }

  lemma LeftIsNotSpent(l: Limits, aperture: nat, isos: seq<nat>, exp: nat, iso: nat)
    requires l.Ordered() && isos != [] && With(l, isos, 14).Ordered() && Listed(With(l, isos, 14)) && IsoCode(iso)
    requires IsoStepLeft(With(l, isos, 14), exp, aperture, iso)
    ensures !IsoAlwaysSpent(l, aperture)
  {
  }

  lemma KeptRoomSpends(l: Limits, aperture: nat)
    requires l.Ordered() && l.IsoOn() && l.ApertureOn() && Listed(l) && ApertureCode(aperture)
    requires KeepsRoom(l, aperture)
    ensures IsoAlwaysSpent(l, aperture)
  {
    forall isos: seq<nat>, isoMax: nat, exp: nat, iso: nat |
      isos != [] && Decreasing(isos) && Listed(With(l, isos, isoMax)) && IsoCode(iso)
      ensures !IsoStepLeft(With(l, isos, isoMax), exp, aperture, iso)
    {
      NoIsoStepLeft(With(l, isos, isoMax), exp, aperture, iso);
    }
  }
}
