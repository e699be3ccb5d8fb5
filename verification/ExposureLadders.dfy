/**
 How far each control is moved, stop by stop: opening the aperture and raising ISO stop at
 the first stop that makes the bulb fit, and lowering ISO and closing the aperture go on
 for as long as the bulb stays below its maximum.
 */
module ExposureLadders {
  import opened BulbShift
  import opened Steppers
  import opened Exposure
  import opened ExposureTheorems
  import opened ExposureBytes

  lemma PlaceUp(list: seq<nat>, k: nat)
    requires Increasing(list) && k < |list|
    ensures IndexOf(list, list[k]) == k
  {
  }

  lemma PlaceDown(list: seq<nat>, k: nat)
    requires Decreasing(list) && k < |list|
    ensures IndexOf(list, list[k]) == k
  {
  }

  /** The time that goes with a shift is still too long. */
  predicate TooLong(l: Limits, exp: nat, shift: int) { Shifted(exp, shift) > l.bulbMax }

  // Opening the aperture

  /** The stop at place i of the list, not below the lower limit. */
  function Opened(l: Limits, i: nat): nat
    requires i < |l.apertures|
  {
    if l.apertures[i] < l.apertureMin then l.apertureMin else l.apertures[i]
  }

  lemma WidestIsFinal(l: Limits)
    requires l.Ordered() && l.apertures != []
    ensures l.ApertureDown(Opened(l, 0)) == Opened(l, 0)
  {
    var w := Opened(l, 0);
    var k := IndexOf(l.apertures, w);
    if 0 < k < |l.apertures| { assert l.apertures[0] <= l.apertures[k - 1] < l.apertures[k] == w; }
  }

  /** Two places with the same stop: it is the lower limit, and the widest. */
  lemma SameIsWidest(l: Limits, k: nat)
    requires l.Ordered() && 0 < k < |l.apertures| && Opened(l, k - 1) == Opened(l, k)
    ensures Opened(l, k) == Opened(l, 0)
  {
    assert l.apertures[0] <= l.apertures[k - 1] < l.apertures[k];
  }

  lemma DownFromPlace(l: Limits, k: nat)
    requires l.Ordered() && 0 < k < |l.apertures| && Opened(l, k - 1) != Opened(l, k)
    ensures l.ApertureDown(Opened(l, k)) == Opened(l, k - 1)
  {
    PlaceUp(l.apertures, k);
    assert l.apertures[k - 1] < l.apertures[k];
  }

  /** The allocation stands at place k, with its shift counted from an aperture `from`. */
  ghost predicate AtOpened(l: Limits, exp: nat, a: Alloc, k: nat, from: int) {
    && a.Tabled() && k < |l.apertures| && a.aperture == Opened(l, k)
    && a.shift == a.aperture - from && a.bulb == Shifted(exp, a.shift)
  }

  /** The loop stays at a place that fits, or at the widest. */
  lemma OpeningStays(l: Limits, exp: nat, a: Alloc, k: nat, from: int)
    requires l.Ordered() && AtOpened(l, exp, a, k, from)
    requires !TooLong(l, exp, a.shift) || Opened(l, k) == Opened(l, 0)
    ensures OpenAperture(l, exp, a) == a
  {
    WidestIsFinal(l);
  }

  /** Otherwise it goes on to the next. */
  lemma OpeningGoesOn(l: Limits, exp: nat, a: Alloc, k: nat, from: int)
    requires l.Ordered() && Listed(l) && AtOpened(l, exp, a, k, from) && k > 0
    requires TooLong(l, exp, a.shift) && Opened(l, k - 1) != Opened(l, k)
    ensures var r := a.WithAperture(exp, Opened(l, k - 1));
            AtOpened(l, exp, r, k - 1, from) && OpenAperture(l, exp, a) == OpenAperture(l, exp, r)
  {
    DownFromPlace(l, k);
    RanksDecrease(l, a.aperture);
    ApertureTabled(exp, a, Opened(l, k - 1));
  }

  /** At place i the time is still too long. */
  predicate TooLongAt(l: Limits, exp: nat, from: int, i: nat)
    requires i < |l.apertures|
  {
    TooLong(l, exp, Opened(l, i) - from)
  }

  /** From place k: the first place that fits, or the widest; all places before it are too long. */
  ghost predicate OpensTo(l: Limits, exp: nat, from: int, k: nat, j: nat, to: nat) {
    && j <= k < |l.apertures| && to == Opened(l, j)
    && (forall i :: j < i <= k ==> TooLongAt(l, exp, from, i))
    && (!TooLongAt(l, exp, from, j) || to == Opened(l, 0))
  }

  lemma OpensFromBefore(l: Limits, exp: nat, from: int, k: nat, j: nat, to: nat)
    requires k > 0 && OpensTo(l, exp, from, k - 1, j, to) && k < |l.apertures| && TooLongAt(l, exp, from, k)
    ensures OpensTo(l, exp, from, k, j, to)
  {
  }

  lemma {:induction false} OpeningLadder(l: Limits, exp: nat, a: Alloc, k: nat, from: int) returns (j: nat)
    requires l.Ordered() && Listed(l) && AtOpened(l, exp, a, k, from)
    ensures OpensTo(l, exp, from, k, j, OpenAperture(l, exp, a).aperture)
    decreases k
  {
    j := k;
    if k > 0 && Opened(l, k - 1) == Opened(l, k) { SameIsWidest(l, k); }
    if !TooLong(l, exp, a.shift) || k == 0 || Opened(l, k - 1) == Opened(l, k) {
      OpeningStays(l, exp, a, k, from);
    } else {
      OpeningGoesOn(l, exp, a, k, from);
      j := OpeningLadder(l, exp, a.WithAperture(exp, Opened(l, k - 1)), k - 1, from);
      OpensFromBefore(l, exp, from, k, j, OpenAperture(l, exp, a).aperture);
    }
  }

  /** A control that is not ramped, or that the camera does not support, stays. */
  lemma DisabledStays(l: Limits, exp: nat, aperture: nat, iso: nat)
    requires l.Ordered()
    ensures !(l.rampAperture && l.supportsAperture) ==> Allocate(l, exp, aperture, iso).aperture == aperture
    ensures !(l.rampIso && l.supportsIso) ==> Allocate(l, exp, aperture, iso).iso == iso
  {
    AllocationAccounted(l, exp, aperture, iso);
  }

  /** A frame that fits is left alone by the first two loops. */
  lemma FittingIsKept(l: Limits, exp: nat, aperture: nat, iso: nat)
    requires l.Ordered() && exp <= l.bulbMax
    ensures Shortened(l, exp, aperture, iso) == Alloc(aperture, iso, 0, exp)
  {
  }

  /** A frame that is too long opens the aperture to the first stop, from its own towards the
      lower limit, with which the time fits, or to the widest if there is none; with every
      stop before it the time was still too long. */
  lemma OpensNoFurther(l: Limits, exp: nat, k: nat, iso: nat) returns (j: nat)
    requires l.Ordered() && Listed(l) && l.rampAperture && l.supportsAperture && IsoCode(iso)
    requires k < |l.apertures| && l.apertureMin <= l.apertures[k]
    ensures OpensTo(l, exp, l.apertures[k], k, j, Shortened(l, exp, l.apertures[k], iso).aperture)
  {
    var a0 := Alloc(l.apertures[k], iso, 0, exp);
    ShiftedByZero(exp);
    j := OpeningLadder(l, exp, a0, k, l.apertures[k]);
    if l.IsoOn() { RaiseIsoEnds(l, exp, OpenAperture(l, exp, a0)); }
  }

  lemma OutsideStepsToWidest(l: Limits, aperture: nat)
    requires l.Ordered() && l.apertures != [] && (aperture !in l.apertures || aperture < l.apertureMin)
    ensures l.ApertureDown(aperture) == Opened(l, 0)
  {
    var k := IndexOf(l.apertures, aperture);
    if 0 < k < |l.apertures| { assert l.apertures[0] <= l.apertures[k - 1] < l.apertures[k] == aperture; }
  }

  /** From an aperture that is not in the list, or below its limit, it goes to the widest at
      once. */
  lemma OutsideOpensToWidest(l: Limits, exp: nat, aperture: nat, iso: nat)
    requires l.Ordered() && l.rampAperture && l.supportsAperture && exp > l.bulbMax
    requires aperture !in l.apertures || aperture < l.apertureMin
    ensures Shortened(l, exp, aperture, iso).aperture == Opened(l, 0)
  {
    var a0 := Alloc(aperture, iso, 0, exp);
    OutsideStepsToWidest(l, aperture);
    WidestIsFinal(l);
    RanksDecrease(l, aperture);
    assert OpenAperture(l, exp, a0.WithAperture(exp, Opened(l, 0))).aperture == Opened(l, 0);
    if l.IsoOn() { RaiseIsoEnds(l, exp, OpenAperture(l, exp, a0)); }
  }

  // Raising ISO

  /** The ISO at place i of the list, not beyond the limit. */
  function Raised(l: Limits, i: nat): nat
    requires i < |l.isos|
  {
    if l.isos[i] < l.isoMax then l.isoMax else l.isos[i]
  }

  /** The highest ISO there is. */
  function Highest(l: Limits): nat
    requires l.isos != []
  {
    Raised(l, |l.isos| - 1)
  }

  lemma HighestIsFinal(l: Limits)
    requires l.Ordered() && l.isos != []
    ensures l.IsoUp(Highest(l)) == Highest(l)
  {
    var h, n := Highest(l), |l.isos|;
    var k := IndexOf(l.isos, h);
    if k + 1 < n { assert l.isos[n - 1] <= l.isos[k + 1] < l.isos[k] == h; }
  }

  lemma SameIsHighest(l: Limits, k: nat)
    requires l.Ordered() && k + 1 < |l.isos| && Raised(l, k + 1) == Raised(l, k)
    ensures Raised(l, k) == Highest(l)
  {
    assert l.isos[|l.isos| - 1] <= l.isos[k + 1] < l.isos[k];
  }

  lemma UpFromPlace(l: Limits, k: nat)
    requires l.Ordered() && k + 1 < |l.isos| && Raised(l, k + 1) != Raised(l, k)
    ensures l.IsoUp(Raised(l, k)) == Raised(l, k + 1)
  {
    PlaceDown(l.isos, k);
    assert l.isos[k + 1] < l.isos[k];
  }

  /** The allocation stands at place k, with a shift that is `base` before ISO counts. */
  ghost predicate AtRaised(l: Limits, exp: nat, a: Alloc, k: nat, base: int) {
    && a.Tabled() && k < |l.isos| && a.iso == Raised(l, k)
    && a.shift == base + Fold(a.iso) && a.bulb == Shifted(exp, a.shift)
  }

  lemma RaisingStays(l: Limits, exp: nat, a: Alloc, k: nat, base: int)
    requires l.Ordered() && AtRaised(l, exp, a, k, base)
    requires !TooLong(l, exp, a.shift) || Raised(l, k) == Highest(l)
    ensures RaiseIso(l, exp, a) == a
  {
    HighestIsFinal(l);
  }

  lemma RaisingGoesOn(l: Limits, exp: nat, a: Alloc, k: nat, base: int)
    requires l.Ordered() && Listed(l) && AtRaised(l, exp, a, k, base) && k + 1 < |l.isos|
    requires TooLong(l, exp, a.shift) && Raised(l, k + 1) != Raised(l, k)
    ensures var r := a.WithIso(exp, Raised(l, k + 1));
            AtRaised(l, exp, r, k + 1, base) && RaiseIso(l, exp, a) == RaiseIso(l, exp, r)
  {
    UpFromPlace(l, k);
    RanksDecrease(l, a.iso);
    IsoTabled(exp, a, Raised(l, k + 1));
  }

  predicate TooLongRaised(l: Limits, exp: nat, base: int, i: nat)
    requires i < |l.isos|
  {
    TooLong(l, exp, base + Fold(Raised(l, i)))
  }

  /** From place k: the first place that fits, or the highest; all places before it are too long. */
  ghost predicate RaisesTo(l: Limits, exp: nat, base: int, k: nat, j: nat, to: nat) {
    && k <= j < |l.isos| && to == Raised(l, j)
    && (forall i :: k <= i < j ==> TooLongRaised(l, exp, base, i))
    && (!TooLongRaised(l, exp, base, j) || to == Highest(l))
  }

  lemma RaisesFromBefore(l: Limits, exp: nat, base: int, k: nat, j: nat, to: nat)
    requires RaisesTo(l, exp, base, k + 1, j, to) && TooLongRaised(l, exp, base, k)
    ensures RaisesTo(l, exp, base, k, j, to)
  {
  }

  lemma {:induction false} RaisingLadder(l: Limits, exp: nat, a: Alloc, k: nat, base: int) returns (j: nat)
    requires l.Ordered() && Listed(l) && AtRaised(l, exp, a, k, base)
    ensures RaisesTo(l, exp, base, k, j, RaiseIso(l, exp, a).iso)
    decreases |l.isos| - k
  {
    j := k;
    var last := k == |l.isos| - 1;
    if !last && Raised(l, k + 1) == Raised(l, k) { SameIsHighest(l, k); }
    if !TooLong(l, exp, a.shift) || last || Raised(l, k + 1) == Raised(l, k) {
      RaisingStays(l, exp, a, k, base);
    } else {
      RaisingGoesOn(l, exp, a, k, base);
      j := RaisingLadder(l, exp, a.WithIso(exp, Raised(l, k + 1)), k + 1, base);
      RaisesFromBefore(l, exp, base, k, j, RaiseIso(l, exp, a).iso);
    }
  }

  /** The allocation after the first loop, by the aperture it leaves. */
  lemma AfterOpening(l: Limits, exp: nat, aperture: nat, iso: nat)
    requires l.Ordered() && l.Tabled() && ApertureCode(aperture) && IsoCode(iso)
    ensures var a0 := Alloc(aperture, iso, 0, exp);
            var a1 := if l.ApertureOn() then OpenAperture(l, exp, a0) else a0;
            && a1.Tabled() && a1.iso == iso && a1.aperture == Shortened(l, exp, aperture, iso).aperture
            && a1.shift == Fold(a1.aperture) - Fold(aperture) && a1.bulb == Shifted(exp, a1.shift)
  {
    var a0 := Alloc(aperture, iso, 0, exp);
    ShiftedByZero(exp);
    if l.ApertureOn() {
      OpeningFollows(l, exp, a0);
      OpenApertureEnds(l, exp, a0);
    }
    if l.IsoOn() { RaiseIsoEnds(l, exp, if l.ApertureOn() then OpenAperture(l, exp, a0) else a0); }
  }

  /** With the aperture opened, ISO goes to the first stop of the list, from its own on, with
      which the time fits, or to the highest if there is none; with every stop before it the
      time was still too long. So it stays if the aperture was enough. */
  lemma RaisesNoFurther(l: Limits, exp: nat, aperture: nat, k: nat) returns (j: nat)
    requires l.Ordered() && Listed(l) && l.rampIso && l.supportsIso && ApertureCode(aperture)
    requires k < |l.isos| && l.isoMax <= l.isos[k]
    ensures var a := Shortened(l, exp, aperture, l.isos[k]);
            RaisesTo(l, exp, Fold(a.aperture) - Fold(aperture) - Fold(l.isos[k]), k, j, a.iso)
  {
    var base := Fold(Shortened(l, exp, aperture, l.isos[k]).aperture) - Fold(aperture) - Fold(l.isos[k]);
    StartsRaisingAt(l, exp, aperture, k, base);
    j := RaisingLadder(l, exp, Unraised(l, exp, aperture, l.isos[k]), k, base);
  }

  /** What the second loop starts from. */
  ghost function Unraised(l: Limits, exp: nat, aperture: nat, iso: nat): Alloc
    requires l.Ordered()
  {
    var a0 := Alloc(aperture, iso, 0, exp);
    if l.ApertureOn() then OpenAperture(l, exp, a0) else a0
  }

  lemma StartsRaisingAt(l: Limits, exp: nat, aperture: nat, k: nat, base: int)
    requires l.Ordered() && Listed(l) && l.IsoOn() && ApertureCode(aperture) && k < |l.isos| && l.isoMax <= l.isos[k]
    requires base == Fold(Shortened(l, exp, aperture, l.isos[k]).aperture) - Fold(aperture) - Fold(l.isos[k])
    ensures var a1 := Unraised(l, exp, aperture, l.isos[k]);
            AtRaised(l, exp, a1, k, base) && Shortened(l, exp, aperture, l.isos[k]).iso == RaiseIso(l, exp, a1).iso
  {
    ListedTabled(l);
    AfterOpening(l, exp, aperture, l.isos[k]);
  }

  lemma OutsideStepsToHighest(l: Limits, iso: nat)
    requires l.Ordered() && l.isos != [] && (iso !in l.isos || iso < l.isoMax)
    ensures l.IsoUp(iso) == Highest(l)
  {
    var k, n := IndexOf(l.isos, iso), |l.isos|;
    if k + 1 < n { assert l.isos[n - 1] <= l.isos[k + 1] < l.isos[k] == iso; }
  }

  /** From an ISO that is not in the list, or beyond its limit, it goes to the highest at
      once, if the aperture was not enough. */
  lemma OutsideRaisesToHighest(l: Limits, exp: nat, aperture: nat, iso: nat)
    requires l.Ordered() && Listed(l) && l.rampIso && l.supportsIso && ApertureCode(aperture) && IsoCode(iso)
    requires iso !in l.isos || iso < l.isoMax
    ensures var a := Shortened(l, exp, aperture, iso);
            a.iso == if TooLong(l, exp, Fold(a.aperture) - Fold(aperture)) then Highest(l) else iso
  {
    ListedTabled(l);
    AfterOpening(l, exp, aperture, iso);
    var a0 := Alloc(aperture, iso, 0, exp);
    var a1 := if l.ApertureOn() then OpenAperture(l, exp, a0) else a0;
    OutsideStepsToHighest(l, iso);
    HighestIsFinal(l);
    RanksDecrease(l, iso);
    assert RaiseIso(l, exp, a1.WithIso(exp, Highest(l))).iso == Highest(l);
  }

  // Lowering ISO

  /** Place i is a stop with which the time is below the maximum. */
  predicate FitsLowered(l: Limits, exp: nat, base: int, i: nat)
    requires i < |l.isos|
  {
    l.isos[i] < NOT_A_STOP && Shifted(exp, base + l.isos[i]) < l.bulbMax
  }

  /** From place k, at a shift that is `base` before ISO counts: as far towards the front of
      the list as stops go and every time on the way is below the maximum. */
  ghost predicate LowersTo(l: Limits, exp: nat, base: int, k: nat, j: nat, to: nat) {
    && j <= k < |l.isos| && to == l.isos[j]
    && (forall i :: j <= i < k ==> FitsLowered(l, exp, base, i))
    && (j == 0 || !FitsLowered(l, exp, base, j - 1))
  }

  lemma LowersNowhere(l: Limits, exp: nat, base: int, k: nat)
    requires k < |l.isos| && (k == 0 || !FitsLowered(l, exp, base, k - 1))
    ensures LowersTo(l, exp, base, k, k, l.isos[k])
  {
  }

  lemma LowersFromBefore(l: Limits, exp: nat, base: int, k: nat, j: nat, to: nat)
    requires k > 0 && LowersTo(l, exp, base, k - 1, j, to) && k < |l.isos| && FitsLowered(l, exp, base, k - 1)
    ensures LowersTo(l, exp, base, k, j, to)
  {
  }

  ghost predicate AtIso(l: Limits, a: Alloc, k: nat, base: int) {
    a.Tabled() && k < |l.isos| && a.iso == l.isos[k] && a.shift == base + Fold(a.iso)
  }

  lemma LoweringStays(l: Limits, exp: nat, a: Alloc, k: nat, base: int)
    requires l.Ordered() && Listed(l) && AtIso(l, a, k, base) && (k == 0 || !FitsLowered(l, exp, base, k - 1))
    ensures LowerIso(l, exp, a) == a
  {
    PlaceDown(l.isos, k);
    if k > 0 {
      var next := l.isos[k - 1];
      IsoTabled(exp, a, next);
      assert l.IsoDown(a.iso) == next && !Usable(l, exp, a.shift, a.iso, next);
    }
  }

  lemma LoweringGoesOn(l: Limits, exp: nat, a: Alloc, k: nat, base: int)
    requires l.Ordered() && Listed(l) && AtIso(l, a, k, base) && k > 0 && FitsLowered(l, exp, base, k - 1)
    ensures var r := a.WithIso(exp, l.isos[k - 1]);
            AtIso(l, r, k - 1, base) && LowerIso(l, exp, a) == LowerIso(l, exp, r)
  {
    PlaceDown(l.isos, k);
    IsoDownSteps(l.isos, a.iso);
    assert l.isos[k - 1] > l.isos[k];
    IsoTabled(exp, a, l.isos[k - 1]);
  }

  lemma {:induction false} LoweringLadder(l: Limits, exp: nat, a: Alloc, k: nat, base: int) returns (j: nat)
    requires l.Ordered() && Listed(l) && AtIso(l, a, k, base)
    ensures LowersTo(l, exp, base, k, j, LowerIso(l, exp, a).iso)
    decreases k
  {
    j := k;
    if k == 0 || !FitsLowered(l, exp, base, k - 1) {
      LoweringStays(l, exp, a, k, base);
      LowersNowhere(l, exp, base, k);
    } else {
      LoweringGoesOn(l, exp, a, k, base);
      var r := a.WithIso(exp, l.isos[k - 1]);
      j := LoweringLadder(l, exp, r, k - 1, base);
      LowersFromBefore(l, exp, base, k, j, LowerIso(l, exp, r).iso);
    }
  }

  /** From a listed ISO, it is lowered as far as the time stays below the maximum. */
  lemma LowersAsFarAsFits(l: Limits, exp: nat, aperture: nat, iso: nat, k: nat) returns (j: nat)
    requires l.Ordered() && Listed(l) && l.rampIso && l.supportsIso && ApertureCode(aperture) && IsoCode(iso)
    requires k < |l.isos| && Shortened(l, exp, aperture, iso).iso == l.isos[k]
    ensures var a := Shortened(l, exp, aperture, iso);
            && a.shift == (Fold(a.aperture) - Fold(aperture)) + (Fold(a.iso) - Fold(iso))
            && LowersTo(l, exp, a.shift - Fold(a.iso), k, j, Allocate(l, exp, aperture, iso).iso)
  {
    AfterShortening(l, exp, aperture, iso);
    AfterLowering(l, exp, aperture, iso);
    var a := Shortened(l, exp, aperture, iso);
    j := LoweringLadder(l, exp, a, k, a.shift - Fold(a.iso));
  }

  /** The allocation after the first two loops. */
  lemma AfterShortening(l: Limits, exp: nat, aperture: nat, iso: nat)
    requires l.Ordered() && Listed(l) && ApertureCode(aperture) && IsoCode(iso)
    ensures var a := Shortened(l, exp, aperture, iso);
            a.Tabled() && a.shift == (Fold(a.aperture) - Fold(aperture)) + (Fold(a.iso) - Fold(iso))
  {
    ListedTabled(l);
    ShortenedFollows(l, exp, aperture, iso);
  }

  /** The last loop leaves ISO alone. */
  lemma AfterLowering(l: Limits, exp: nat, aperture: nat, iso: nat)
    requires l.Ordered() && l.IsoOn()
    ensures Allocate(l, exp, aperture, iso).iso == LowerIso(l, exp, Shortened(l, exp, aperture, iso)).iso
  {
    if l.ApertureOn() { CloseApertureEnds(l, exp, LowerIso(l, exp, Shortened(l, exp, aperture, iso))); }
  }

  /** From an ISO that is not in the list, to its front if the time fits there. */
  lemma OutsideLowersToFront(l: Limits, exp: nat, aperture: nat, iso: nat)
    requires l.Ordered() && Listed(l) && l.rampIso && l.supportsIso && ApertureCode(aperture) && IsoCode(iso)
    requires Shortened(l, exp, aperture, iso).iso !in l.isos
    ensures var a := Shortened(l, exp, aperture, iso);
            Allocate(l, exp, aperture, iso).iso == if FitsLowered(l, exp, a.shift - Fold(a.iso), 0) then l.isos[0] else a.iso
  {
    AfterShortening(l, exp, aperture, iso);
    var a := Shortened(l, exp, aperture, iso);
    FrontStep(l, exp, a);
    AfterLowering(l, exp, aperture, iso);
  }

  lemma FrontStep(l: Limits, exp: nat, a: Alloc)
    requires l.Ordered() && Listed(l) && l.isos != [] && a.Tabled() && a.iso !in l.isos
    ensures LowerIso(l, exp, a).iso == if FitsLowered(l, exp, a.shift - Fold(a.iso), 0) then l.isos[0] else a.iso
  {
    var front := l.isos[0];
    IsoDownSteps(l.isos, a.iso);
    IsoTabled(exp, a, front);
    var r := a.WithIso(exp, front);
    PlaceDown(l.isos, 0);
    assert LowerIso(l, exp, r) == r;
  }

  // Closing the aperture

  /** The stop at place i of the list, not above the upper limit. */
  function ClosedTo(l: Limits, i: nat): nat
    requires i < |l.apertures|
  {
    if l.apertures[i] > l.apertureMax then l.apertureMax else l.apertures[i]
  }

  /** From place k, at a shift that is `base` before the aperture counts: as far along the
      list as the limit goes and every time on the way is below the maximum. */
  ghost predicate ClosesTo(l: Limits, exp: nat, base: int, k: nat, j: nat, to: nat) {
    && k <= j < |l.apertures| && to == ClosedTo(l, j)
    && (forall i :: k < i <= j ==> FitsClosed(l, exp, base, i))
    && (j == |l.apertures| - 1 || ClosedTo(l, j + 1) == ClosedTo(l, j) || !FitsClosed(l, exp, base, j + 1))
  }

  /** At place i the time is below the maximum. */
  predicate FitsClosed(l: Limits, exp: nat, base: int, i: nat)
    requires i < |l.apertures|
  {
    Shifted(exp, base + ClosedTo(l, i)) < l.bulbMax
  }

  lemma ClosesFromBefore(l: Limits, exp: nat, base: int, k: nat, j: nat, to: nat)
    requires ClosesTo(l, exp, base, k + 1, j, to) && FitsClosed(l, exp, base, k + 1)
    ensures ClosesTo(l, exp, base, k, j, to)
  {
  }

  lemma UpFromClosed(l: Limits, k: nat)
    requires l.Ordered() && k < |l.apertures|
    ensures l.ApertureUp(ClosedTo(l, k)) == ClosedTo(l, if k + 1 < |l.apertures| then k + 1 else k)
  {
    PlaceUp(l.apertures, k);
    if k + 1 < |l.apertures| { assert l.apertures[k] < l.apertures[k + 1] <= Last(l.apertures); }
    var m := IndexOf(l.apertures, l.apertureMax);
    if m + 1 < |l.apertures| { assert l.apertures[m] < l.apertures[m + 1]; }
  }

  ghost predicate AtClosed(l: Limits, a: Alloc, k: nat, base: int) {
    a.Tabled() && k < |l.apertures| && a.aperture == ClosedTo(l, k) && a.shift == base + a.aperture
  }

  lemma ClosingStays(l: Limits, exp: nat, a: Alloc, k: nat, base: int)
    requires l.Ordered() && Listed(l) && AtClosed(l, a, k, base)
    requires k + 1 == |l.apertures| || ClosedTo(l, k + 1) == ClosedTo(l, k) || !FitsClosed(l, exp, base, k + 1)
    ensures CloseAperture(l, exp, a) == a
  {
    UpFromClosed(l, k);
    if k + 1 < |l.apertures| { ApertureTabled(exp, a, ClosedTo(l, k + 1)); }
  }

  lemma ClosingGoesOn(l: Limits, exp: nat, a: Alloc, k: nat, base: int)
    requires l.Ordered() && Listed(l) && AtClosed(l, a, k, base) && k + 1 < |l.apertures|
    requires ClosedTo(l, k + 1) != ClosedTo(l, k) && FitsClosed(l, exp, base, k + 1)
    ensures var r := a.WithAperture(exp, ClosedTo(l, k + 1));
            AtClosed(l, r, k + 1, base) && CloseAperture(l, exp, a) == CloseAperture(l, exp, r)
  {
    UpFromClosed(l, k);
    RanksDecrease(l, a.aperture);
    ApertureTabled(exp, a, ClosedTo(l, k + 1));
  }

  lemma {:induction false} ClosingLadder(l: Limits, exp: nat, a: Alloc, k: nat, base: int) returns (j: nat)
    requires l.Ordered() && Listed(l) && AtClosed(l, a, k, base)
    ensures ClosesTo(l, exp, base, k, j, CloseAperture(l, exp, a).aperture)
    decreases |l.apertures| - k
  {
    if k + 1 == |l.apertures| || ClosedTo(l, k + 1) == ClosedTo(l, k) || !FitsClosed(l, exp, base, k + 1) {
      j := k;
      ClosingStays(l, exp, a, k, base);
    } else {
      ClosingGoesOn(l, exp, a, k, base);
      j := ClosingLadder(l, exp, a.WithAperture(exp, ClosedTo(l, k + 1)), k + 1, base);
      ClosesFromBefore(l, exp, base, k, j, CloseAperture(l, exp, a).aperture);
    }
  }

  /** The allocation before the last loop, by the ISO it leaves. */
  lemma BeforeClosing(l: Limits, exp: nat, aperture: nat, iso: nat)
    requires l.Ordered() && l.Tabled() && ApertureCode(aperture) && IsoCode(iso)
    ensures var a2 := Shortened(l, exp, aperture, iso);
            var a3 := if l.IsoOn() then LowerIso(l, exp, a2) else a2;
            && a3.Tabled() && a3.aperture == a2.aperture && a3.iso == Allocate(l, exp, aperture, iso).iso
            && (l.ApertureOn() ==> Allocate(l, exp, aperture, iso).aperture == CloseAperture(l, exp, a3).aperture)
            && a3.shift == (Fold(a3.aperture) - Fold(aperture)) + (Fold(a3.iso) - Fold(iso))
  {
    ShortenedFollows(l, exp, aperture, iso);
    var a2 := Shortened(l, exp, aperture, iso);
    if l.IsoOn() {
      LoweringFollows(l, exp, a2);
      LowerIsoEnds(l, exp, a2);
    }
    if l.ApertureOn() { CloseApertureEnds(l, exp, if l.IsoOn() then LowerIso(l, exp, a2) else a2); }
  }

  /** From a listed aperture within its limit, it is closed as far as the time stays below
      the maximum. */
  lemma ClosesAsFarAsFits(l: Limits, exp: nat, aperture: nat, iso: nat, k: nat) returns (j: nat)
    requires l.Ordered() && Listed(l) && l.rampAperture && l.supportsAperture && ApertureCode(aperture) && IsoCode(iso)
    requires k < |l.apertures| && Shortened(l, exp, aperture, iso).aperture == l.apertures[k] <= l.apertureMax
    ensures var a := Allocate(l, exp, aperture, iso);
            ClosesTo(l, exp, (Fold(a.iso) - Fold(iso)) - Fold(aperture), k, j, a.aperture)
  {
    var base := (Fold(Allocate(l, exp, aperture, iso).iso) - Fold(iso)) - Fold(aperture);
    var a3 := Unclosed(l, exp, aperture, iso);
    StartsClosingAt(l, exp, aperture, iso, k, base);
    j := ClosingLadder(l, exp, a3, k, base);
  }

  /** What the last loop starts from. */
  ghost function Unclosed(l: Limits, exp: nat, aperture: nat, iso: nat): Alloc
    requires l.Ordered()
  {
    var a2 := Shortened(l, exp, aperture, iso);
    if l.IsoOn() then LowerIso(l, exp, a2) else a2
  }

  lemma StartsClosingAt(l: Limits, exp: nat, aperture: nat, iso: nat, k: nat, base: int)
    requires l.Ordered() && Listed(l) && l.ApertureOn() && ApertureCode(aperture) && IsoCode(iso)
    requires k < |l.apertures| && Shortened(l, exp, aperture, iso).aperture == l.apertures[k] <= l.apertureMax
    requires base == (Fold(Allocate(l, exp, aperture, iso).iso) - Fold(iso)) - Fold(aperture)
    ensures var a3 := Unclosed(l, exp, aperture, iso);
            AtClosed(l, a3, k, base) && Allocate(l, exp, aperture, iso).aperture == CloseAperture(l, exp, a3).aperture
  {
    ListedTabled(l);
    BeforeClosing(l, exp, aperture, iso);
  }

  lemma OutsideStepsToLast(l: Limits, ev: nat)
    requires l.Ordered() && l.apertures != [] && (ev !in l.apertures || ev > l.apertureMax)
    ensures l.ApertureUp(ev) == ClosedTo(l, |l.apertures| - 1)
  {
    var k, n := IndexOf(l.apertures, ev), |l.apertures|;
    if k + 1 < n { assert ev == l.apertures[k] < l.apertures[k + 1] <= l.apertures[n - 1]; }
  }

  lemma LastStep(l: Limits, exp: nat, a: Alloc, base: int)
    requires l.Ordered() && Listed(l) && l.apertures != [] && a.Tabled() && a.shift == base + Fold(a.aperture)
    requires a.aperture !in l.apertures || a.aperture > l.apertureMax
    ensures var n := |l.apertures| - 1;
            CloseAperture(l, exp, a).aperture == if FitsClosed(l, exp, base, n) then ClosedTo(l, n) else a.aperture
  {
    var last := ClosedTo(l, |l.apertures| - 1);
    OutsideStepsToLast(l, a.aperture);
    RanksDecrease(l, a.aperture);
    ApertureTabled(exp, a, last);
    LastIsFinal(l, exp, a.WithAperture(exp, last));
  }

  lemma LastIsFinal(l: Limits, exp: nat, r: Alloc)
    requires l.Ordered() && l.apertures != [] && r.aperture == ClosedTo(l, |l.apertures| - 1)
    ensures CloseAperture(l, exp, r) == r
  {
    UpFromClosed(l, |l.apertures| - 1);
  }

  /** From an aperture that is not in the list, or beyond its limit, to the last stop within
      the limit if the time fits there. */
  lemma OutsideClosesToLast(l: Limits, exp: nat, aperture: nat, iso: nat)
    requires l.Ordered() && Listed(l) && l.rampAperture && l.supportsAperture && ApertureCode(aperture) && IsoCode(iso)
    requires var v := Shortened(l, exp, aperture, iso).aperture; v !in l.apertures || v > l.apertureMax
    ensures var a, v := Allocate(l, exp, aperture, iso), Shortened(l, exp, aperture, iso).aperture;
            var n := |l.apertures| - 1;
            a.aperture == if FitsClosed(l, exp, (Fold(a.iso) - Fold(iso)) - Fold(aperture), n) then ClosedTo(l, n) else v
  {
    var base := (Fold(Allocate(l, exp, aperture, iso).iso) - Fold(iso)) - Fold(aperture);
    StartsClosing(l, exp, aperture, iso, base);
    LastStep(l, exp, Unclosed(l, exp, aperture, iso), base);
  }

  lemma StartsClosing(l: Limits, exp: nat, aperture: nat, iso: nat, base: int)
    requires l.Ordered() && Listed(l) && l.ApertureOn() && ApertureCode(aperture) && IsoCode(iso)
    requires base == (Fold(Allocate(l, exp, aperture, iso).iso) - Fold(iso)) - Fold(aperture)
    ensures var a3 := Unclosed(l, exp, aperture, iso);
            && a3.Tabled() && a3.aperture == Shortened(l, exp, aperture, iso).aperture
            && a3.shift == base + Fold(a3.aperture)
            && Allocate(l, exp, aperture, iso).aperture == CloseAperture(l, exp, a3).aperture
  {
    ListedTabled(l);
    BeforeClosing(l, exp, aperture, iso);
  }
}
