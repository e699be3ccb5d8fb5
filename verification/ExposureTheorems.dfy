/**
 What the exposure allocator guarantees for any codes: conservation of exposure in a
 signed byte, the cap on the bulb time, the order in which controls are spent, and
 exactly when the aperture handed back is the one accounted for.
 */
module ExposureTheorems {
  import opened BulbShift
  import opened Steppers
  import opened Exposure

  /** What aperture and ISO have moved together. */
  function Moved(from: Alloc, to: Alloc): int { (to.aperture - from.aperture) + (to.iso - from.iso) }

  /** The shift between two allocations is what aperture and ISO moved, in a signed byte,
      and the bulb time is one shift of the frame's time. */
  ghost predicate Accounted(exp: nat, from: Alloc, to: Alloc) {
    && to.shift == Add8(from.shift, Moved(from, to))
    && (from.bulb == Shifted(exp, from.shift) ==> to.bulb == Shifted(exp, to.shift))
  }

  lemma AccountedOn(exp: nat, from: Alloc, mid: Alloc, to: Alloc)
    requires Accounted(exp, from, mid) && Accounted(exp, mid, to)
    ensures Accounted(exp, from, to)
  {
    AddChain(from.shift, Moved(from, mid), Moved(mid, to));
  }

  lemma StepAccounted(exp: nat, a: Alloc, next: nat)
    ensures Accounted(exp, a, a) && Accounted(exp, a, a.WithAperture(exp, next)) && Accounted(exp, a, a.WithIso(exp, next))
  {
  }

  lemma {:induction false} OpenApertureEnds(l: Limits, exp: nat, a: Alloc)
    requires l.Ordered() && l.apertures != []
    ensures var r := OpenAperture(l, exp, a);
            && Accounted(exp, a, r) && r.iso == a.iso
            && (r.bulb <= l.bulbMax || l.ApertureDown(r.aperture) == r.aperture)
    decreases DownRank(l, a.aperture)
  {
    RanksDecrease(l, a.aperture);
    var next := l.ApertureDown(a.aperture);
    StepAccounted(exp, a, next);
    if a.bulb > l.bulbMax && next != a.aperture {
      OpenApertureEnds(l, exp, a.WithAperture(exp, next));
      AccountedOn(exp, a, a.WithAperture(exp, next), OpenAperture(l, exp, a));
    }
  }

  lemma {:induction false} RaiseIsoEnds(l: Limits, exp: nat, a: Alloc)
    requires l.Ordered() && l.isos != []
    ensures var r := RaiseIso(l, exp, a);
            && Accounted(exp, a, r) && r.aperture == a.aperture
            && (r.bulb <= l.bulbMax || l.IsoUp(r.iso) == r.iso)
            && (a.bulb <= l.bulbMax ==> r == a)
    decreases IsoRank(l, a.iso)
  {
    RanksDecrease(l, a.iso);
    var next := l.IsoUp(a.iso);
    StepAccounted(exp, a, next);
    if a.bulb > l.bulbMax && next != a.iso {
      RaiseIsoEnds(l, exp, a.WithIso(exp, next));
      AccountedOn(exp, a, a.WithIso(exp, next), RaiseIso(l, exp, a));
    }
  }

  lemma {:induction false} LowerIsoEnds(l: Limits, exp: nat, a: Alloc)
    ensures var r := LowerIso(l, exp, a);
            && Accounted(exp, a, r) && r.aperture == a.aperture
            && (r == a || r.bulb < l.bulbMax)
            && !Usable(l, exp, r.shift, r.iso, l.IsoDown(r.iso))
    decreases IndexOf(l.isos, a.iso)
  {
    IsoDownSteps(l.isos, a.iso);
    var next := l.IsoDown(a.iso);
    StepAccounted(exp, a, next);
    if Usable(l, exp, a.shift, a.iso, next) {
      LowerIsoEnds(l, exp, a.WithIso(exp, next));
      AccountedOn(exp, a, a.WithIso(exp, next), LowerIso(l, exp, a));
    }
  }

  lemma {:induction false} CloseApertureEnds(l: Limits, exp: nat, a: Alloc)
    requires l.Ordered() && l.apertures != []
    ensures var r := CloseAperture(l, exp, a);
            && Accounted(exp, a, r) && r.iso == a.iso
            && (r == a || r.bulb < l.bulbMax)
            && !Usable(l, exp, r.shift, r.aperture, l.ApertureUp(r.aperture))
    decreases UpRank(l, a.aperture)
  {
    RanksDecrease(l, a.aperture);
    var next := l.ApertureUp(a.aperture);
    StepAccounted(exp, a, next);
    if Usable(l, exp, a.shift, a.aperture, next) {
      CloseApertureEnds(l, exp, a.WithAperture(exp, next));
      AccountedOn(exp, a, a.WithAperture(exp, next), CloseAperture(l, exp, a));
    }
  }

  lemma AllocationAccounted(l: Limits, exp: nat, aperture: nat, iso: nat)
    requires l.Ordered()
    ensures var a0, a := Alloc(aperture, iso, 0, exp), Allocate(l, exp, aperture, iso);
            && Accounted(exp, a0, a)
            && (!l.ApertureOn() ==> a.aperture == aperture)
            && (!l.IsoOn() ==> a.iso == iso)
  {
    var a0 := Alloc(aperture, iso, 0, exp);
    var a1 := if l.ApertureOn() then OpenAperture(l, exp, a0) else a0;
    var a2 := Shortened(l, exp, aperture, iso);
    var a3 := if l.IsoOn() then LowerIso(l, exp, a2) else a2;
    if l.ApertureOn() {
      OpenApertureEnds(l, exp, a0);
      CloseApertureEnds(l, exp, a3);
    }
    if l.IsoOn() {
      RaiseIsoEnds(l, exp, a1);
      LowerIsoEnds(l, exp, a2);
    }
    AccountedOn(exp, a0, a1, a2);
    AccountedOn(exp, a0, a2, a3);
    AccountedOn(exp, a0, a3, Allocate(l, exp, aperture, iso));
  }

  /** Conservation: the accumulated shift is the aperture change plus the ISO change, in a
      signed byte, and the bulb time is one shift of the frame's time by it. */
  lemma Conservation(l: Limits, exp: nat, aperture: nat, iso: nat)
    requires l.Ordered()
    ensures var a := Allocate(l, exp, aperture, iso);
            && a.shift == Wrap8((a.aperture - aperture) + (a.iso - iso))
            && a.bulb == Shifted(exp, a.shift)
            && (!l.ApertureOn() ==> a.aperture == aperture)
            && (!l.IsoOn() ==> a.iso == iso)
  {
    ShiftedByZero(exp);
    AllocationAccounted(l, exp, aperture, iso);
  }

  /** Capped: the bulb fits its maximum, or every enabled control has nothing left to
      give. */
  lemma Capped(l: Limits, exp: nat, aperture: nat, iso: nat)
    requires l.Ordered()
    ensures var a := Allocate(l, exp, aperture, iso);
            || a.bulb <= l.bulbMax
            || ((l.ApertureOn() ==> l.ApertureDown(a.aperture) == a.aperture)
                && (l.IsoOn() ==> l.IsoUp(a.iso) == a.iso))
  {
    var a0 := Alloc(aperture, iso, 0, exp);
    if l.ApertureOn() { OpenApertureEnds(l, exp, a0); }
    var a1 := if l.ApertureOn() then OpenAperture(l, exp, a0) else a0;
    if l.IsoOn() { RaiseIsoEnds(l, exp, a1); }
    var a2 := Shortened(l, exp, aperture, iso);
    if l.IsoOn() { LowerIsoEnds(l, exp, a2); }
    var a3 := if l.IsoOn() then LowerIso(l, exp, a2) else a2;
    if l.ApertureOn() { CloseApertureEnds(l, exp, a3); }
  }

  /** Priorities: for a shorter bulb the aperture is exhausted before ISO is touched; for a
      longer one ISO is spent before the aperture is touched. */
  lemma Priorities(l: Limits, exp: nat, aperture: nat, iso: nat)
    requires l.Ordered() && l.ApertureOn() && l.IsoOn()
    ensures var a2 := Shortened(l, exp, aperture, iso);
            a2.iso != iso ==> l.ApertureDown(a2.aperture) == a2.aperture
    ensures var a3 := LowerIso(l, exp, Shortened(l, exp, aperture, iso));
            && Allocate(l, exp, aperture, iso) == CloseAperture(l, exp, a3)
            && !Usable(l, exp, a3.shift, a3.iso, l.IsoDown(a3.iso))
  {
    var a0 := Alloc(aperture, iso, 0, exp);
    OpenApertureEnds(l, exp, a0);
    RaiseIsoEnds(l, exp, OpenAperture(l, exp, a0));
    LowerIsoEnds(l, exp, Shortened(l, exp, aperture, iso));
  }

  /** No further step of the aperture would keep the bulb below its maximum. */
  lemma NoApertureStepLeft(l: Limits, exp: nat, aperture: nat, iso: nat)
    requires l.Ordered() && l.ApertureOn()
    ensures var a := Allocate(l, exp, aperture, iso);
            !Usable(l, exp, a.shift, a.aperture, l.ApertureUp(a.aperture))
  {
    var a2 := Shortened(l, exp, aperture, iso);
    CloseApertureEnds(l, exp, if l.IsoOn() then LowerIso(l, exp, a2) else a2);
  }

  // Handing back the aperture that was accounted for

  /** The aperture handed back is not the one the shift accounts for. */
  ghost predicate Leaks(l: Limits, exp: nat, aperture: nat, iso: nat)
    requires l.Ordered() && l.ApertureOn()
  {
    var a := Allocate(l, exp, aperture, iso);
    ApertureLeft(l, a.aperture) != a.aperture
  }

  ghost predicate NeverLeaks(l: Limits, aperture: nat, iso: nat)
    requires l.Ordered() && l.ApertureOn()
  {
    forall exp: nat, bulbMax: nat :: !Leaks(l.(bulbMax := bulbMax), exp, aperture, iso)
  }

  /** Every aperture a closing step can offer is a real stop. */
  predicate StopsOnly(l: Limits) {
    l.apertures != [] ==> Min(Last(l.apertures), l.apertureMax) < NOT_A_STOP
  }

  lemma {:induction false} ClosingStaysBelow(l: Limits, exp: nat, a: Alloc)
    requires l.Ordered() && l.apertures != [] && a.aperture < NOT_A_STOP
    ensures CloseAperture(l, exp, a).aperture < NOT_A_STOP
    decreases UpRank(l, a.aperture)
  {
    RanksDecrease(l, a.aperture);
    var next := l.ApertureUp(a.aperture);
    if Usable(l, exp, a.shift, a.aperture, next) {
      ClosingStaysBelow(l, exp, a.WithAperture(exp, next));
    }
  }

  lemma NothingScalesToNothing(ev: int)
    ensures Shifted(0, ev) == 0
  {
  }

  /** At the end of closing with nothing to expose, the stepper offers a reserved code. */
  lemma ClosingMeetsReservedCode(l: Limits, a: Alloc)
    requires l.Ordered() && l.apertures != [] && l.bulbMax > 0 && !StopsOnly(l) && a.aperture < NOT_A_STOP
    ensures var r := CloseAperture(l, 0, a); ApertureLeft(l, r.aperture) != r.aperture
  {
    var r := CloseAperture(l, 0, a);
    CloseApertureEnds(l, 0, a);
    ClosingStaysBelow(l, 0, a);
    NothingScalesToNothing(Add8(r.shift, l.ApertureUp(r.aperture) - r.aperture));
    var k := IndexOf(l.apertures, r.aperture);
    assert k + 1 < |l.apertures| ==> l.apertures[k] < l.apertures[k + 1];
  }

  /** Exactly when the allocator hands back what it accounted for, whatever the frame's
      time and the bulb's maximum: the limit or the list ends below the reserved codes. */
  lemma NeverLeaksExactly(l: Limits, aperture: nat, iso: nat)
    requires l.Ordered() && l.ApertureOn() && aperture < NOT_A_STOP
    ensures NeverLeaks(l, aperture, iso) <==> StopsOnly(l)
  {
    if !StopsOnly(l) {
      var m := l.(bulbMax := 1);
      var a0 := Alloc(aperture, iso, 0, 0);
      assert Shortened(m, 0, aperture, iso) == a0;
      LowerIsoEnds(m, 0, a0);
      ClosingMeetsReservedCode(m, if m.IsoOn() then LowerIso(m, 0, a0) else a0);
      assert Leaks(m, 0, aperture, iso);
    }
  }
}
