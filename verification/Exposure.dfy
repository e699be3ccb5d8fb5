/**
 The exposure allocator: given the bulb time a frame needs, it trades time against
 aperture and ISO so that the bulb fits its maximum. The shift this amounts to is kept in
 a signed byte.
 */
module Exposure {
  import opened BulbShift
  import opened Steppers

  // Codes from here up are not exposure values
  const NOT_A_STOP: nat := 127
  const AUTO_ISO: nat := 254
  const ERROR: nat := 255

  // The codes of the firmware's tables: stops, the error entry, automatic ISO, and zero for
  // what is not in the table

  predicate ApertureCode(ev: nat) { ev <= 31 || ev == ERROR }

  predicate IsoCode(ev: nat) { ev <= 48 || ev == AUTO_ISO || ev == ERROR }

  /** A code as a signed byte has it: automatic ISO is minus two, an error minus one. */
  function Fold(ev: nat): int { if ev < NOT_A_STOP then ev else ev - 256 }

  datatype Limits = Limits(
    rampAperture: bool, rampIso: bool,
    supportsAperture: bool, supportsIso: bool, supportsShutter: bool,
    apertures: seq<nat>, apertureMin: nat, apertureMax: nat,
    isos: seq<nat>, isoMax: nat,
    bulbMax: nat, floorMs: nat
  ) {
    predicate Supported() { supportsIso || supportsAperture || supportsShutter }

    predicate ApertureOn() { rampAperture && supportsAperture }

    predicate IsoOn() { rampIso && supportsIso }

    /** What the camera's lists look like: apertures ascending, ISO codes descending. */
    ghost predicate Ordered() {
      && Increasing(apertures) && Decreasing(isos)
      && (supportsAperture ==> apertures != [])
      && (supportsIso ==> isos != [])
    }

    /** Lists and limits hold codes of the tables. */
    ghost predicate Tabled() {
      && (forall k :: 0 <= k < |apertures| ==> ApertureCode(apertures[k]))
      && (forall k :: 0 <= k < |isos| ==> IsoCode(isos[k]))
      && ApertureCode(apertureMin) && ApertureCode(apertureMax) && IsoCode(isoMax)
    }

    function ApertureUp(ev: nat): nat
      requires apertures != []
    {
      Steppers.ApertureUp(apertures, apertureMax, ev)
    }

    function ApertureDown(ev: nat): nat
      requires apertures != []
    {
      Steppers.ApertureDown(apertures, apertureMin, ev)
    }

    function IsoUp(ev: nat): nat { Steppers.IsoUp(isos, isoMax, ev) }

    function IsoDown(ev: nat): nat { Steppers.IsoDown(isos, ev) }
  }

  /** A candidate allocation: the settings, the shift they amount to, the bulb time. */
  datatype Alloc = Alloc(aperture: nat, iso: nat, shift: int8, bulb: nat) {
    function WithAperture(exp: nat, next: nat): Alloc {
      var s := Add8(shift, next - aperture);
      Alloc(next, iso, s, Shifted(exp, s))
    }

    function WithIso(exp: nat, next: nat): Alloc {
      var s := Add8(shift, next - iso);
      Alloc(aperture, next, s, Shifted(exp, s))
    }

    function Folded(): int { Fold(aperture) + Fold(iso) }

    /** Its codes are codes of the tables, and so were those its shift is counted from. */
    predicate Tabled() {
      ApertureCode(aperture) && IsoCode(iso) && -79 <= shift - Folded() <= 3
    }
  }

  // Bounds on how often each stepper can still move a value

  ghost function UpRank(l: Limits, ev: nat): nat
    requires l.apertures != []
  {
    if SettledUp(l.apertures, l.apertureMax, ev) then l.apertureMax - ev else l.apertureMax + 1
  }

  ghost function DownRank(l: Limits, ev: nat): nat
    requires l.apertures != []
  {
    if SettledDown(l.apertures, l.apertures[0], l.apertureMin, ev) then ev - l.apertureMin
    else Max(Last(l.apertures), l.apertureMin) + 1
  }

  ghost function IsoRank(l: Limits, ev: nat): nat
    requires l.isos != []
  {
    if SettledDown(l.isos, Last(l.isos), l.isoMax, ev) then ev - l.isoMax
    else Max(l.isos[0], l.isoMax) + 1
  }

  lemma RanksDecrease(l: Limits, ev: nat)
    requires l.Ordered()
    ensures l.apertures != [] && l.ApertureUp(ev) != ev ==> UpRank(l, l.ApertureUp(ev)) < UpRank(l, ev)
    ensures l.apertures != [] && l.ApertureDown(ev) != ev ==> DownRank(l, l.ApertureDown(ev)) < DownRank(l, ev)
    ensures l.isos != [] && l.IsoUp(ev) != ev ==> IsoRank(l, l.IsoUp(ev)) < IsoRank(l, ev)
  {
    if l.apertures != [] {
      ApertureUpSteps(l.apertures, l.apertureMax, ev);
      ApertureDownSteps(l.apertures, l.apertureMin, ev);
    }
    if l.isos != [] { IsoUpSteps(l.isos, l.isoMax, ev); }
  }

  // Table codes stay table codes, and no shift between them wraps around

  lemma StepsAreTabled(l: Limits, ev: nat)
    requires l.Tabled()
    ensures l.apertures != [] ==> ApertureCode(l.ApertureUp(ev)) && ApertureCode(l.ApertureDown(ev))
    ensures l.isos != [] ==> IsoCode(l.IsoUp(ev)) && IsoCode(l.IsoDown(ev))
  {
  }

  /** A difference of codes in a byte is the difference of the folded codes. */
  lemma FoldedStep(shift: int8, from: nat, to: nat)
    requires from < 256 && to < 256 && -128 <= shift + Fold(to) - Fold(from) < 128
    ensures Add8(shift, to - from) == shift + Fold(to) - Fold(from)
  {
    var s := shift + Fold(to) - Fold(from);
    WrapPeriod(s);
    WrapPeriod(s - 256);
  }

  lemma ApertureTabled(exp: nat, a: Alloc, next: nat)
    requires a.Tabled() && ApertureCode(next)
    ensures var r := a.WithAperture(exp, next);
            r.Tabled() && r.shift - r.Folded() == a.shift - a.Folded() && -82 <= r.shift <= 82
  {
    FoldedStep(a.shift, a.aperture, next);
  }

  lemma IsoTabled(exp: nat, a: Alloc, next: nat)
    requires a.Tabled() && IsoCode(next)
    ensures var r := a.WithIso(exp, next);
            r.Tabled() && r.shift - r.Folded() == a.shift - a.Folded() && -82 <= r.shift <= 82
  {
    FoldedStep(a.shift, a.iso, next);
  }

  // The four loops as functions

  /** Too long a bulb: open the aperture. */
  ghost function OpenAperture(l: Limits, exp: nat, a: Alloc): Alloc
    requires l.Ordered() && l.apertures != []
    decreases DownRank(l, a.aperture)
  {
    RanksDecrease(l, a.aperture);
    var next := l.ApertureDown(a.aperture);
    if a.bulb <= l.bulbMax || next == a.aperture then a
    else OpenAperture(l, exp, a.WithAperture(exp, next))
  }

  /** Still too long: raise the sensitivity. */
  ghost function RaiseIso(l: Limits, exp: nat, a: Alloc): Alloc
    requires l.Ordered() && l.isos != []
    decreases IsoRank(l, a.iso)
  {
    RanksDecrease(l, a.iso);
    var next := l.IsoUp(a.iso);
    if a.bulb <= l.bulbMax || next == a.iso then a
    else RaiseIso(l, exp, a.WithIso(exp, next))
  }

  /** A step to next is usable when it is one and its bulb time stays below the maximum. */
  predicate Usable(l: Limits, exp: nat, shift: int8, current: nat, next: nat) {
    next != current && next < NOT_A_STOP && Shifted(exp, Add8(shift, next - current)) < l.bulbMax
  }

  /** Room left: lower the sensitivity. */
  ghost function LowerIso(l: Limits, exp: nat, a: Alloc): Alloc
    decreases IndexOf(l.isos, a.iso)
  {
    IsoDownSteps(l.isos, a.iso);
    var next := l.IsoDown(a.iso);
    if Usable(l, exp, a.shift, a.iso, next) then LowerIso(l, exp, a.WithIso(exp, next)) else a
  }

  /** Room left: close the aperture. */
  ghost function CloseAperture(l: Limits, exp: nat, a: Alloc): Alloc
    requires l.Ordered() && l.apertures != []
    decreases UpRank(l, a.aperture)
  {
    RanksDecrease(l, a.aperture);
    var next := l.ApertureUp(a.aperture);
    if Usable(l, exp, a.shift, a.aperture, next) then CloseAperture(l, exp, a.WithAperture(exp, next)) else a
  }

  ghost function Shortened(l: Limits, exp: nat, aperture: nat, iso: nat): Alloc
    requires l.Ordered()
  {
    var a0 := Alloc(aperture, iso, 0, exp);
    var a1 := if l.ApertureOn() then OpenAperture(l, exp, a0) else a0;
    if l.IsoOn() then RaiseIso(l, exp, a1) else a1
  }

  /** The allocation all four loops arrive at. */
  ghost function Allocate(l: Limits, exp: nat, aperture: nat, iso: nat): Alloc
    requires l.Ordered()
  {
    var a2 := Shortened(l, exp, aperture, iso);
    var a3 := if l.IsoOn() then LowerIso(l, exp, a2) else a2;
    if l.ApertureOn() then CloseAperture(l, exp, a3) else a3
  }

  /** The aperture the closing loop leaves in its out-parameter: it stops without
      restoring it when the stepper offers a code that is not a stop. */
  function ApertureLeft(l: Limits, aperture: nat): nat
    requires l.apertures != []
  {
    var next := l.ApertureUp(aperture);
    if next != aperture && next >= NOT_A_STOP then next else aperture
  }

  // The four loops as the firmware runs them; `change` accumulates the caller's shift

  /** The caller's shift once the allocator's own has gone from one value to another. */
  function Net(change: int8, from: int8, to: int8): int8 { Add8(change, to - from) }

  lemma NetStep(change: int8, from: int8, to: int8, step: int)
    ensures Net(change, from, from) == change
    ensures Add8(Net(change, from, to), step) == Net(change, from, Add8(to, step))
  {
    WrapSum(change + to - from, step);
    WrapSum(to + step, change - from);
  }

  lemma NetChain(change: int8, from: int8, mid: int8, to: int8)
    ensures Net(Net(change, from, mid), mid, to) == Net(change, from, to)
  {
    WrapSum(change + mid - from, to - mid);
  }

  /** A step to another aperture: the bulb time to go with it, and the caller's shift. */
  method TryAperture(exp: nat, a: Alloc, next: nat, changed: int8, ghost change: int8, ghost from: int8)
    returns (r: Alloc, sum: int8)
    requires a.Tabled() && ApertureCode(next) && changed == Net(change, from, a.shift)
    ensures r == a.WithAperture(exp, next) && r.Tabled() && sum == Net(change, from, r.shift)
  {
    ApertureTabled(exp, a, next);
    NetStep(change, from, a.shift, next - a.aperture);
    sum := Add8(changed, next - a.aperture);
    var shift := Add8(a.shift, next - a.aperture);
    var bulb := ShiftBulb(exp, shift);
    r := Alloc(next, a.iso, shift, bulb);
  }

  method TryIso(exp: nat, a: Alloc, next: nat, changed: int8, ghost change: int8, ghost from: int8)
    returns (r: Alloc, sum: int8)
    requires a.Tabled() && IsoCode(next) && changed == Net(change, from, a.shift)
    ensures r == a.WithIso(exp, next) && r.Tabled() && sum == Net(change, from, r.shift)
  {
    IsoTabled(exp, a, next);
    NetStep(change, from, a.shift, next - a.iso);
    sum := Add8(changed, next - a.iso);
    var shift := Add8(a.shift, next - a.iso);
    var bulb := ShiftBulb(exp, shift);
    r := Alloc(a.aperture, next, shift, bulb);
  }

  method OpenApertureLoop(l: Limits, exp: nat, a: Alloc, change: int8) returns (r: Alloc, changed: int8)
    requires l.Ordered() && l.apertures != [] && l.Tabled() && a.Tabled()
    ensures r == OpenAperture(l, exp, a) && r.Tabled() && changed == Net(change, a.shift, r.shift)
  {
    r, changed := a, change;
    while r.bulb > l.bulbMax
      invariant OpenAperture(l, exp, r) == OpenAperture(l, exp, a) && r.Tabled()
      invariant changed == Net(change, a.shift, r.shift)
      decreases DownRank(l, r.aperture)
    {
      RanksDecrease(l, r.aperture);
      var next := StepApertureDown(l.apertures, l.apertureMin, r.aperture);
      if next == r.aperture { break; }
      StepsAreTabled(l, r.aperture);
      r, changed := TryAperture(exp, r, next, changed, change, a.shift);
    }
  }

  method RaiseIsoLoop(l: Limits, exp: nat, a: Alloc, change: int8) returns (r: Alloc, changed: int8)
    requires l.Ordered() && l.isos != [] && l.Tabled() && a.Tabled()
    ensures r == RaiseIso(l, exp, a) && r.Tabled() && changed == Net(change, a.shift, r.shift)
  {
    r, changed := a, change;
    while r.bulb > l.bulbMax
      invariant RaiseIso(l, exp, r) == RaiseIso(l, exp, a) && r.Tabled()
      invariant changed == Net(change, a.shift, r.shift)
      decreases IsoRank(l, r.iso)
    {
      RanksDecrease(l, r.iso);
      var next := StepIsoUp(l.isos, l.isoMax, r.iso);
      if next == r.iso { break; }
      StepsAreTabled(l, r.iso);
      r, changed := TryIso(exp, r, next, changed, change, a.shift);
    }
  }

  method LowerIsoLoop(l: Limits, exp: nat, a: Alloc, change: int8) returns (r: Alloc, changed: int8)
    requires l.Ordered() && l.isos != [] && l.Tabled() && a.Tabled()
    ensures r == LowerIso(l, exp, a) && r.Tabled() && changed == Net(change, a.shift, r.shift)
  {
    r, changed := a, change;
    while true
      invariant LowerIso(l, exp, r) == LowerIso(l, exp, a) && r.Tabled()
      invariant changed == Net(change, a.shift, r.shift)
      decreases IndexOf(l.isos, r.iso)
    {
      IsoDownSteps(l.isos, r.iso);
      var next := StepIsoDown(l.isos, r.iso);
      if next != r.iso && next < NOT_A_STOP {
        StepsAreTabled(l, r.iso);
        var test, sum := TryIso(exp, r, next, changed, change, a.shift);
        if test.bulb < l.bulbMax {
          r, changed := test, sum;
          continue;
        }
      }
      break;
    }
  }

  method CloseApertureLoop(l: Limits, exp: nat, a: Alloc, change: int8)
    returns (r: Alloc, changed: int8, left: nat)
    requires l.Ordered() && l.apertures != [] && l.Tabled() && a.Tabled()
    ensures r == CloseAperture(l, exp, a) && r.Tabled() && changed == Net(change, a.shift, r.shift)
    ensures left == ApertureLeft(l, r.aperture)
  {
    r, changed := a, change;
    while true
      invariant CloseAperture(l, exp, r) == CloseAperture(l, exp, a) && r.Tabled()
      invariant changed == Net(change, a.shift, r.shift)
      decreases UpRank(l, r.aperture)
    {
      RanksDecrease(l, r.aperture);
      left := StepApertureUp(l.apertures, l.apertureMax, r.aperture);
      if left != r.aperture {
        if left >= NOT_A_STOP { return; }
        StepsAreTabled(l, r.aperture);
        var test, sum := TryAperture(exp, r, left, changed, change, a.shift);
        if test.bulb < l.bulbMax {
          r, changed := test, sum;
          continue;
        }
      }
      left := r.aperture;
      return;
    }
  }

  /** The allocator: where aperture, ISO, the accumulated shift and the bulb time end up. */
  method CalculateExposure(l: Limits, exp: nat, aperture: nat, iso: nat, changeEv: int8)
    returns (bulb: nat, nextAperture: nat, nextIso: nat, nextChange: int8)
    requires l.Ordered() && l.Tabled() && ApertureCode(aperture) && IsoCode(iso)
    ensures !(l.supportsIso || l.supportsAperture || l.supportsShutter) ==>
              bulb == exp && nextAperture == aperture && nextIso == iso && nextChange == changeEv
    ensures l.supportsIso || l.supportsAperture || l.supportsShutter ==>
              var a := Allocate(l, exp, aperture, iso);
              && nextIso == a.iso
              && nextAperture == (if l.rampAperture && l.supportsAperture then ApertureLeft(l, a.aperture) else aperture)
              && nextChange == Net(changeEv, 0, a.shift)
              && bulb == Max(a.bulb, l.floorMs)
  {
    bulb, nextAperture, nextIso, nextChange := exp, aperture, iso, changeEv;
    if !l.Supported() { return; }
    var a := Alloc(aperture, iso, 0, exp);
    if l.ApertureOn() {
      a, nextChange := OpenApertureLoop(l, exp, a, nextChange);
    }
    if l.IsoOn() {
      NetChain(changeEv, 0, a.shift, RaiseIso(l, exp, a).shift);
      a, nextChange := RaiseIsoLoop(l, exp, a, nextChange);
    }
    if l.IsoOn() {
      NetChain(changeEv, 0, a.shift, LowerIso(l, exp, a).shift);
      a, nextChange := LowerIsoLoop(l, exp, a, nextChange);
    }
    if l.ApertureOn() {
      NetChain(changeEv, 0, a.shift, CloseAperture(l, exp, a).shift);
      a, nextChange, nextAperture := CloseApertureLoop(l, exp, a, nextChange);
    }
    nextIso := a.iso;
    bulb := if a.bulb < l.floorMs then l.floorMs else a.bulb;
  }
}
