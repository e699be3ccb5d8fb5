/**
 The shift in its signed byte: between codes of the tables it never wraps around, however
 long the run, but it takes automatic ISO for minus two and an error for minus one. So it
 is the real shift exactly when no reserved code is stepped from or to.
 */
module ExposureBytes {
  import opened BulbShift
  import opened Steppers
  import opened Exposure
  import opened ExposureTheorems

  /** The codes stay codes of the tables, and the shift follows the folded codes. */
  ghost predicate Follows(from: Alloc, to: Alloc) {
    from.Tabled() ==> to.Tabled() && to.shift - to.Folded() == from.shift - from.Folded()
  }

  lemma {:induction false} OpeningFollows(l: Limits, exp: nat, a: Alloc)
    requires l.Ordered() && l.apertures != [] && l.Tabled() && a.Tabled()
    ensures Follows(a, OpenAperture(l, exp, a))
    decreases DownRank(l, a.aperture)
  {
    RanksDecrease(l, a.aperture);
    var next := l.ApertureDown(a.aperture);
    if a.bulb > l.bulbMax && next != a.aperture {
      StepsAreTabled(l, a.aperture);
      ApertureTabled(exp, a, next);
      OpeningFollows(l, exp, a.WithAperture(exp, next));
    }
  }

  lemma {:induction false} RaisingFollows(l: Limits, exp: nat, a: Alloc)
    requires l.Ordered() && l.isos != [] && l.Tabled() && a.Tabled()
    ensures Follows(a, RaiseIso(l, exp, a))
    decreases IsoRank(l, a.iso)
  {
    RanksDecrease(l, a.iso);
    var next := l.IsoUp(a.iso);
    if a.bulb > l.bulbMax && next != a.iso {
      StepsAreTabled(l, a.iso);
      IsoTabled(exp, a, next);
      RaisingFollows(l, exp, a.WithIso(exp, next));
    }
  }

  lemma {:induction false} LoweringFollows(l: Limits, exp: nat, a: Alloc)
    requires l.isos != [] && l.Tabled() && a.Tabled()
    ensures Follows(a, LowerIso(l, exp, a))
    decreases IndexOf(l.isos, a.iso)
  {
    IsoDownSteps(l.isos, a.iso);
    var next := l.IsoDown(a.iso);
    if Usable(l, exp, a.shift, a.iso, next) {
      StepsAreTabled(l, a.iso);
      IsoTabled(exp, a, next);
      LoweringFollows(l, exp, a.WithIso(exp, next));
    }
  }

  lemma {:induction false} ClosingFollows(l: Limits, exp: nat, a: Alloc)
    requires l.Ordered() && l.apertures != [] && l.Tabled() && a.Tabled()
    ensures Follows(a, CloseAperture(l, exp, a))
    decreases UpRank(l, a.aperture)
  {
    RanksDecrease(l, a.aperture);
    var next := l.ApertureUp(a.aperture);
    if Usable(l, exp, a.shift, a.aperture, next) {
      StepsAreTabled(l, a.aperture);
      ApertureTabled(exp, a, next);
      ClosingFollows(l, exp, a.WithAperture(exp, next));
    }
  }

  lemma ShortenedFollows(l: Limits, exp: nat, aperture: nat, iso: nat)
    requires l.Ordered() && l.Tabled() && ApertureCode(aperture) && IsoCode(iso)
    ensures Follows(Alloc(aperture, iso, 0, exp), Shortened(l, exp, aperture, iso))
  {
    var a0 := Alloc(aperture, iso, 0, exp);
    if l.ApertureOn() { OpeningFollows(l, exp, a0); }
    if l.IsoOn() { RaisingFollows(l, exp, if l.ApertureOn() then OpenAperture(l, exp, a0) else a0); }
  }

  lemma AllocationFollows(l: Limits, exp: nat, aperture: nat, iso: nat)
    requires l.Ordered() && l.Tabled() && ApertureCode(aperture) && IsoCode(iso)
    ensures Follows(Alloc(aperture, iso, 0, exp), Allocate(l, exp, aperture, iso))
  {
    ShortenedFollows(l, exp, aperture, iso);
    var a2 := Shortened(l, exp, aperture, iso);
    if l.IsoOn() { LoweringFollows(l, exp, a2); }
    if l.ApertureOn() { ClosingFollows(l, exp, if l.IsoOn() then LowerIso(l, exp, a2) else a2); }
  }

  /** Conservation in the tables: the shift is the drift of the folded codes, with no
      wrap-around, from every code a camera can report. */
  lemma FoldedConservation(l: Limits, exp: nat, aperture: nat, iso: nat)
    requires l.Ordered() && l.Tabled() && ApertureCode(aperture) && IsoCode(iso)
    ensures var a := Allocate(l, exp, aperture, iso);
            && ApertureCode(a.aperture) && IsoCode(a.iso)
            && a.shift == (Fold(a.aperture) - Fold(aperture)) + (Fold(a.iso) - Fold(iso))
            && -82 <= a.shift <= 82
            && a.bulb == Shifted(exp, a.shift)
  {
    AllocationFollows(l, exp, aperture, iso);
    BulbFollows(l, exp, aperture, iso);
  }

  lemma BulbFollows(l: Limits, exp: nat, aperture: nat, iso: nat)
    requires l.Ordered()
    ensures var a := Allocate(l, exp, aperture, iso); a.bulb == Shifted(exp, a.shift)
  {
    ShiftedByZero(exp);
    AllocationAccounted(l, exp, aperture, iso);
  }

  // Reserved codes: where the shift in the byte is not the real one

  /** What the camera's lists and the menu's limits hold: table stops, and automatic ISO. */
  ghost predicate Listed(l: Limits) {
    && (forall k :: 0 <= k < |l.apertures| ==> 2 <= l.apertures[k] <= 31)
    && 2 <= l.apertureMin <= 31 && 2 <= l.apertureMax <= 31
    && (forall k :: 0 <= k < |l.isos| ==> 14 <= l.isos[k] <= 48 || l.isos[k] == AUTO_ISO)
    && 10 <= l.isoMax <= 48
  }

  lemma ListedTabled(l: Limits)
    requires Listed(l)
    ensures l.Tabled()
  {
  }

  function Reserved(ev: nat): nat { if ev < NOT_A_STOP then 0 else 1 }

  /** The shift is the real drift of aperture and ISO. */
  ghost predicate Exact(l: Limits, exp: nat, aperture: nat, iso: nat)
    requires l.Ordered()
  {
    var a := Allocate(l, exp, aperture, iso);
    a.shift == (a.aperture - aperture) + (a.iso - iso)
  }

  /** The shift is the real drift exactly when as many codes are reserved as before. */
  lemma ExactByReserved(l: Limits, exp: nat, aperture: nat, iso: nat)
    requires l.Ordered() && l.Tabled() && ApertureCode(aperture) && IsoCode(iso)
    ensures var a := Allocate(l, exp, aperture, iso);
            Exact(l, exp, aperture, iso) <==>
            Reserved(a.aperture) + Reserved(a.iso) == Reserved(aperture) + Reserved(iso)
  {
    FoldedConservation(l, exp, aperture, iso);
  }

  /** The list offers a stop at all, or only automatic ISO. */
  predicate OffersStop(l: Limits)
    requires l.isos != []
  {
    Last(l.isos) < NOT_A_STOP
  }

  /** Whatever it starts from, a raising step goes to a stop if the list offers one. */
  lemma IsoUpSide(l: Limits, iso: nat)
    requires l.Ordered() && l.isos != [] && Listed(l)
    ensures l.IsoUp(iso) < NOT_A_STOP <==> OffersStop(l)
    ensures !OffersStop(l) ==> l.IsoUp(iso) == AUTO_ISO == l.IsoDown(iso)
  {
    var n := |l.isos|;
    if n > 1 { assert l.isos[n - 1] < l.isos[0]; }
    var k := IndexOf(l.isos, iso);
    if k + 1 < n { assert l.isos[k + 1] < l.isos[0]; }
  }

  lemma {:induction false} RaisingSide(l: Limits, exp: nat, a: Alloc)
    requires l.Ordered() && l.isos != [] && Listed(l)
    ensures var r := RaiseIso(l, exp, a); r.iso == a.iso || (r.iso < NOT_A_STOP <==> OffersStop(l))
    decreases IsoRank(l, a.iso)
  {
    RanksDecrease(l, a.iso);
    IsoUpSide(l, a.iso);
    var next := l.IsoUp(a.iso);
    if a.bulb > l.bulbMax && next != a.iso { RaisingSide(l, exp, a.WithIso(exp, next)); }
  }

  lemma {:induction false} LoweringSide(l: Limits, exp: nat, a: Alloc)
    ensures var r := LowerIso(l, exp, a); r.iso == a.iso || r.iso < NOT_A_STOP
    ensures l.IsoDown(a.iso) >= NOT_A_STOP ==> LowerIso(l, exp, a) == a
    decreases IndexOf(l.isos, a.iso)
  {
    IsoDownSteps(l.isos, a.iso);
    var next := l.IsoDown(a.iso);
    if Usable(l, exp, a.shift, a.iso, next) { LoweringSide(l, exp, a.WithIso(exp, next)); }
  }

  lemma {:induction false} OpeningSide(l: Limits, exp: nat, a: Alloc)
    requires l.Ordered() && l.apertures != [] && Listed(l)
    ensures var r := OpenAperture(l, exp, a); r.aperture == a.aperture || r.aperture < NOT_A_STOP
    decreases DownRank(l, a.aperture)
  {
    RanksDecrease(l, a.aperture);
    var next := l.ApertureDown(a.aperture);
    if a.bulb > l.bulbMax && next != a.aperture { OpeningSide(l, exp, a.WithAperture(exp, next)); }
  }

  lemma {:induction false} ClosingSide(l: Limits, exp: nat, a: Alloc)
    requires l.Ordered() && l.apertures != []
    ensures var r := CloseAperture(l, exp, a); r.aperture == a.aperture || r.aperture < NOT_A_STOP
    decreases UpRank(l, a.aperture)
  {
    RanksDecrease(l, a.aperture);
    var next := l.ApertureUp(a.aperture);
    if Usable(l, exp, a.shift, a.aperture, next) { ClosingSide(l, exp, a.WithAperture(exp, next)); }
  }

  /** The aperture is never stepped to a reserved code. */
  lemma ApertureSide(l: Limits, exp: nat, aperture: nat, iso: nat)
    requires l.Ordered() && Listed(l)
    ensures var a := Allocate(l, exp, aperture, iso); a.aperture == aperture || a.aperture < NOT_A_STOP
  {
    var a0 := Alloc(aperture, iso, 0, exp);
    var a1 := if l.ApertureOn() then OpenAperture(l, exp, a0) else a0;
    var a2 := Shortened(l, exp, aperture, iso);
    var a3 := if l.IsoOn() then LowerIso(l, exp, a2) else a2;
    if l.IsoOn() {
      RaiseIsoEnds(l, exp, a1);
      LowerIsoEnds(l, exp, a2);
    }
    if l.ApertureOn() {
      OpeningSide(l, exp, a0);
      ClosingSide(l, exp, a3);
    }
  }

  /** ISO after the two ISO loops, by what the raising loop starts from. */
  lemma IsoSide(l: Limits, exp: nat, aperture: nat, iso: nat)
    requires l.Ordered() && l.IsoOn() && Listed(l)
    ensures var a, a2 := Allocate(l, exp, aperture, iso), Shortened(l, exp, aperture, iso);
            && (OffersStop(l) ==> a.iso == iso || a.iso < NOT_A_STOP)
            && (a2.iso < NOT_A_STOP ==> a.iso < NOT_A_STOP)
            && (!OffersStop(l) ==> a.iso == a2.iso && (a.iso == iso || a.iso == AUTO_ISO))
  {
    var a0 := Alloc(aperture, iso, 0, exp);
    var a1 := if l.ApertureOn() then OpenAperture(l, exp, a0) else a0;
    if l.ApertureOn() { OpenApertureEnds(l, exp, a0); }
    var a2 := Shortened(l, exp, aperture, iso);
    RaisingSide(l, exp, a1);
    if !OffersStop(l) { RaisingToAuto(l, exp, a1); }
    LoweringSide(l, exp, a2);
    IsoUpSide(l, a2.iso);
    var a3 := LowerIso(l, exp, a2);
    if l.ApertureOn() { CloseApertureEnds(l, exp, a3); }
  }

  lemma {:induction false} RaisingToAuto(l: Limits, exp: nat, a: Alloc)
    requires l.Ordered() && l.isos != [] && Listed(l) && !OffersStop(l)
    ensures var r := RaiseIso(l, exp, a); r.iso == a.iso || r.iso == AUTO_ISO
    decreases IsoRank(l, a.iso)
  {
    RanksDecrease(l, a.iso);
    IsoUpSide(l, a.iso);
    var next := l.IsoUp(a.iso);
    if a.bulb > l.bulbMax && next != a.iso { RaisingToAuto(l, exp, a.WithIso(exp, next)); }
  }

  /** Whatever the frame's time, the shift is the real drift. */
  ghost predicate AlwaysExact(l: Limits, aperture: nat, iso: nat)
    requires l.Ordered()
  {
    forall exp: nat :: Exact(l, exp, aperture, iso)
  }

  /** Neither control steps from a reserved code to a stop or back: the aperture is a stop,
      and ISO is a stop exactly if the list offers one. */
  predicate Safe(l: Limits, aperture: nat, iso: nat)
    requires l.IsoOn() ==> l.isos != []
  {
    && (l.ApertureOn() ==> aperture < NOT_A_STOP)
    && (l.IsoOn() ==> (iso < NOT_A_STOP <==> OffersStop(l)))
  }

  lemma SafeIsExact(l: Limits, exp: nat, aperture: nat, iso: nat)
    requires l.Ordered() && Listed(l) && ApertureCode(aperture) && IsoCode(iso) && Safe(l, aperture, iso)
    ensures Exact(l, exp, aperture, iso)
  {
    ListedTabled(l);
    ExactByReserved(l, exp, aperture, iso);
    AllocationAccounted(l, exp, aperture, iso);
    ApertureSide(l, exp, aperture, iso);
    if l.IsoOn() { IsoSide(l, exp, aperture, iso); }
  }

  /** A frame with nothing to expose closes an unknown aperture to a stop. */
  lemma UnknownApertureCloses(l: Limits, aperture: nat, iso: nat)
    requires l.Ordered() && Listed(l) && l.ApertureOn() && l.bulbMax > 0 && aperture == ERROR
    ensures var a := Allocate(l, 0, aperture, iso);
            a.aperture < NOT_A_STOP && (a.iso == iso || a.iso < NOT_A_STOP)
  {
    var a0 := Alloc(aperture, iso, 0, 0);
    assert Shortened(l, 0, aperture, iso) == a0;
    LoweringSide(l, 0, a0);
    LowerIsoEnds(l, 0, a0);
    ClosesUnknown(l, if l.IsoOn() then LowerIso(l, 0, a0) else a0);
  }

  lemma ClosesUnknown(l: Limits, a: Alloc)
    requires l.Ordered() && Listed(l) && l.apertures != [] && l.bulbMax > 0 && a.aperture == ERROR
    ensures var r := CloseAperture(l, 0, a); r.aperture < NOT_A_STOP && r.iso == a.iso
  {
    var r := CloseAperture(l, 0, a);
    ClosingSide(l, 0, a);
    CloseApertureEnds(l, 0, a);
    NothingScalesToNothing(Add8(r.shift, l.ApertureUp(r.aperture) - r.aperture));
  }

  /** A frame long enough to stay too long however far the aperture is opened. */
  lemma StaysTooLong(l: Limits, exp: nat, aperture: nat, iso: nat)
    requires l.Ordered() && l.Tabled() && ApertureCode(aperture) && IsoCode(iso)
    requires Shifted(exp, -32) > l.bulbMax
    ensures var a0 := Alloc(aperture, iso, 0, exp);
            (if l.ApertureOn() then OpenAperture(l, exp, a0) else a0).bulb > l.bulbMax
  {
    var a0 := Alloc(aperture, iso, 0, exp);
    ShiftedByZero(exp);
    ShiftedMonotone(exp, -32, 0);
    if l.ApertureOn() {
      var r := OpenAperture(l, exp, a0);
      OpeningFollows(l, exp, a0);
      OpenApertureEnds(l, exp, a0);
      ShiftedMonotone(exp, -32, r.shift);
    }
  }

  /** Some time is too long even after shortening it. */
  lemma LongTime(ev: int, max: nat) returns (exp: nat)
    requires ev <= 0
    ensures Shifted(exp, ev) > max
  {
    var p := Power(-ev);
    exp := ((max + 1) as real * p).Floor + 1;
    Quotient(exp as real, p, (max + 1) as real, (max + 2) as real);
  }

  lemma Quotient(e: real, p: real, lo: real, hi: real)
    requires p >= 1.0 && lo * p <= e
    ensures lo <= e / p
    ensures e <= hi * p ==> e / p <= hi
  {
    assert e / p * p == e;
  }

  /** A long frame moves ISO to the list's side. */
  lemma LongFrameMovesIso(l: Limits, exp: nat, aperture: nat, iso: nat)
    requires l.Ordered() && Listed(l) && l.IsoOn() && ApertureCode(aperture) && IsoCode(iso)
    requires Shifted(exp, -32) > l.bulbMax && (iso < NOT_A_STOP) != OffersStop(l)
    ensures Allocate(l, exp, aperture, iso).iso < NOT_A_STOP <==> OffersStop(l)
  {
    ListedTabled(l);
    var a0 := Alloc(aperture, iso, 0, exp);
    var a1 := if l.ApertureOn() then OpenAperture(l, exp, a0) else a0;
    if l.ApertureOn() { OpenApertureEnds(l, exp, a0); }
    StaysTooLong(l, exp, aperture, iso);
    IsoUpSide(l, iso);
    RaisingSide(l, exp, a1.WithIso(exp, l.IsoUp(iso)));
    IsoSide(l, exp, aperture, iso);
  }

  /** Exactly when the shift is the real drift of aperture and ISO for frames of all times,
      whatever the bulb's maximum: when no reserved code is in the way. */
  lemma AlwaysExactExactly(l: Limits, aperture: nat, iso: nat)
    requires l.Ordered() && Listed(l) && l.bulbMax > 0 && ApertureCode(aperture) && IsoCode(iso)
    ensures AlwaysExact(l, aperture, iso) <==> Safe(l, aperture, iso)
  {
    ListedTabled(l);
    if Safe(l, aperture, iso) {
      forall exp: nat ensures Exact(l, exp, aperture, iso) { SafeIsExact(l, exp, aperture, iso); }
    } else if l.ApertureOn() && aperture >= NOT_A_STOP {
      UnknownApertureCloses(l, aperture, iso);
      ExactByReserved(l, 0, aperture, iso);
      assert !Exact(l, 0, aperture, iso);
    } else {
      var exp := LongTime(-32, l.bulbMax);
      LongFrameMovesIso(l, exp, aperture, iso);
      AllocationAccounted(l, exp, aperture, iso);
      ApertureSide(l, exp, aperture, iso);
      ExactByReserved(l, exp, aperture, iso);
      assert !Exact(l, exp, aperture, iso);
    }
  }

  // Automatic ISO

  lemma ReservedIsoMoves(l: Limits, exp: nat, aperture: nat, iso: nat)
    requires l.Ordered() && Listed(l) && l.IsoOn() && !l.ApertureOn() && OffersStop(l)
    requires iso >= NOT_A_STOP && exp > l.bulbMax
    ensures Allocate(l, exp, aperture, iso).iso < NOT_A_STOP
  {
    var a0 := Alloc(aperture, iso, 0, exp);
    IsoUpSide(l, iso);
    RaisingSide(l, exp, a0.WithIso(exp, l.IsoUp(iso)));
    IsoSide(l, exp, aperture, iso);
  }

  /** From a reserved code, with a list that offers stops, every frame that is too long is
      made longer instead of shorter. */
  lemma ReservedIsoLengthens(l: Limits, exp: nat, aperture: nat, iso: nat)
    requires l.Ordered() && Listed(l) && l.IsoOn() && !l.ApertureOn() && OffersStop(l)
    requires ApertureCode(aperture) && IsoCode(iso) && iso >= NOT_A_STOP && exp > l.bulbMax
    ensures var a := Allocate(l, exp, aperture, iso);
            a.iso < NOT_A_STOP && a.shift > 0 > (a.aperture - aperture) + (a.iso - iso) && a.bulb >= exp
  {
    ListedTabled(l);
    ReservedIsoMoves(l, exp, aperture, iso);
    FoldedConservation(l, exp, aperture, iso);
    AllocationAccounted(l, exp, aperture, iso);
    ShiftedByZero(exp);
    ShiftedMonotone(exp, 0, Allocate(l, exp, aperture, iso).shift);
  }

  lemma AutoPlaces(isos: seq<nat>)
    requires isos == [AUTO_ISO, 43, 42]
    ensures IndexOf(isos, AUTO_ISO) == 0 && IndexOf(isos, 43) == 1 && IndexOf(isos, 42) == 2
  {
    assert isos[0] == AUTO_ISO && isos[1] == 43 && isos[2] == 42;
  }

  /** A run started on automatic ISO with a list of two stops: to bring any time that is too
      long below the maximum, ISO goes from automatic to 125. That is a change by -212,
      which the byte takes for 44. */
  lemma AutoStart(l: Limits, exp: nat, aperture: nat)
    requires l.Ordered() && l.IsoOn() && !l.ApertureOn()
    requires l.isos == [AUTO_ISO, 43, 42] && l.isoMax == 10 && exp > l.bulbMax
    ensures var a := Allocate(l, exp, aperture, AUTO_ISO);
            a == Alloc(aperture, 42, 44, Shifted(exp, 44)) && a.bulb >= exp
  {
    AutoPlaces(l.isos);
    var a0 := Alloc(aperture, AUTO_ISO, 0, exp);
    FoldedStep(0, AUTO_ISO, 43);
    var a1 := a0.WithIso(exp, 43);
    var a2 := a1.WithIso(exp, 42);
    ShiftedByZero(exp);
    ShiftedMonotone(exp, 0, 44);
    ShiftedMonotone(exp, 44, 45);
    assert RaiseIso(l, exp, a2) == a2;
    assert RaiseIso(l, exp, a1) == a2;
    assert LowerIso(l, exp, a2) == a2;
  }

  // Whole runs: frame after frame, each with its own limits and required time

  datatype Frame = Frame(limits: Limits, exp: nat)

  datatype Settings = Settings(aperture: nat, iso: nat, evShift: int8) {
    predicate Tabled() { ApertureCode(aperture) && IsoCode(iso) }

    function Folded(): int { Fold(aperture) + Fold(iso) }
  }

  /** One frame, as the run loop calls the allocator. */
  ghost function Expose(s: Settings, f: Frame): Settings
    requires f.limits.Ordered()
  {
    if !f.limits.Supported() then s
    else
      var a := Allocate(f.limits, f.exp, s.aperture, s.iso);
      Settings(if f.limits.ApertureOn() then ApertureLeft(f.limits, a.aperture) else s.aperture, a.iso,
               Add8(s.evShift, a.shift))
  }

  ghost function ExposeAll(s: Settings, frames: seq<Frame>): Settings
    requires forall k :: 0 <= k < |frames| ==> frames[k].limits.Ordered()
    decreases |frames|
  {
    if frames == [] then s
    else ExposeAll(Expose(s, frames[0]), frames[1..])
  }

  function Drift(s: Settings, r: Settings): int { (r.aperture - s.aperture) + (r.iso - s.iso) }

  lemma DriftOverFrame(s: Settings, f: Frame)
    requires f.limits.Ordered() && StopsOnly(f.limits)
    ensures var r := Expose(s, f); r.evShift == Add8(s.evShift, Drift(s, r))
  {
    if f.limits.Supported() {
      AllocationAccounted(f.limits, f.exp, s.aperture, s.iso);
      var a := Allocate(f.limits, f.exp, s.aperture, s.iso);
      var moved := Moved(Alloc(s.aperture, s.iso, 0, f.exp), a);
      AddWrapped(s.evShift, moved);
      assert Drift(s, Expose(s, f)) == moved;
    }
  }

  /** Over any run the accumulated shift is the total drift of aperture and ISO, in a byte. */
  lemma {:induction false} DriftOverRun(s: Settings, frames: seq<Frame>)
    requires forall k :: 0 <= k < |frames| ==> frames[k].limits.Ordered() && StopsOnly(frames[k].limits)
    ensures var r := ExposeAll(s, frames); r.evShift == Add8(s.evShift, Drift(s, r))
    decreases |frames|
  {
    if frames != [] {
      var m, r := Expose(s, frames[0]), ExposeAll(s, frames);
      DriftOverFrame(s, frames[0]);
      DriftOverRun(m, frames[1..]);
      AddChain(s.evShift, Drift(s, m), Drift(m, r));
    }
  }

  /** Codes of the tables, with the shift counted from other such codes. */
  predicate Counted(s: Settings, base: int) { s.Tabled() && s.evShift == s.Folded() - base && -3 <= base <= 79 }

  lemma FrameCounted(s: Settings, f: Frame, base: int)
    requires f.limits.Ordered() && f.limits.Tabled() && StopsOnly(f.limits) && Counted(s, base)
    ensures Counted(Expose(s, f), base)
  {
    if f.limits.Supported() {
      FoldedConservation(f.limits, f.exp, s.aperture, s.iso);
      AllocationAccounted(f.limits, f.exp, s.aperture, s.iso);
    }
  }

  lemma {:induction false} RunCounted(s: Settings, frames: seq<Frame>, base: int)
    requires forall k :: 0 <= k < |frames| ==>
               frames[k].limits.Ordered() && frames[k].limits.Tabled() && StopsOnly(frames[k].limits)
    requires Counted(s, base)
    ensures Counted(ExposeAll(s, frames), base)
    decreases |frames|
  {
    if frames != [] {
      FrameCounted(s, frames[0], base);
      RunCounted(Expose(s, frames[0]), frames[1..], base);
    }
  }

  /** However long the run and whatever codes it starts from, the shift accumulated since it
      was zeroed fits a signed byte: it is the drift of the folded codes. It is the real
      drift exactly when as many codes are reserved as at the start. */
  lemma ShiftFitsSignedByte(s: Settings, frames: seq<Frame>)
    requires forall k :: 0 <= k < |frames| ==>
               frames[k].limits.Ordered() && frames[k].limits.Tabled() && StopsOnly(frames[k].limits)
    requires s.Tabled() && s.evShift == 0
    ensures var r := ExposeAll(s, frames);
            && r.evShift == (Fold(r.aperture) - Fold(s.aperture)) + (Fold(r.iso) - Fold(s.iso))
            && -82 <= r.evShift <= 82
            && (r.evShift == Drift(s, r) <==>
                Reserved(r.aperture) + Reserved(r.iso) == Reserved(s.aperture) + Reserved(s.iso))
  {
    RunCounted(s, frames, s.Folded());
  }
}
