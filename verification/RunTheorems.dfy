/**
 What every run keeps: exposures fired are accounted for photo by photo, the run ends
 with exactly the exposures asked for, the numbers shown add up, and the motors' time
 is what the gaps make it.
 */
module RunTheorems {
  import opened Motion
  import opened RunSpec

  ghost function Fires(trace: seq<Event>): nat {
    if trace == [] then 0 else Fires(trace[..|trace| - 1]) + if trace[|trace| - 1] == Fired then 1 else 0
  }

  /** Exposures that photos were counted without, after a failure. */
  ghost function Missed(trace: seq<Event>, perPhoto: nat): int {
    if trace == [] then 0
    else
      var e := trace[|trace| - 1];
      Missed(trace[..|trace| - 1], perPhoto) + if e.PhotoDone? then perPhoto - e.exps else 0
  }

  ghost function Gaps(trace: seq<Event>): seq<Entry> {
    if trace == [] then []
    else
      var e := trace[|trace| - 1];
      var before := Gaps(trace[..|trace| - 1]);
      if e.GapEntered? then before + [e.entry] else before
  }

  /** The moments frames became due, with the intervals waited for. */
  ghost function Dues(trace: seq<Event>): seq<Entry> {
    if trace == [] then []
    else
      var e := trace[|trace| - 1];
      var before := Dues(trace[..|trace| - 1]);
      if e.FrameDue? then before + [e.entry] else before
  }

  lemma Appended(trace: seq<Event>, e: Event, perPhoto: nat)
    ensures Fires(trace + [e]) == Fires(trace) + (if e == Fired then 1 else 0)
    ensures Missed(trace + [e], perPhoto) == Missed(trace, perPhoto) + (if e.PhotoDone? then perPhoto - e.exps else 0)
    ensures Gaps(trace + [e]) == if e.GapEntered? then Gaps(trace) + [e.entry] else Gaps(trace)
    ensures Dues(trace + [e]) == if e.FrameDue? then Dues(trace) + [e.entry] else Dues(trace)
  {
    assert (trace + [e])[..|trace|] == trace;
  }

  // Counting

  /** An exposure has been fired and is not counted yet. */
  predicate Exposing(s: State) { s.run == Bulb && s.prior == Was(Bulb) }

  predicate ByCount(p: Program) { !p.Infinite() && !p.ramp }

  /** The exposures of a number of photos, photo by photo. */
  ghost function Exposures(photos: nat, perPhoto: nat): nat {
    if photos == 0 then 0 else Exposures(photos - 1, perPhoto) + perPhoto
  }

  lemma {:induction false} ExposuresProduct(photos: nat, perPhoto: nat)
    ensures Exposures(photos, perPhoto) == photos * perPhoto
  {
    if photos > 0 {
      ExposuresProduct(photos - 1, perPhoto);
      assert (photos - 1) * perPhoto == photos * perPhoto - perPhoto;
    }
  }

  lemma {:induction false} ExposuresGrow(less: nat, more: nat, perPhoto: nat)
    requires less < more
    ensures Exposures(less, perPhoto) + perPhoto <= Exposures(more, perPhoto)
  {
    if less + 1 < more { ExposuresGrow(less, more - 1, perPhoto); }
  }

  /** Fired exposures, and missed ones, make up the photos taken and the one in progress. */
  ghost predicate Accounts(p: Program, s: State) {
    Fires(s.trace) + Missed(s.trace, p.PerPhoto())
    == Exposures(s.photos, p.PerPhoto()) + s.exps + if Exposing(s) then 1 else 0
  }

  /** How many exposures of the current photo there can be in each state. */
  predicate ExpsFit(p: Program, s: State) {
    match s.run
    case Delay => s.exps == 0 && s.photos == 0
    case Photo | Bulb => s.exps < p.PerPhoto()
    case Next | Error | End => s.exps <= p.PerPhoto()
    case Gap => s.exps == 0
    case Trigger | TriggerRelease => s.exps == 0 && p.external
  }

  /** A run by count goes on until its last photo and stops there. */
  predicate CountFits(p: Program, s: State) {
    ByCount(p) ==>
      && s.photos <= p.Total()
      && (s.run != End ==> s.photos < p.Total())
      && (s.run == End ==> s.exps == 0)
      && (s.run == End && !p.external ==> s.photos == p.Total())
  }

  predicate ShownFits(p: Program, s: State) {
    s.taken == s.photos && (s.photos <= p.photos ==> s.taken + s.remaining == p.photos)
  }

  ghost predicate Counted(p: Program, s: State) {
    && Accounts(p, s) && ExpsFit(p, s) && CountFits(p, s) && ShownFits(p, s)
    && (s.run != End ==> s.running)
    && Missed(s.trace, p.PerPhoto()) >= 0
  }

  lemma StartCounted(p: Program, motion: MotionState)
    requires p.Fits()
    ensures Counted(p, Started(p, motion))
  {
    assert ByCount(p) ==> p.Total() > 0;
  }

  lemma DelayCounted(p: Program, s: State, i: Input)
    requires Counted(p, s)
    ensures Counted(p, DelayBlock(p, s, i))
  {
  }

  lemma OneMoreExposure(p: Program, s: State)
    requires p.Fits() && s.exps < p.PerPhoto()
    ensures (s.exps + 1) % U8 == s.exps + 1
  {
  }

  lemma ShootCounted(p: Program, s: State)
    requires p.Fits() && Counted(p, s) && s.run == Photo
    ensures Counted(p, Shoot(p, s))
  {
    OneMoreExposure(p, s);
    ShootAccounts(p, s);
  }

  lemma ShootAccounts(p: Program, s: State)
    requires p.Fits() && Accounts(p, s) && s.run == Photo && s.exps < p.PerPhoto()
    ensures Accounts(p, Shoot(p, s)) && Missed(Shoot(p, s).trace, p.PerPhoto()) == Missed(s.trace, p.PerPhoto())
  {
    OneMoreExposure(p, s);
    Appended(s.trace, Fired, p.PerPhoto());
  }

  lemma PhotoCounted(p: Program, s: State, i: Input)
    requires p.Fits() && Counted(p, s)
    ensures Counted(p, PhotoBlock(p, s, i))
  {
    if s.run == Photo { ShootCounted(p, s); }
  }

  lemma ReleaseAccounts(p: Program, s: State, i: Input)
    requires Accounts(p, s) && s.run == Bulb && !Exposing(s)
    ensures Accounts(p, BulbBlock(p, s, i).0)
  {
    ReleasedAccounts(p, s, if p.ramp then i.interval else s.interval);
  }

  lemma ReleasedAccounts(p: Program, s: State, interval: nat)
    requires Accounts(p, s) && s.run == Bulb && !Exposing(s)
    ensures Accounts(p, s.(prior := Was(Bulb), interval := interval, trace := s.trace + [Fired]))
  {
    Appended(s.trace, Fired, p.PerPhoto());
  }

  lemma CompletionAccounts(p: Program, s: State, i: Input)
    requires p.Fits() && Accounts(p, s) && ExpsFit(p, s) && Exposing(s)
    ensures Accounts(p, BulbBlock(p, s, i).0)
  {
    OneMoreExposure(p, s);
  }

  lemma BulbAccounts(p: Program, s: State, i: Input)
    requires p.Fits() && Accounts(p, s) && ExpsFit(p, s)
    ensures Accounts(p, BulbBlock(p, s, i).0)
  {
    if Exposing(s) { CompletionAccounts(p, s, i); }
    else if s.run == Bulb { ReleaseAccounts(p, s, i); }
  }

  lemma BulbCounted(p: Program, s: State, i: Input)
    requires p.Fits() && Counted(p, s)
    ensures Counted(p, BulbBlock(p, s, i).0)
  {
    BulbAccounts(p, s, i);
  }

  /** Closing a photo moves its exposures, and those it lacks, into the photo count. */
  lemma CountAccounts(p: Program, s: State, i: Input)
    requires Accounts(p, s) && s.run == Next
    ensures Accounts(p, CountBlock(p, s, i))
  {
    ClosedAccounts(p, s);
  }

  lemma ClosedAccounts(p: Program, s: State)
    requires Accounts(p, s) && s.run == Next
    ensures Accounts(p, s.(exps := 0, photos := s.photos + 1, run := Gap, trace := s.trace + [PhotoDone(s.exps)]))
  {
    Appended(s.trace, PhotoDone(s.exps), p.PerPhoto());
  }

  lemma NextFits(p: Program, s: State, i: Input)
    requires p.Fits() && ExpsFit(p, s) && CountFits(p, s) && ShownFits(p, s)
    ensures var r := NextBlock(p, s, i).0; ExpsFit(p, r) && CountFits(p, r) && ShownFits(p, r)
  {
  }

  lemma NextAccounts(p: Program, s: State, i: Input)
    requires Accounts(p, s)
    ensures Accounts(p, NextBlock(p, s, i).0)
  {
    if s.run == Next {
      var s1 := if s.prior != Was(Next) then s.(prior := Was(Next), lastPhotoEndMs := i.nextMs) else s;
      CountAccounts(p, s1, i);
    }
  }

  lemma NextCounted(p: Program, s: State, i: Input)
    requires p.Fits() && Counted(p, s)
    ensures Counted(p, NextBlock(p, s, i).0)
  {
    NextFits(p, s, i);
    NextAccounts(p, s, i);
  }

  lemma EnterCounted(p: Program, s: State, i: Input)
    requires Counted(p, s) && s.run == Gap
    ensures Counted(p, EnterGap(s, i))
  {
    Appended(s.trace, GapEntered(Entry(i.gapMs, s.interval)), p.PerPhoto());
  }

  lemma WaitCounted(p: Program, s: State, i: Input)
    requires Counted(p, s) && s.run == Gap
    ensures Counted(p, WaitGap(p, s, i))
  {
    Appended(s.trace, FrameDue(Entry(i.waitMs, s.interval)), p.PerPhoto());
  }

  lemma GapCounted(p: Program, s: State, i: Input)
    requires Counted(p, s)
    ensures Counted(p, GapBlock(p, s, i).0)
  {
    if s.run == Gap {
      EnterCounted(p, s, i);
      WaitCounted(p, EnterGap(s, i), i);
    }
  }

  lemma TriggerCounted(p: Program, s: State, i: Input)
    requires Counted(p, s)
    ensures Counted(p, TriggerBlock(s, i))
  {
  }

  lemma CloseCounted(p: Program, s: State, i: Input)
    requires Counted(p, s)
    ensures Counted(p, CloseBlock(s, i))
  {
  }

  // Runs without failures

  /** Nothing fails for good during the call; a release that fails and is tried again is
      not a failure. */
  predicate ErrorFree(p: Program, i: Input) {
    && !(p.ramp && i.settingFails)
    && !(!i.plainCapture && i.shutterFails && i.ptpError)
    && !i.connectionLost
  }

  ghost predicate Clean(p: Program, s: State) {
    s.run != Error && Missed(s.trace, p.PerPhoto()) == 0 && (s.run == Next ==> s.exps > 0)
  }

  lemma DelayClean(p: Program, s: State, i: Input)
    requires Clean(p, s)
    ensures Clean(p, DelayBlock(p, s, i))
  {
  }

  lemma PhotoClean(p: Program, s: State, i: Input)
    requires p.Fits() && ExpsFit(p, s) && Clean(p, s)
    ensures Clean(p, PhotoBlock(p, s, i))
  {
    if s.run == Photo { ShootClean(p, s); }
  }

  lemma ShootClean(p: Program, s: State)
    requires p.Fits() && ExpsFit(p, s) && Clean(p, s) && s.run == Photo
    ensures Clean(p, Shoot(p, s))
  {
    OneMoreExposure(p, s);
    FiringMissesNothing(s.trace, p.PerPhoto());
  }

  lemma BulbClean(p: Program, s: State, i: Input)
    requires p.Fits() && ExpsFit(p, s) && Clean(p, s) && ErrorFree(p, i)
    ensures Clean(p, BulbBlock(p, s, i).0)
  {
    FiringMissesNothing(s.trace, p.PerPhoto());
    if Exposing(s) { OneMoreExposure(p, s); }
  }

  lemma FiringMissesNothing(trace: seq<Event>, perPhoto: nat)
    ensures Missed(trace + [Fired], perPhoto) == Missed(trace, perPhoto)
  {
    Appended(trace, Fired, perPhoto);
  }

  lemma NextClean(p: Program, s: State, i: Input)
    requires p.Fits() && ExpsFit(p, s) && Clean(p, s) && ErrorFree(p, i)
    ensures Clean(p, NextBlock(p, s, i).0)
  {
    if s.run == Next {
      var s1 := if s.prior != Was(Next) then s.(prior := Was(Next), lastPhotoEndMs := i.nextMs) else s;
      CountClean(p, s1, i);
    }
  }

  /** A photo is only ever closed with all of its exposures. */
  lemma CountClean(p: Program, s: State, i: Input)
    requires s.run == Next && ExpsFit(p, s) && Clean(p, s)
    ensures Clean(p, CountBlock(p, s, i))
  {
    Appended(s.trace, PhotoDone(s.exps), p.PerPhoto());
  }

  lemma GapClean(p: Program, s: State, i: Input)
    requires Clean(p, s)
    ensures Clean(p, GapBlock(p, s, i).0)
  {
    if s.run == Gap {
      EnterClean(p, s, i);
      WaitClean(p, EnterGap(s, i), i);
    }
  }

  lemma EnterClean(p: Program, s: State, i: Input)
    requires Clean(p, s) && s.run == Gap
    ensures Clean(p, EnterGap(s, i))
  {
    Appended(s.trace, GapEntered(Entry(i.gapMs, s.interval)), p.PerPhoto());
  }

  lemma WaitClean(p: Program, s: State, i: Input)
    requires Clean(p, s) && s.run == Gap
    ensures Clean(p, WaitGap(p, s, i))
  {
    WaitMissesNothing(p, s, i);
  }

  lemma WaitMissesNothing(p: Program, s: State, i: Input)
    requires s.run == Gap
    ensures var r := WaitGap(p, s, i);
            (r.run == Gap || r.run == Photo || r.run == Trigger) && Missed(r.trace, p.PerPhoto()) == Missed(s.trace, p.PerPhoto())
  {
    DueMissesNothing(s.trace, Entry(i.waitMs, s.interval), p.PerPhoto());
  }

  lemma DueMissesNothing(trace: seq<Event>, e: Entry, perPhoto: nat)
    ensures Missed(trace + [FrameDue(e)], perPhoto) == Missed(trace, perPhoto)
  {
    Appended(trace, FrameDue(e), perPhoto);
  }

  lemma RestClean(p: Program, s: State, i: Input)
    requires Clean(p, s)
    ensures Clean(p, CloseBlock(TriggerBlock(s, i), i))
  {
  }

  /** Same account: exposures fired and of the current photo, and photos counted. */
  ghost predicate SameCount(s: State, r: State) {
    Fires(r.trace) == Fires(s.trace) && r.exps == s.exps && r.photos == s.photos
  }

  lemma ReleaseFails(p: Program, s: State, i: Input)
    requires s.running && s.run == Bulb && !Exposing(s) && !i.cancel
    requires !i.plainCapture && i.shutterFails && i.ptpError
    ensures var r := Task(p, s, i); r.running && r.run == Error && SameCount(s, r)
  {
  }

  lemma CameraRecovers(p: Program, s: State, i: Input)
    requires s.running && s.run == Error && !i.cancel && i.cameraReady
    ensures var r := Task(p, s, i); r.running && r.run == Next && SameCount(s, r)
  {
  }

  lemma GapBlockFiresNothing(p: Program, s: State, i: Input)
    ensures SameCount(s, GapBlock(p, s, i).0)
  {
    EnterFiresNothing(s, i);
    WaitFiresNothing(p, EnterGap(s, i), i);
  }

  lemma EnterFiresNothing(s: State, i: Input)
    ensures SameCount(s, EnterGap(s, i))
  {
    Appended(s.trace, GapEntered(Entry(i.gapMs, s.interval)), 1);
  }

  lemma WaitFiresNothing(p: Program, s: State, i: Input)
    ensures SameCount(s, WaitGap(p, s, i))
  {
    Appended(s.trace, FrameDue(Entry(i.waitMs, s.interval)), 1);
  }

  lemma RestFiresNothing(s: State, i: Input)
    ensures CloseBlock(TriggerBlock(s, i), i).trace == s.trace
    ensures SameCount(s, CloseBlock(TriggerBlock(s, i), i))
  {
    assert TriggerBlock(s, i).trace == s.trace;
  }

  lemma GapFiresNothing(p: Program, s: State, i: Input)
    ensures SameCount(s, FromGap(p, s, i))
  {
    GapBlockFiresNothing(p, s, i);
    RestFiresNothing(GapBlock(p, s, i).0, i);
  }

  lemma RunGoesOn(p: Program, s: State, i: Input)
    requires s.running && s.run == Next && !i.cancel && !i.cameraAway && !i.connectionLost
    ensures var r := Task(p, s, i);
            Fires(r.trace) == Fires(s.trace) && r.photos == s.photos + if p.hdr && s.exps < p.exps then 0 else 1
  {
    NextGoesOn(p, s, i);
    GapFiresNothing(p, NextBlock(p, s, i).0, i);
  }

  lemma NextGoesOn(p: Program, s: State, i: Input)
    requires s.running && s.run == Next && !i.cancel && !i.cameraAway && !i.connectionLost
    ensures var r := NextBlock(p, s, i).0;
            && Task(p, s, i) == FromGap(p, r, i)
            && Fires(r.trace) == Fires(s.trace) && r.photos == s.photos + if p.hdr && s.exps < p.exps then 0 else 1
  {
    Appended(s.trace, PhotoDone(s.exps), 1);
  }

  /** What a failed release costs: after the reconnection the run goes on as if the exposure
      had been made, so its photo is counted without it, except for an exposure of an
      unfinished bracket, which is repeated. */
  lemma FailedRelease(p: Program, s: State, fails: Input, recovers: Input, goesOn: Input)
    requires s.running && s.run == Bulb && !Exposing(s)
    requires !fails.cancel && !recovers.cancel && !goesOn.cancel
    requires !fails.plainCapture && fails.shutterFails && fails.ptpError && recovers.cameraReady
    requires !goesOn.cameraAway && !goesOn.connectionLost
    ensures var r := Task(p, Task(p, Task(p, s, fails), recovers), goesOn);
            Fires(r.trace) == Fires(s.trace) && r.photos == s.photos + if p.hdr && s.exps < p.exps then 0 else 1
  {
    ReleaseFails(p, s, fails);
    CameraRecovers(p, Task(p, s, fails), recovers);
    RunGoesOn(p, Task(p, Task(p, s, fails), recovers), goesOn);
  }

  // Motion over runs

  /** The clock at the last of these moments; zero, the start of the run, before the first. */
  function LastClock(entries: seq<Entry>): nat { ClockAt(entries, |entries| - 1) }

  /** Every frame was due its interval after the one before, by the 32-bit clock. */
  ghost predicate Spaced(dues: seq<Entry>) {
    forall k :: 0 <= k < |dues| ==> (dues[k].clock - ClockAt(dues, k - 1)) % U32 / 100 >= dues[k].interval
  }

  /** Once the delay is over, the motors' time is what the gaps so far make it, and frames
      have come at their intervals. */
  ghost predicate InMotion(p: Program, s: State) {
    && (s.run == Trigger || s.run == TriggerRelease ==> p.external)
    && (s.run == Delay ==> Gaps(s.trace) == [] && Dues(s.trace) == [])
    && (s.run != Delay && !p.external ==>
          && s.motion == After(Gaps(s.trace))
          && s.lastPhotoMs == LastClock(Dues(s.trace))
          && Spaced(Dues(s.trace)))
  }

  lemma SpacedAppend(dues: seq<Entry>, e: Entry)
    requires Spaced(dues) && (e.clock - LastClock(dues)) % U32 / 100 >= e.interval
    ensures Spaced(dues + [e])
  {
    var all := dues + [e];
    forall k | 0 <= k < |all| ensures (all[k].clock - ClockAt(all, k - 1)) % U32 / 100 >= all[k].interval {
      if k < |dues| { assert all[k] == dues[k] && ClockAt(all, k - 1) == ClockAt(dues, k - 1); }
    }
  }

  lemma AfterAppend(entries: seq<Entry>, e: Entry)
    ensures After(entries + [e]) == Advance(After(entries), e)
  {
    assert (entries + [e])[..|entries|] == entries;
  }

  lemma DelayInMotion(p: Program, s: State, i: Input)
    requires InMotion(p, s)
    ensures InMotion(p, DelayBlock(p, s, i))
  {
  }

  lemma PhotoInMotion(p: Program, s: State, i: Input)
    requires InMotion(p, s)
    ensures InMotion(p, PhotoBlock(p, s, i))
  {
    Appended(s.trace, Fired, 1);
  }

  lemma BulbInMotion(p: Program, s: State, i: Input)
    requires InMotion(p, s)
    ensures InMotion(p, BulbBlock(p, s, i).0)
  {
    Appended(s.trace, Fired, 1);
  }

  lemma NextInMotion(p: Program, s: State, i: Input)
    requires InMotion(p, s)
    ensures InMotion(p, NextBlock(p, s, i).0)
  {
    if s.run == Next {
      var s1 := if s.prior != Was(Next) then s.(prior := Was(Next), lastPhotoEndMs := i.nextMs) else s;
      CountInMotion(p, s1, i);
    }
  }

  lemma CountInMotion(p: Program, s: State, i: Input)
    requires InMotion(p, s) && s.run == Next
    ensures InMotion(p, CountBlock(p, s, i))
  {
    Appended(s.trace, PhotoDone(s.exps), 1);
  }

  lemma GapInMotion(p: Program, s: State, i: Input)
    requires InMotion(p, s)
    ensures InMotion(p, GapBlock(p, s, i).0)
  {
    if s.run == Gap {
      EnterInMotion(p, s, i);
      WaitInMotion(p, EnterGap(s, i), i);
    }
  }

  lemma EnterInMotion(p: Program, s: State, i: Input)
    requires InMotion(p, s) && s.run == Gap
    ensures InMotion(p, EnterGap(s, i))
  {
    var e := Entry(i.gapMs, s.interval);
    Appended(s.trace, GapEntered(e), 1);
    AfterAppend(Gaps(s.trace), e);
  }

  lemma WaitInMotion(p: Program, s: State, i: Input)
    requires InMotion(p, s) && s.run == Gap
    ensures InMotion(p, WaitGap(p, s, i))
  {
    var e := Entry(i.waitMs, s.interval);
    Appended(s.trace, FrameDue(e), 1);
    if !p.external && IntervalOver(s, i) { SpacedAppend(Dues(s.trace), e); }
  }

  lemma RestInMotion(p: Program, s: State, i: Input)
    requires InMotion(p, s)
    ensures InMotion(p, CloseBlock(TriggerBlock(s, i), i))
  {
  }

  // Whole runs

  /** All of it together; without lasting failures if `clean`. */
  ghost predicate Kept(p: Program, s: State, clean: bool) {
    Counted(p, s) && InMotion(p, s) && (clean ==> Clean(p, s))
  }

  lemma EarlyKept(p: Program, s: State, i: Input, clean: bool)
    requires p.Fits() && Kept(p, s, clean)
    ensures Kept(p, PhotoBlock(p, DelayBlock(p, s, i), i), clean)
  {
    var s1 := DelayBlock(p, s, i);
    DelayCounted(p, s, i);
    DelayInMotion(p, s, i);
    PhotoCounted(p, s1, i);
    PhotoInMotion(p, s1, i);
    if clean {
      DelayClean(p, s, i);
      PhotoClean(p, s1, i);
    }
  }

  lemma BulbKept(p: Program, s: State, i: Input, clean: bool)
    requires p.Fits() && Kept(p, s, clean) && (clean ==> ErrorFree(p, i))
    ensures Kept(p, BulbBlock(p, s, i).0, clean)
  {
    BulbCounted(p, s, i);
    BulbInMotion(p, s, i);
    if clean { BulbClean(p, s, i); }
  }

  lemma NextKept(p: Program, s: State, i: Input, clean: bool)
    requires p.Fits() && Kept(p, s, clean) && (clean ==> ErrorFree(p, i))
    ensures Kept(p, NextBlock(p, s, i).0, clean)
  {
    NextCounted(p, s, i);
    NextInMotion(p, s, i);
    if clean { NextClean(p, s, i); }
  }

  lemma GapKept(p: Program, s: State, i: Input, clean: bool)
    requires Kept(p, s, clean)
    ensures Kept(p, GapBlock(p, s, i).0, clean)
  {
    GapCounted(p, s, i);
    GapInMotion(p, s, i);
    if clean { GapClean(p, s, i); }
  }

  lemma RestKept(p: Program, s: State, i: Input, clean: bool)
    requires Kept(p, s, clean)
    ensures Kept(p, CloseBlock(TriggerBlock(s, i), i), clean)
  {
    TriggerCounted(p, s, i);
    CloseCounted(p, TriggerBlock(s, i), i);
    RestInMotion(p, s, i);
    if clean { RestClean(p, s, i); }
  }

  lemma FromGapKept(p: Program, s: State, i: Input, clean: bool)
    requires Kept(p, s, clean)
    ensures Kept(p, FromGap(p, s, i), clean)
  {
    GapKept(p, s, i, clean);
    RestKept(p, GapBlock(p, s, i).0, i, clean);
  }

  lemma FromNextKept(p: Program, s: State, i: Input, clean: bool)
    requires p.Fits() && Kept(p, s, clean) && (clean ==> ErrorFree(p, i))
    ensures Kept(p, FromNext(p, s, i), clean)
  {
    NextKept(p, s, i, clean);
    FromGapKept(p, NextBlock(p, s, i).0, i, clean);
  }

  lemma FromBulbKept(p: Program, s: State, i: Input, clean: bool)
    requires p.Fits() && Kept(p, s, clean) && (clean ==> ErrorFree(p, i))
    ensures Kept(p, FromBulb(p, s, i), clean)
  {
    BulbKept(p, s, i, clean);
    FromNextKept(p, BulbBlock(p, s, i).0, i, clean);
  }

  /** Every call that is not cancelled keeps it, whatever fails during the call. */
  lemma TaskKept(p: Program, s: State, i: Input, clean: bool)
    requires p.Fits() && Kept(p, s, clean) && !i.cancel && (clean ==> ErrorFree(p, i))
    ensures Kept(p, Task(p, s, i), clean)
  {
    if s.running {
      EarlyKept(p, s, i, clean);
      FromBulbKept(p, PhotoBlock(p, DelayBlock(p, s, i), i), i, clean);
    }
  }

  predicate Uncancelled(inputs: seq<Input>) {
    forall k :: 0 <= k < |inputs| ==> !inputs[k].cancel
  }

  predicate AllErrorFree(p: Program, inputs: seq<Input>) {
    forall k :: 0 <= k < |inputs| ==> ErrorFree(p, inputs[k])
  }

  lemma {:induction false} RunKept(p: Program, motion: MotionState, inputs: seq<Input>, clean: bool)
    requires p.Fits() && Uncancelled(inputs) && (clean ==> AllErrorFree(p, inputs))
    ensures Kept(p, Run(p, Started(p, motion), inputs), clean)
  {
    if inputs == [] {
      StartCounted(p, motion);
    } else {
      var before := inputs[..|inputs| - 1];
      RunKept(p, motion, before, clean);
      TaskKept(p, Run(p, Started(p, motion), before), inputs[|inputs| - 1], clean);
    }
  }

  /** No run by count fires more exposures than were asked for. */
  lemma NeverTooMany(p: Program, s: State)
    requires Counted(p, s) && ByCount(p)
    ensures Fires(s.trace) <= p.Total() * p.PerPhoto()
  {
    ExposuresProduct(p.Total(), p.PerPhoto());
    if s.photos < p.Total() { ExposuresGrow(s.photos, p.Total(), p.PerPhoto()); }
  }

  /** Over any uncancelled run, failures and recoveries included: exposures fired and
      missed make up the photos counted and the photo in progress, the numbers shown add up
      to the photos asked for, and a run by count fires no exposure too many. */
  lemma ExposuresAccountedFor(p: Program, motion: MotionState, inputs: seq<Input>)
    requires p.Fits() && Uncancelled(inputs)
    ensures var s := Run(p, Started(p, motion), inputs);
            && Fires(s.trace) + Missed(s.trace, p.PerPhoto())
               == s.photos * p.PerPhoto() + s.exps + (if Exposing(s) then 1 else 0)
            && Missed(s.trace, p.PerPhoto()) >= 0
            && (ByCount(p) ==> Fires(s.trace) <= p.Total() * p.PerPhoto())
            && s.taken == s.photos
            && (ByCount(p) ==> s.photos <= p.Total() && s.taken + s.remaining == p.photos)
  {
    RunKept(p, motion, inputs, false);
    var s := Run(p, Started(p, motion), inputs);
    ExposuresProduct(s.photos, p.PerPhoto());
    if ByCount(p) { NeverTooMany(p, s); }
  }

  /** Whole-run counting: a run by count, not triggered from outside, is over after exactly
      the exposures asked for; with failures, after those less the ones missed. */
  lemma EndsAfterExactly(p: Program, motion: MotionState, inputs: seq<Input>)
    requires p.Fits() && ByCount(p) && !p.external && Uncancelled(inputs)
    requires Run(p, Started(p, motion), inputs).run == End
    ensures var s := Run(p, Started(p, motion), inputs);
            && s.photos == p.Total() && s.remaining == p.photos - p.Total()
            && Fires(s.trace) + Missed(s.trace, p.PerPhoto()) == p.Total() * p.PerPhoto()
            && (AllErrorFree(p, inputs) ==> Fires(s.trace) == p.Total() * p.PerPhoto())
  {
    ExposuresAccountedFor(p, motion, inputs);
    RunKept(p, motion, inputs, false);
    if AllErrorFree(p, inputs) { RunKept(p, motion, inputs, true); }
  }

  /** Motion lag over whole runs: if no frame takes more than its interval and some slack,
      the lead at the last gap is at most 64 times the slack and the catch-up never exceeds
      the slack; if none is early either, the motors' time is never ahead of the last gap's
      clock by more than the slack. */
  lemma MotionLagOverRun(p: Program, motion: MotionState, inputs: seq<Input>, slack: nat)
    requires p.Fits() && Uncancelled(inputs) && !p.external
    requires var gaps := Gaps(Run(p, Started(p, motion), inputs).trace); gaps != [] && Punctual(gaps, slack)
    ensures var s := Run(p, Started(p, motion), inputs);
            var gaps := Gaps(s.trace);
            var last := gaps[|gaps| - 1];
            && Lead(After(gaps[..|gaps| - 1]), last) <= CATCH_UP_FRAMES * slack
            && s.motion.correction <= slack
            && (NeverEarly(gaps) ==> s.motion.ms - last.clock <= slack)
  {
    RunKept(p, motion, inputs, false);
    var gaps := Gaps(Run(p, Started(p, motion), inputs).trace);
    LagBounded(gaps, slack);
    if NeverEarly(gaps) { NotAhead(gaps, slack); }
  }

  /** The interval is kept over whole runs: by a clock that does not run backwards or wrap
      around, each frame is due at least its interval after the one before. */
  lemma IntervalsKept(p: Program, motion: MotionState, inputs: seq<Input>, k: nat)
    requires p.Fits() && Uncancelled(inputs) && !p.external
    requires var dues := Dues(Run(p, Started(p, motion), inputs).trace);
             k < |dues| && ClockAt(dues, k - 1) <= dues[k].clock < U32
    ensures var dues := Dues(Run(p, Started(p, motion), inputs).trace);
            dues[k].clock >= ClockAt(dues, k - 1) + 100 * dues[k].interval
  {
    RunSpaced(p, motion, inputs);
    SpacedPlainly(Dues(Run(p, Started(p, motion), inputs).trace), k);
  }

  lemma RunSpaced(p: Program, motion: MotionState, inputs: seq<Input>)
    requires p.Fits() && Uncancelled(inputs) && !p.external
    ensures Spaced(Dues(Run(p, Started(p, motion), inputs).trace))
  {
    RunKept(p, motion, inputs, false);
  }

  lemma SpacedPlainly(dues: seq<Entry>, k: nat)
    requires Spaced(dues) && k < |dues| && ClockAt(dues, k - 1) <= dues[k].clock < U32
    ensures dues[k].clock >= ClockAt(dues, k - 1) + 100 * dues[k].interval
  {
    assert (dues[k].clock - ClockAt(dues, k - 1)) % U32 / 100 >= dues[k].interval;
  }

  // The pause between exposures is compared in eight bits

  /** An exposure is never fired before the pause is over. */
  lemma PauseKept(p: Program, s: State, i: Input)
    requires MayFire(p, s, i) && s.exps + s.photos > 0 && s.lastPhotoEndMs <= i.photoMs < U32
    ensures i.photoMs - s.lastPhotoEndMs >= 10 * p.fps
  {
  }

  /** Milliseconds since the last exposure ended, by the 32-bit clock. */
  function Since(s: State, i: Input): nat { (i.photoMs - s.lastPhotoEndMs) % U32 }

  /** Hundredths of a second in eight bits. */
  lemma EightBits(e: nat, fps: nat)
    ensures e / 10 % U8 >= fps <==> e % 2560 >= 10 * fps
  {
    var turns, rest := e / 2560, e % 2560;
    assert e / 10 == 256 * turns + rest / 10;
  }

  /** An exposure may be fired exactly when the time since the last one, counted again from
      zero every 2.56 seconds, is not shorter than the pause. */
  lemma PauseExactly(p: Program, s: State, i: Input)
    requires s.exps + s.photos > 0
    ensures MayFire(p, s, i) <==> Since(s, i) % 2560 >= 10 * p.fps
  {
    EightBits(Since(s, i), p.fps);
  }

  /** So an exposure is held up although the pause is over exactly in the first part of each
      later turn of 2.56 seconds, as long as the pause itself. */
  lemma HeldUpExactly(p: Program, s: State, i: Input)
    requires s.exps + s.photos > 0 && p.fps < U8
    ensures var e := Since(s, i);
            (e >= 10 * p.fps && !MayFire(p, s, i)) <==> e >= 2560 && e % 2560 < 10 * p.fps
    ensures MayFire(p, s, i) ==> Since(s, i) >= 10 * p.fps
  {
    PauseExactly(p, s, i);
  }
}
