/**
 A run by count comes to its end: each call that finds what it waits for brings the run
 closer to it, and no other call sets it back.
 */
module RunProgress {
  import opened Motion
  import opened RunSpec
  import opened RunTheorems

  /** Runs this module is about. */
  predicate Countable(p: Program) { p.Fits() && ByCount(p) && !p.external }

  /** Exposures still to be completed. */
  ghost function Left(p: Program, s: State): int {
    Exposures(p.Total(), p.PerPhoto()) - Exposures(s.photos, p.PerPhoto()) - s.exps
  }

  function Phase(s: State): nat {
    match s.run
    case Delay => 6
    case Next => 5
    case Gap => 4
    case Photo => 3
    case Bulb => if Exposing(s) then 1 else 2
    case _ => 0
  }

  /** How far the run is from its end. */
  ghost function Distance(p: Program, s: State): int { 6 * Left(p, s) + Phase(s) }

  /** A running state of a clean run. */
  ghost predicate OnTheWay(p: Program, s: State) { Kept(p, s, true) }

  lemma DistancePositive(p: Program, s: State)
    requires Countable(p) && OnTheWay(p, s) && s.run != End
    ensures Distance(p, s) > 0
  {
    ExposuresGrow(s.photos, p.Total(), p.PerPhoto());
  }

  lemma DelayNearer(p: Program, s: State, i: Input)
    requires Countable(p)
    ensures Distance(p, DelayBlock(p, s, i)) <= Distance(p, s)
    ensures s.run == Delay && i.eventMs / 1000 > p.delay ==> Distance(p, DelayBlock(p, s, i)) < Distance(p, s)
  {
  }

  lemma PhotoNearer(p: Program, s: State, i: Input)
    requires Countable(p) && ExpsFit(p, s)
    ensures Distance(p, PhotoBlock(p, s, i)) <= Distance(p, s)
    ensures s.run == Photo && MayFire(p, s, i) ==> Distance(p, PhotoBlock(p, s, i)) < Distance(p, s)
  {
  }

  /** The release succeeds, or a running exposure is over. */
  predicate BulbMoves(s: State, i: Input) {
    if Exposing(s) then !i.bulbRunning else i.plainCapture || !i.shutterFails
  }

  lemma BulbNearer(p: Program, s: State, i: Input)
    requires Countable(p) && ExpsFit(p, s) && ErrorFree(p, i)
    ensures Distance(p, BulbBlock(p, s, i).0) <= Distance(p, s)
    ensures s.run == Bulb && BulbMoves(s, i) ==> Distance(p, BulbBlock(p, s, i).0) < Distance(p, s)
  {
  }

  lemma CountNearer(p: Program, s: State, i: Input)
    requires s.run == Next && ExpsFit(p, s) && Clean(p, s)
    ensures Distance(p, CountBlock(p, s, i)) <= Distance(p, s)
    ensures !i.busy ==> Distance(p, CountBlock(p, s, i)) < Distance(p, s)
  {
  }

  lemma NextNearer(p: Program, s: State, i: Input)
    requires ExpsFit(p, s) && Clean(p, s) && ErrorFree(p, i)
    ensures Distance(p, NextBlock(p, s, i).0) <= Distance(p, s)
    ensures s.run == Next && !i.cameraAway && !i.busy ==> Distance(p, NextBlock(p, s, i).0) < Distance(p, s)
  {
    if s.run == Next {
      var s1 := if s.prior != Was(Next) then s.(prior := Was(Next), lastPhotoEndMs := i.nextMs) else s;
      CountNearer(p, s1, i);
      ReportNearer(p, CountBlock(p, s1, i), i);
    }
  }

  lemma ReportNearer(p: Program, s: State, i: Input)
    ensures Distance(p, ReportBlock(p, s, i)) <= Distance(p, s)
  {
  }

  /** Motors and focus are at rest and the interval is over. */
  predicate GapMoves(s: State, i: Input) {
    !i.focusing && !i.motorsRunning && IntervalOver(s, i)
  }

  lemma GapNearer(p: Program, s: State, i: Input)
    requires Countable(p)
    ensures Distance(p, GapBlock(p, s, i).0) <= Distance(p, s)
    ensures s.run == Gap && GapMoves(s, i) ==> Distance(p, GapBlock(p, s, i).0) < Distance(p, s)
  {
  }

  lemma RestNearer(p: Program, s: State, i: Input)
    requires Countable(p) && OnTheWay(p, s)
    ensures Distance(p, CloseBlock(TriggerBlock(s, i), i)) <= Distance(p, s)
  {
  }

  /** The call finds what the run waits for. */
  predicate Productive(p: Program, s: State, i: Input) {
    match s.run
    case Delay => i.eventMs / 1000 > p.delay
    case Photo => MayFire(p, s, i)
    case Bulb => BulbMoves(s, i)
    case Next => !i.cameraAway && !i.busy
    case Gap => GapMoves(s, i)
    case _ => false
  }

  lemma FromGapNearer(p: Program, s: State, i: Input)
    requires Countable(p) && OnTheWay(p, s)
    ensures Distance(p, FromGap(p, s, i)) <= Distance(p, s)
    ensures s.run == Gap && GapMoves(s, i) ==> Distance(p, FromGap(p, s, i)) < Distance(p, s)
  {
    GapNearer(p, s, i);
    GapKept(p, s, i, true);
    RestNearer(p, GapBlock(p, s, i).0, i);
  }

  lemma FromNextNearer(p: Program, s: State, i: Input)
    requires Countable(p) && OnTheWay(p, s) && ErrorFree(p, i)
    ensures Distance(p, FromNext(p, s, i)) <= Distance(p, s)
    ensures s.run == Next && !i.cameraAway && !i.busy ==> Distance(p, FromNext(p, s, i)) < Distance(p, s)
    ensures s.run == Gap && GapMoves(s, i) ==> Distance(p, FromNext(p, s, i)) < Distance(p, s)
  {
    NextNearer(p, s, i);
    NextKept(p, s, i, true);
    FromGapNearer(p, NextBlock(p, s, i).0, i);
  }

  lemma FromBulbNearer(p: Program, s: State, i: Input)
    requires Countable(p) && OnTheWay(p, s) && ErrorFree(p, i)
    ensures Distance(p, FromBulb(p, s, i)) <= Distance(p, s)
    ensures s.run == Bulb && BulbMoves(s, i) ==> Distance(p, FromBulb(p, s, i)) < Distance(p, s)
    ensures s.run == Next && !i.cameraAway && !i.busy ==> Distance(p, FromBulb(p, s, i)) < Distance(p, s)
    ensures s.run == Gap && GapMoves(s, i) ==> Distance(p, FromBulb(p, s, i)) < Distance(p, s)
  {
    BulbNearer(p, s, i);
    BulbKept(p, s, i, true);
    FromNextNearer(p, BulbBlock(p, s, i).0, i);
  }

  /** No call takes the run further from its end, and a productive one brings it nearer. */
  lemma TaskNearer(p: Program, s: State, i: Input)
    requires Countable(p) && OnTheWay(p, s) && !i.cancel && ErrorFree(p, i) && s.running
    ensures Distance(p, Task(p, s, i)) <= Distance(p, s)
    ensures Productive(p, s, i) ==> Distance(p, Task(p, s, i)) < Distance(p, s)
  {
    var s1 := DelayBlock(p, s, i);
    DelayNearer(p, s, i);
    DelayCounted(p, s, i);
    PhotoNearer(p, s1, i);
    EarlyKept(p, s, i, true);
    FromBulbNearer(p, PhotoBlock(p, s1, i), i);
  }

  /** The productive calls of a run. */
  ghost function Progress(p: Program, s: State, inputs: seq<Input>): nat {
    if inputs == [] then 0
    else
      var n := |inputs| - 1;
      var r := Run(p, s, inputs[..n]);
      Progress(p, s, inputs[..n]) + if r.run != End && Productive(p, r, inputs[n]) then 1 else 0
  }

  lemma EndStays(p: Program, s: State, i: Input)
    requires s.run == End
    ensures Task(p, s, i).run == End
  {
  }

  /** One more call on the way. */
  lemma StepCounts(p: Program, s: State, i: Input)
    requires Countable(p) && OnTheWay(p, s) && !i.cancel && ErrorFree(p, i)
    ensures OnTheWay(p, Task(p, s, i))
    ensures s.run != End ==> Distance(p, Task(p, s, i)) + (if Productive(p, s, i) then 1 else 0) <= Distance(p, s)
    ensures s.run == End ==> Task(p, s, i).run == End
  {
    TaskKept(p, s, i, true);
    if s.run == End { EndStays(p, s, i); } else { TaskNearer(p, s, i); }
  }

  lemma {:induction false} ProgressCounts(p: Program, motion: MotionState, inputs: seq<Input>)
    requires Countable(p) && Uncancelled(inputs) && AllErrorFree(p, inputs)
    ensures var s := Started(p, motion);
            var r := Run(p, s, inputs);
            && OnTheWay(p, r)
            && (r.run == End || Distance(p, r) + Progress(p, s, inputs) <= Distance(p, s))
  {
    if inputs == [] {
      StartCounted(p, motion);
    } else {
      var n := |inputs| - 1;
      ProgressCounts(p, motion, inputs[..n]);
      StepCounts(p, Run(p, Started(p, motion), inputs[..n]), inputs[n]);
    }
  }

  lemma StartDistance(p: Program, motion: MotionState)
    ensures Distance(p, Started(p, motion)) == 6 * (p.Total() * p.PerPhoto()) + 6
  {
    ExposuresProduct(p.Total(), p.PerPhoto());
  }

  lemma LongEnough(p: Program, motion: MotionState, inputs: seq<Input>)
    requires Countable(p) && Uncancelled(inputs) && AllErrorFree(p, inputs)
    requires Progress(p, Started(p, motion), inputs) >= Distance(p, Started(p, motion))
    ensures Run(p, Started(p, motion), inputs).run == End
  {
    var r := Run(p, Started(p, motion), inputs);
    ProgressCounts(p, motion, inputs);
    if r.run != End { DistancePositive(p, r); }
  }

  /** Liveness: after six productive calls per exposure, and six for the delay, an
      uncancelled error-free run by count is over, however many other calls come between;
      and by then it has fired exactly the exposures asked for. */
  lemma RunEnds(p: Program, motion: MotionState, inputs: seq<Input>)
    requires Countable(p) && Uncancelled(inputs) && AllErrorFree(p, inputs)
    requires Progress(p, Started(p, motion), inputs) >= 6 * (p.Total() * p.PerPhoto()) + 6
    ensures var s := Run(p, Started(p, motion), inputs);
            s.run == End && Fires(s.trace) == p.Total() * p.PerPhoto()
  {
    StartDistance(p, motion);
    LongEnough(p, motion, inputs);
    EndsAfterExactly(p, motion, inputs);
  }
}
