/**
 What each call of the run routine waits for, and what it does once it finds it: the start
 delay, the pause, the release, the end of the exposure, the camera, the motors and the
 interval, the outside trigger. And over whole runs: nothing is fired before the delay is
 over or, with an outside trigger, before the contact has closed and opened.
 */
module RunWaits {
  import opened Motion
  import opened RunSpec
  import opened RunTheorems

  // Which blocks a call gets to

  lemma StartsAtBulb(p: Program, s: State, i: Input)
    requires s.running && !i.cancel && s.run != Delay && s.run != Photo
    ensures Task(p, s, i) == FromBulb(p, s, i)
  {
  }

  lemma StartsAtNext(p: Program, s: State, i: Input)
    requires s.running && !i.cancel && s.run != Delay && s.run != Photo && s.run != Bulb
    ensures Task(p, s, i) == FromNext(p, s, i)
  {
    StartsAtBulb(p, s, i);
  }

  lemma StartsAtGap(p: Program, s: State, i: Input)
    requires s.running && !i.cancel && s.run in {Gap, Trigger, TriggerRelease, Error, End}
    ensures Task(p, s, i) == FromGap(p, s, i)
  {
    StartsAtNext(p, s, i);
  }

  lemma StartsAtTrigger(p: Program, s: State, i: Input)
    requires s.running && !i.cancel && s.run in {Trigger, TriggerRelease, Error, End}
    ensures Task(p, s, i) == CloseBlock(TriggerBlock(s, i), i)
  {
    StartsAtGap(p, s, i);
  }

  // The delay

  lemma GapNotBack(p: Program, s: State, i: Input)
    requires s.run != Delay
    ensures FromGap(p, s, i).run != Delay
  {
  }

  lemma NextNotBack(p: Program, s: State, i: Input)
    requires s.run != Delay
    ensures FromNext(p, s, i).run != Delay
  {
    GapNotBack(p, NextBlock(p, s, i).0, i);
  }

  /** No call goes back to the delay. */
  lemma NotBack(p: Program, s: State, i: Input)
    requires s.run != Delay
    ensures Task(p, s, i).run != Delay
  {
    var s1 := PhotoBlock(p, DelayBlock(p, if i.cancel then s.(run := End) else s, i), i);
    NextNotBack(p, BulbBlock(p, s1, i).0, i);
  }

  lemma DelayLasts(p: Program, s: State, i: Input)
    requires s.run == Delay && s.running && !i.cancel && !p.external
    requires i.eventMs / 1000 <= p.delay
    ensures var r := Task(p, s, i); r.run == Delay && r.running && r.trace == s.trace
  {
  }

  lemma DelayEnds(p: Program, s: State, i: Input)
    requires s.run == Delay && s.running && !i.cancel && i.eventMs / 1000 > p.delay
    ensures Task(p, s, i).run != Delay
  {
    var s1 := PhotoBlock(p, DelayBlock(p, s, i), i);
    NextNotBack(p, BulbBlock(p, s1, i).0, i);
  }

  lemma DelayStep(p: Program, s: State, i: Input)
    requires !i.cancel && !p.external && (s.run == Delay ==> s.running)
    ensures var r := Task(p, s, i);
            && (r.run == Delay <==> s.run == Delay && i.eventMs / 1000 <= p.delay)
            && (r.run == Delay ==> r.running && r.trace == s.trace)
  {
    if s.run != Delay {
      NotBack(p, s, i);
    } else if i.eventMs / 1000 <= p.delay {
      DelayLasts(p, s, i);
    } else {
      DelayEnds(p, s, i);
    }
  }

  /** No call has found the delay over. */
  predicate NotYet(p: Program, inputs: seq<Input>) {
    forall k :: 0 <= k < |inputs| ==> inputs[k].eventMs / 1000 <= p.delay
  }

  lemma NotYetStep(p: Program, inputs: seq<Input>)
    requires inputs != []
    ensures var n := |inputs| - 1; NotYet(p, inputs) <==> NotYet(p, inputs[..n]) && inputs[n].eventMs / 1000 <= p.delay
  {
    var n := |inputs| - 1;
    if NotYet(p, inputs[..n]) && inputs[n].eventMs / 1000 <= p.delay {
      forall k | 0 <= k < |inputs| ensures inputs[k].eventMs / 1000 <= p.delay {
        if k < n { assert inputs[..n][k] == inputs[k]; }
      }
    }
  }

  /** The delay is waited for: in every uncancelled run without an outside trigger it lasts
      until the first call that finds more than the delay has passed, and ends with it; until
      then nothing has happened. */
  lemma {:induction false} DelayExactly(p: Program, motion: MotionState, inputs: seq<Input>)
    requires !p.external && Uncancelled(inputs)
    ensures var s := Run(p, Started(p, motion), inputs);
            && (s.run == Delay <==> NotYet(p, inputs))
            && (s.run == Delay ==> s.running && s.trace == [])
  {
    if inputs != [] {
      var n := |inputs| - 1;
      DelayExactly(p, motion, inputs[..n]);
      NotYetStep(p, inputs);
      DelayStep(p, Run(p, Started(p, motion), inputs[..n]), inputs[n]);
    }
  }

  /** So no exposure is fired before the delay is over. */
  lemma NothingBeforeDelay(p: Program, motion: MotionState, inputs: seq<Input>)
    requires !p.external && Uncancelled(inputs)
    requires Fired in Run(p, Started(p, motion), inputs).trace
    ensures exists k :: 0 <= k < |inputs| && inputs[k].eventMs / 1000 > p.delay
  {
    DelayExactly(p, motion, inputs);
  }

  // The outside trigger

  /** The delay was over at the first call, the only one that looks at it. */
  predicate StartedLate(p: Program, inputs: seq<Input>) {
    inputs != [] && inputs[0].eventMs / 1000 > p.delay
  }

  predicate Closed(inputs: seq<Input>) { exists i :: 0 <= i < |inputs| && inputs[i].contact }

  predicate ClosedAndOpened(inputs: seq<Input>) {
    exists i, j :: 0 <= i <= j < |inputs| && inputs[i].contact && !inputs[j].contactLater
  }

  /** The run waits for the trigger and has done nothing yet. */
  predicate Untriggered(s: State, inputs: seq<Input>) {
    && s.running && s.trace == [] && s.photos == 0
    && match s.run
       case Delay => inputs == []
       case Trigger => true
       case TriggerRelease => Closed(inputs)
       case _ => false
  }

  lemma TriggerStep(p: Program, s: State, before: seq<Input>, i: Input)
    requires p.external && Untriggered(s, before) && s.run != Delay && !i.cancel
    ensures Untriggered(Task(p, s, i), before + [i]) || ClosedAndOpened(before + [i])
  {
    StartsAtTrigger(p, s, i);
    var all := before + [i];
    assert all[|before|] == i;
    if s.run == TriggerRelease {
      var k :| 0 <= k < |before| && before[k].contact;
      assert all[k] == before[k];
    }
  }

  lemma FirstCall(p: Program, s: State, i: Input)
    requires p.external && Untriggered(s, []) && s.run == Delay && !i.cancel
    ensures Untriggered(Task(p, s, i), [i]) || StartedLate(p, [i]) || ClosedAndOpened([i])
  {
    var one := [i];
    assert one[0] == i;
    if i.eventMs / 1000 <= p.delay {
      var d := DelayBlock(p, s, i);
      assert d.run == Trigger;
      StartsAtTrigger(p, d, i);
      TriggerStep(p, d, [], i);
      assert [] + one == one;
    }
  }

  /** The run has been triggered, or still waits for it. */
  ghost predicate TriggeredOrNot(p: Program, s: State, inputs: seq<Input>) {
    Untriggered(s, inputs) || StartedLate(p, inputs) || ClosedAndOpened(inputs)
  }

  lemma StaysTriggered(p: Program, before: seq<Input>, i: Input)
    ensures StartedLate(p, before) ==> StartedLate(p, before + [i])
    ensures ClosedAndOpened(before) ==> ClosedAndOpened(before + [i])
  {
    if ClosedAndOpened(before) {
      var a, b :| 0 <= a <= b < |before| && before[a].contact && !before[b].contactLater;
      assert (before + [i])[a] == before[a] && (before + [i])[b] == before[b];
    }
  }

  lemma TriggerCall(p: Program, s: State, before: seq<Input>, i: Input)
    requires p.external && !i.cancel && TriggeredOrNot(p, s, before)
    ensures TriggeredOrNot(p, Task(p, s, i), before + [i])
  {
    StaysTriggered(p, before, i);
    if Untriggered(s, before) {
      if s.run == Delay {
        FirstCall(p, s, i);
        assert before + [i] == [i];
      } else {
        TriggerStep(p, s, before, i);
      }
    }
  }

  lemma {:induction false} TriggerRun(p: Program, motion: MotionState, inputs: seq<Input>)
    requires p.external && Uncancelled(inputs)
    ensures TriggeredOrNot(p, Run(p, Started(p, motion), inputs), inputs)
  {
    if inputs != [] {
      var n := |inputs| - 1;
      TriggerRun(p, motion, inputs[..n]);
      TriggerCall(p, Run(p, Started(p, motion), inputs[..n]), inputs[..n], inputs[n]);
      assert inputs[..n] + [inputs[n]] == inputs;
    }
  }

  /** With an outside trigger nothing is fired before the contact has closed and opened,
      unless the delay was already over at the first call. */
  lemma NothingBeforeTrigger(p: Program, motion: MotionState, inputs: seq<Input>)
    requires p.external && Uncancelled(inputs)
    requires Fired in Run(p, Started(p, motion), inputs).trace
    ensures StartedLate(p, inputs) || ClosedAndOpened(inputs)
  {
    TriggerRun(p, motion, inputs);
  }

  // Firing

  /** The pause since the last exposure is over, by the clock that starts again every 2.56
      seconds; the first exposure needs none. */
  predicate PauseOver(p: Program, s: State, i: Input) {
    s.exps + s.photos == 0 || (i.photoMs - s.lastPhotoEndMs) % 0x1_0000_0000 % 2560 >= 10 * p.fps
  }

  /** The camera takes the settings and releases. */
  predicate Releases(p: Program, i: Input) {
    !(p.ramp && i.settingFails) && (i.plainCapture || !i.shutterFails)
  }

  /** The call fires an exposure. */
  predicate FiresNow(p: Program, s: State, i: Input) {
    match s.run
    case Delay => i.eventMs / 1000 > p.delay && PauseOver(p, s, i) && (p.bulb || p.ramp ==> Releases(p, i))
    case Photo => PauseOver(p, s, i) && (p.bulb || p.ramp ==> Releases(p, i))
    case Bulb => s.prior != Was(Bulb) && Releases(p, i)
    case _ => false
  }

  lemma MayFireExactly(p: Program, s: State, i: Input)
    ensures MayFire(p, s, i) <==> PauseOver(p, s, i)
  {
    EightBits((i.photoMs - s.lastPhotoEndMs) % U32, p.fps);
  }

  lemma NextFiresNothing(p: Program, s: State, i: Input)
    ensures Fires(FromNext(p, s, i).trace) == Fires(s.trace)
  {
    Appended(s.trace, PhotoDone(s.exps), 1);
    GapFiresNothing(p, NextBlock(p, s, i).0, i);
  }

  lemma BulbFires(p: Program, s: State, i: Input)
    ensures Fires(FromBulb(p, s, i).trace)
            == Fires(s.trace) + if s.run == Bulb && s.prior != Was(Bulb) && Releases(p, i) then 1 else 0
  {
    Appended(s.trace, Fired, 1);
    NextFiresNothing(p, BulbBlock(p, s, i).0, i);
  }

  lemma PhotoFires(p: Program, s: State, i: Input)
    requires s.run == Photo
    ensures Fires(FromBulb(p, PhotoBlock(p, s, i), i).trace)
            == Fires(s.trace) + if PauseOver(p, s, i) && (p.bulb || p.ramp ==> Releases(p, i)) then 1 else 0
  {
    MayFireExactly(p, s, i);
    Appended(s.trace, Fired, 1);
    BulbFires(p, PhotoBlock(p, s, i), i);
  }

  lemma DelayFires(p: Program, s: State, i: Input)
    requires s.running && !i.cancel && s.run == Delay
    ensures Fires(Task(p, s, i).trace) == Fires(s.trace) + if FiresNow(p, s, i) then 1 else 0
  {
    var d := DelayBlock(p, s, i);
    SamePause(p, s, d, i);
    if i.eventMs / 1000 > p.delay {
      PhotoFires(p, d, i);
    } else {
      assert PhotoBlock(p, d, i) == d;
      BulbFires(p, d, i);
    }
  }

  lemma SamePause(p: Program, s: State, d: State, i: Input)
    requires d.exps == s.exps && d.photos == s.photos && d.lastPhotoEndMs == s.lastPhotoEndMs
    ensures PauseOver(p, d, i) == PauseOver(p, s, i)
  {
  }

  lemma StartsAtPhoto(p: Program, s: State, i: Input)
    requires s.running && !i.cancel && s.run == Photo
    ensures Task(p, s, i) == FromBulb(p, PhotoBlock(p, s, i), i)
  {
  }

  /** A call fires exactly when the delay or the last pause is over and the camera releases,
      and never more than once. */
  lemma FiresExactly(p: Program, s: State, i: Input)
    requires s.running && !i.cancel
    ensures Fires(Task(p, s, i).trace) == Fires(s.trace) + if FiresNow(p, s, i) then 1 else 0
  {
    if s.run == Delay {
      DelayFires(p, s, i);
    } else if s.run == Photo {
      StartsAtPhoto(p, s, i);
      PhotoFires(p, s, i);
    } else {
      StartsAtBulb(p, s, i);
      BulbFires(p, s, i);
    }
  }

  /** A release that does not come off fires nothing and counts nothing: if a setting cannot be
      made or the camera reports an error the run waits for the camera, otherwise the next
      call tries again. */
  lemma ReleaseFailsExactly(p: Program, s: State, i: Input)
    requires s.running && !i.cancel && s.run == Bulb && s.prior != Was(Bulb) && !Releases(p, i)
    ensures var r := Task(p, s, i);
            && r.running && r.trace == s.trace && r.exps == s.exps && r.photos == s.photos
            && if (p.ramp && i.settingFails) || i.ptpError then r.run == Error
               else r.run == Bulb && r.prior != Was(Bulb)
  {
    StartsAtBulb(p, s, i);
  }

  /** An exposure counts when the bulb is closed, and not before. */
  lemma ExposureEndsExactly(p: Program, s: State, i: Input)
    requires s.running && !i.cancel && Exposing(s) && s.exps < 255
    ensures var r := Task(p, s, i);
            if i.bulbRunning then r == s
            else r.run == Next && r.exps == s.exps + 1 && r.trace == s.trace && r.photos == s.photos
  {
    StartsAtBulb(p, s, i);
  }

  // Closing a photo, and the end

  /** The bracket is complete. */
  predicate Complete(p: Program, s: State) { !p.hdr || s.exps >= p.exps }

  /** The run was to end here: by time for a ramp, by count otherwise; one without an end goes on. */
  predicate ToEnd(p: Program, photos: nat, seconds: nat) {
    if p.ramp then !p.external && seconds >= p.duration * 60
    else p.photos != 0 && (photos >= p.photos || (!p.timelapse && photos >= 1))
  }

  lemma AfterNext(p: Program, s: State, i: Input)
    requires s.run == Next && !i.cameraAway && !i.connectionLost
    ensures var (r, back) := NextBlock(p, s, i);
            && !back && r.photos == s.photos + (if Complete(p, s) then 1 else 0) && r.running == s.running
            && (r.run == End <==> ToEnd(p, r.photos, i.seconds))
            && (r.run != End ==> r.run == if Complete(p, s) then Gap else if i.busy then Next else Photo)
  {
  }

  lemma GapKeepsPhotos(p: Program, s: State, i: Input)
    requires !p.external && s.run in {Gap, Next, Photo, End}
    ensures var r := FromGap(p, s, i);
            && r.photos == s.photos
            && (s.run == End ==> r.run == End && !r.running)
            && (s.run != End ==> r.running == s.running && r.run != End)
            && (s.run in {Next, Photo} ==> r.run == s.run)
            && (s.run == Gap ==> r.run == Gap || r.run == Photo)
  {
  }

  /** A photo is closed exactly when the camera is there and its bracket complete, and the run
      stops then exactly when its count or its time is reached. */
  lemma PhotoClosedExactly(p: Program, s: State, i: Input)
    requires s.running && !i.cancel && s.run == Next && !p.external
    ensures var r := Task(p, s, i);
            if i.cameraAway then r.run == Next && r.running && r.photos == s.photos
            else if i.connectionLost then r.run == Error && r.running && r.photos == s.photos
            else
              && r.photos == s.photos + (if Complete(p, s) then 1 else 0)
              && (r.running <==> !ToEnd(p, r.photos, i.seconds))
              && (r.running && !Complete(p, s) ==> r.run == if i.busy then Next else Photo)
              && (r.running && Complete(p, s) ==> r.run == Gap || r.run == Photo)
  {
    StartsAtNext(p, s, i);
    if !i.cameraAway && !i.connectionLost {
      AfterNext(p, s, i);
      GapKeepsPhotos(p, NextBlock(p, s, i).0, i);
    }
  }

  // The gap

  /** The next frame is due exactly when focus and motors are at rest and the interval since
      the last one has passed; until then the run stays in its gap. */
  lemma GapExactly(p: Program, s: State, i: Input)
    requires s.running && !i.cancel && s.run == Gap && !p.external
    ensures var r := Task(p, s, i);
            var due := !i.focusing && !i.motorsRunning && (i.waitMs - s.lastPhotoMs) % 0x1_0000_0000 / 100 >= s.interval;
            && r.running && r.photos == s.photos && r.exps == s.exps
            && r.run == (if due then Photo else Gap)
            && r.lastPhotoMs == if due then i.waitMs else s.lastPhotoMs
  {
    StartsAtGap(p, s, i);
    GapBlockExactly(p, s, i);
  }

  lemma GapBlockExactly(p: Program, s: State, i: Input)
    requires s.run == Gap && !p.external
    ensures var (r, back) := GapBlock(p, s, i);
            var due := !i.focusing && !i.motorsRunning && (i.waitMs - s.lastPhotoMs) % 0x1_0000_0000 / 100 >= s.interval;
            && r.running == s.running && r.photos == s.photos && r.exps == s.exps
            && r.run == (if due then Photo else Gap)
            && r.lastPhotoMs == if due then i.waitMs else s.lastPhotoMs
  {
    var e := EnterGap(s, i);
    assert e.lastPhotoMs == s.lastPhotoMs && e.interval == s.interval && e.run == Gap;
  }

  /** An outside trigger is a contact that closes and opens, which sets the interval; ten
      missed intervals end the run. */
  lemma TriggerExactly(p: Program, s: State, i: Input)
    requires s.running && !i.cancel && (s.run == Trigger || s.run == TriggerRelease)
    ensures var r := Task(p, s, i);
            var closed := s.run == TriggerRelease || i.contact;
            var waited := (i.triggerMs - s.lastPhotoMs) % 0x1_0000_0000;
            var lost := s.photos > 2 && waited / 1000 >= s.interval;
            && (closed && !i.contactLater ==>
                  && r.run == Photo && r.lastPhotoMs == i.triggerMs
                  && r.interval == if s.photos > 1 then waited / 100 % 0x1_0000 else s.interval)
            && (closed && i.contactLater && !lost ==> r.run == TriggerRelease)
            && (!closed && !lost ==> r.run == Trigger)
            && (lost && (!closed || i.contactLater) ==> r.run == End && !r.running)
            && r.trace == s.trace && r.photos == s.photos
  {
    StartsAtTrigger(p, s, i);
  }

  /** An error is left when the camera is back, for the photo it interrupted. */
  lemma ErrorLeftExactly(p: Program, s: State, i: Input)
    requires s.running && !i.cancel && s.run == Error
    ensures var r := Task(p, s, i);
            r.run == (if i.cameraReady then Next else Error) && r.running && r.trace == s.trace
  {
    StartsAtTrigger(p, s, i);
  }

  /** Cancelling ends the run in that call. */
  lemma CancelEnds(p: Program, s: State, i: Input)
    requires i.cancel
    ensures !Task(p, s, i).running && Fires(Task(p, s, i).trace) == Fires(s.trace)
  {
    if s.running {
      var e := s.(run := End);
      StartsAtTrigger(p, e, i.(cancel := false));
    }
  }

  // What a call notes down

  /** A ramp takes its interval for the next frame with each release; others keep theirs. */
  lemma IntervalTaken(p: Program, s: State, i: Input)
    requires s.running && !i.cancel && s.run == Bulb && s.prior != Was(Bulb)
    ensures Task(p, s, i).interval == if p.ramp then i.interval else s.interval
  {
    StartsAtBulb(p, s, i);
  }

  lemma RestKeeps(s: State, i: Input)
    ensures var r := CloseBlock(TriggerBlock(s, i), i);
            r.trace == s.trace && r.motion == s.motion && r.lastPhotoEndMs == s.lastPhotoEndMs
  {
    var t := TriggerBlock(s, i);
    assert t.trace == s.trace && t.motion == s.motion && t.lastPhotoEndMs == s.lastPhotoEndMs;
  }

  lemma GapKeepsEndTime(p: Program, s: State, i: Input)
    ensures FromGap(p, s, i).lastPhotoEndMs == s.lastPhotoEndMs
  {
    var g := GapBlock(p, s, i).0;
    assert g.lastPhotoEndMs == s.lastPhotoEndMs;
    RestKeeps(g, i);
  }

  lemma WaitKeepsGaps(p: Program, s: State, i: Input)
    ensures Gaps(WaitGap(p, s, i).trace) == Gaps(s.trace) && WaitGap(p, s, i).motion == s.motion
  {
    Appended(s.trace, FrameDue(Entry(i.waitMs, s.interval)), 1);
  }

  lemma EntersOnce(s: State, i: Input)
    ensures var e := EnterGap(s, i);
            if s.prior == Was(Gap) then e == s
            else Gaps(e.trace) == Gaps(s.trace) + [Entry(i.gapMs, s.interval)]
  {
    Appended(s.trace, GapEntered(Entry(i.gapMs, s.interval)), 1);
  }

  lemma GapBlockEnters(p: Program, s: State, i: Input)
    requires s.run == Gap
    ensures var g, e := GapBlock(p, s, i).0, EnterGap(s, i); Gaps(g.trace) == Gaps(e.trace) && g.motion == e.motion
  {
    WaitKeepsGaps(p, EnterGap(s, i), i);
  }

  /** The end of an exposure is noted once, by the first call that finds it done. */
  lemma EndNoted(p: Program, s: State, i: Input)
    requires s.running && !i.cancel && s.run == Next
    ensures Task(p, s, i).lastPhotoEndMs == if s.prior == Was(Next) then s.lastPhotoEndMs else i.nextMs
  {
    StartsAtNext(p, s, i);
    GapKeepsEndTime(p, NextBlock(p, s, i).0, i);
  }

  /** A gap is entered once, with the clock and the interval of that moment; motion time
      advances then and only then. */
  lemma GapEnteredOnce(p: Program, s: State, i: Input)
    requires s.running && !i.cancel && s.run == Gap
    ensures var r := Task(p, s, i);
            if s.prior == Was(Gap) then Gaps(r.trace) == Gaps(s.trace) && r.motion == s.motion
            else Gaps(r.trace) == Gaps(s.trace) + [Entry(i.gapMs, s.interval)]
  {
    StartsAtGap(p, s, i);
    EntersOnce(s, i);
    GapBlockEnters(p, s, i);
    RestKeeps(GapBlock(p, s, i).0, i);
  }
}
