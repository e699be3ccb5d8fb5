/**
 The run machine itself: the timer's fields, updated in place call by call. They are at
 all times those of the state machine after the calls made so far, so that the numbers
 the timer holds are accounted for in every run.
 */
module RunMachine {
  import opened Motion
  import opened RunSpec
  import opened RunTheorems
  import opened RunWaits

  class Timer {
    const program: Program
    var running: bool
    var run: RunState
    var prior: Prior
    var photos: nat
    var exps: nat
    var taken: int
    var remaining: int
    var interval: nat
    var lastPhotoMs: nat
    var lastPhotoEndMs: nat
    var motion: MotionState
    var trace: seq<Event>
    ghost const origin: MotionState  // the motors' time when the run was started
    ghost var calls: seq<Input>      // what the calls so far have seen

    ghost predicate Valid()
      reads this
    {
      Snapshot() == Run(program, Started(program, origin), calls)
    }

    /** The run has been neither cancelled nor given fields that are too wide. */
    ghost predicate Proper()
      reads this
    {
      program.Fits() && Uncancelled(calls)
    }

    ghost function Snapshot(): State
      reads this
    {
      State(running, run, prior, photos, exps, taken, remaining, interval, lastPhotoMs, lastPhotoEndMs, motion, trace)
    }

    constructor (program: Program, motion: MotionState)
      ensures Valid() && this.program == program && calls == [] && running
    {
      this.program, origin, calls := program, motion, [];
      running, run, prior := true, Delay, Unknown;
      photos, exps, taken, remaining := 0, 0, 0, program.photos;
      interval, lastPhotoMs, lastPhotoEndMs := program.gap, 0, 0;
      this.motion := motion;
      trace := [];
    }

    method RunDelay(i: Input)
      modifies this`run, this`prior, this`motion, this`lastPhotoMs
      ensures Snapshot() == DelayBlock(program, old(Snapshot()), i)
    {
      if run == Delay {
        prior := Was(Delay);
        if i.eventMs / 1000 > program.delay {
          motion := MotionState(0, 0);
          lastPhotoMs := 0;
          run := Photo;
        } else if program.external {
          run := Trigger;
        }
      }
    }

    method RunPhoto(i: Input)
      modifies this`run, this`prior, this`lastPhotoEndMs, this`exps, this`trace
      ensures Snapshot() == PhotoBlock(program, old(Snapshot()), i)
    {
      if run == Photo && (exps + photos == 0 || (i.photoMs - lastPhotoEndMs) % U32 / 10 % U8 >= program.fps) {
        lastPhotoEndMs := 0;
        prior := Was(Photo);
        if program.bulb || program.ramp {
          run := Bulb;
        } else {
          exps := (exps + 1) % U8;
          trace := trace + [Fired];
          run := Next;
        }
      }
    }

    method RunBulb(i: Input) returns (back: bool)
      modifies this`run, this`prior, this`interval, this`exps, this`trace
      ensures (Snapshot(), back) == BulbBlock(program, old(Snapshot()), i)
    {
      if run != Bulb { return false; }
      if prior != Was(Bulb) {
        prior := Was(Bulb);
        if program.ramp {
          interval := i.interval;
          if i.settingFails {
            run := Error;
            return true;
          }
        }
        if !i.plainCapture && i.shutterFails {
          prior := Was(Delay);
          if i.ptpError { run := Error; }
          return true;
        }
        trace := trace + [Fired];
      } else if !i.bulbRunning {
        exps := (exps + 1) % U8;
        run := Next;
        return true;
      }
      back := false;
    }

    method CountPhoto(i: Input)
      modifies this`run, this`photos, this`exps, this`trace
      ensures Snapshot() == CountBlock(program, old(Snapshot()), i)
    {
      if !program.hdr || exps >= program.exps {
        trace := trace + [PhotoDone(exps)];
        exps := 0;
        photos := photos + 1;
        run := Gap;
      } else if !i.busy {
        run := Photo;
      }
    }

    method Report(i: Input)
      modifies this`run, this`taken, this`remaining
      ensures Snapshot() == ReportBlock(program, old(Snapshot()), i)
    {
      if Over(program, photos, i) { run := End; }
      remaining := (program.photos - photos) % U16;
      taken := photos;
    }

    method RunNext(i: Input) returns (back: bool)
      modifies this`run, this`prior, this`lastPhotoEndMs, this`photos, this`exps, this`taken, this`remaining, this`trace
      ensures (Snapshot(), back) == NextBlock(program, old(Snapshot()), i)
    {
      if run != Next { return false; }
      if prior != Was(Next) {
        prior := Was(Next);
        lastPhotoEndMs := i.nextMs;
      }
      if i.cameraAway { return true; }
      if i.connectionLost {
        run := Error;
        return true;
      }
      CountPhoto(i);
      Report(i);
      back := false;
    }

    /** The catch-up of the motors' time on entering a gap. */
    method StartGap(i: Input)
      modifies this`prior, this`motion, this`trace
      ensures Snapshot() == EnterGap(old(Snapshot()), i)
    {
      if prior != Was(Gap) {
        var ms := motion.ms + interval * 100;
        var error := i.gapMs;
        var correction := motion.correction;
        if error > ms {
          error := (error - ms) / CATCH_UP_FRAMES;
          if error > correction { correction := error; }
        } else {
          correction := 0;
        }
        motion := MotionState(ms + correction, correction);
        trace := trace + [GapEntered(Entry(i.gapMs, interval))];
        prior := Was(Gap);
      }
    }

    method RunGap(i: Input) returns (back: bool)
      modifies this`run, this`prior, this`motion, this`lastPhotoMs, this`trace
      ensures (Snapshot(), back) == GapBlock(program, old(Snapshot()), i)
    {
      if run != Gap { return false; }
      StartGap(i);
      if i.focusing { return true; }
      if !i.motorsRunning {
        if (i.waitMs - lastPhotoMs) % U32 / 100 >= interval {
          trace := trace + [FrameDue(Entry(i.waitMs, interval))];
          lastPhotoMs := i.waitMs;
          run := Photo;
        }
        if program.external { run := Trigger; }
      }
      back := false;
    }

    method RunTrigger(i: Input)
      modifies this`run, this`interval, this`lastPhotoMs
      ensures Snapshot() == TriggerBlock(old(Snapshot()), i)
    {
      if run == Trigger {
        if i.contact {
          run := TriggerRelease;
        } else if photos > 2 && (i.triggerMs - lastPhotoMs) % U32 / 1000 >= interval {
          run := End;
        }
      }
      if run == TriggerRelease {
        if !i.contactLater {
          if photos > 1 { interval := (i.triggerMs - lastPhotoMs) % U32 / 100 % U16; }
          lastPhotoMs := i.triggerMs;
          run := Photo;
        } else if photos > 2 && (i.triggerMs - lastPhotoMs) % U32 / 1000 >= interval {
          run := End;
        }
      }
    }

    method RunClose(i: Input)
      modifies this`run, this`prior, this`running
      ensures Snapshot() == CloseBlock(old(Snapshot()), i)
    {
      if run == Error {
        prior := Was(Error);
        if i.cameraReady { run := Next; }
      } else if run == End {
        prior := Was(End);
        running := false;
      }
    }

    /** The blocks in their order. */
    method Work(i: Input)
      modifies this`running, this`run, this`prior, this`photos, this`exps, this`taken,
               this`remaining, this`interval, this`lastPhotoMs, this`lastPhotoEndMs, this`motion, this`trace
      ensures Snapshot() == Task(program, old(Snapshot()), i)
    {
      if !running { return; }
      if i.cancel { run := End; }
      RunDelay(i);
      RunPhoto(i);
      var back := RunBulb(i);
      if !back { WorkFromNext(i); }
    }

    method WorkFromNext(i: Input)
      modifies this`running, this`run, this`prior, this`photos, this`exps, this`taken,
               this`remaining, this`interval, this`lastPhotoMs, this`lastPhotoEndMs, this`motion, this`trace
      ensures Snapshot() == FromNext(program, old(Snapshot()), i)
    {
      var back := RunNext(i);
      if back { return; }
      back := RunGap(i);
      if back { return; }
      RunTrigger(i);
      RunClose(i);
    }

    /** One call of the run routine. After any number of calls, whatever failed and recovered
        during them: exposures fired and missed make up the photos counted and the one in
        progress, the numbers shown add up, and a run by count never fires an exposure too
        many and, when it has ended, has fired exactly those asked for, less the missed. The
        call itself fires exactly when it should, and nothing before the delay is over. */
    method Step(i: Input)
      requires Valid()
      modifies this
      ensures Valid() && calls == old(calls) + [i]
      ensures Proper() ==>
                && Fires(trace) + Missed(trace, program.PerPhoto())
                   == photos * program.PerPhoto() + exps + (if Exposing(Snapshot()) then 1 else 0)
                && Missed(trace, program.PerPhoto()) >= 0 && taken == photos
                && (ByCount(program) ==> Fires(trace) <= program.Total() * program.PerPhoto())
                && (ByCount(program) ==> photos <= program.Total() && taken + remaining == program.photos)
      ensures Proper() && !program.external && run != Delay ==>
                motion == After(Gaps(trace)) && Spaced(Dues(trace))
      ensures Proper() && ByCount(program) && !program.external && run == End ==>
                && photos == program.Total() && remaining == program.photos - program.Total()
                && Fires(trace) + Missed(trace, program.PerPhoto()) == program.Total() * program.PerPhoto()
                && (AllErrorFree(program, calls) ==> Fires(trace) == program.Total() * program.PerPhoto())
      ensures Proper() && !program.external ==>
                (run == Delay <==> NotYet(program, calls)) && (NotYet(program, calls) ==> trace == [])
      ensures old(running) && !i.cancel ==>
                Fires(trace) == old(Fires(trace)) + if FiresNow(program, old(Snapshot()), i) then 1 else 0
    {
      ghost var before := Snapshot();
      Work(i);
      if before.running && !i.cancel { FiresExactly(program, before, i); }
      calls := calls + [i];
      assert calls[..|calls| - 1] == old(calls);
      if Proper() {
        Accounted();
        if !program.external { DelayExactly(program, origin, calls); }
      }
    }

    /** What holds of a run holds of the timer's fields. */
    lemma Accounted()
      requires Valid() && Proper()
      ensures Fires(trace) + Missed(trace, program.PerPhoto())
              == photos * program.PerPhoto() + exps + (if Exposing(Snapshot()) then 1 else 0)
      ensures Missed(trace, program.PerPhoto()) >= 0 && taken == photos
      ensures ByCount(program) ==> Fires(trace) <= program.Total() * program.PerPhoto()
      ensures ByCount(program) ==> photos <= program.Total() && taken + remaining == program.photos
      ensures !program.external && run != Delay ==> motion == After(Gaps(trace)) && Spaced(Dues(trace))
      ensures ByCount(program) && !program.external && run == End ==>
                && photos == program.Total() && remaining == program.photos - program.Total()
                && Fires(trace) + Missed(trace, program.PerPhoto()) == program.Total() * program.PerPhoto()
                && (AllErrorFree(program, calls) ==> Fires(trace) == program.Total() * program.PerPhoto())
    {
      ExposuresAccountedFor(program, origin, calls);
      RunKept(program, origin, calls, false);
      if ByCount(program) && !program.external && run == End { EndsAfterExactly(program, origin, calls); }
    }
  }
}
