/**
 The clock object itself, updated in place by the tick interrupt. Its fields are at all
 times those of the state machine after the calls made so far, and each call promises
 what its callers rely on.
 */
module ClockDevice {
  import opened ClockSpec
  import opened ClockTheorems

  class Clock {
    const cfg: Config
    var ms: nat
    var seconds: nat
    var eventMs: nat
    var newBulb: bool
    var bulbRunning: bool
    var usingSync: bool
    var bulbDuration: u32
    var pcSync: u32
    var skips: nat
    var queue: seq<Slot>
    ghost var log: seq<Event>
    ghost var history: seq<Op>  // the calls made so far

    ghost predicate Sized()
      reads this`queue
    {
      |queue| == QUEUE
    }

    ghost predicate Valid()
      reads this
    {
      Sized() && Snapshot() == Run(cfg, Initial, history)
    }

    ghost function Snapshot(): State
      reads this
    {
      State(ms, seconds, eventMs, newBulb, bulbRunning, usingSync, bulbDuration, pcSync, skips, queue, log)
    }

    constructor (cfg: Config)
      ensures Valid() && this.cfg == cfg && history == []
    {
      this.cfg := cfg;
      ms, seconds, eventMs, skips := 0, 0, 0, 0;
      newBulb, bulbRunning, usingSync := false, false, false;
      bulbDuration, pcSync := 0, 0;
      queue := [Slot(0, 0), Slot(0, 0), Slot(0, 0)];
      log, history := [], [];
    }

    /** The time on the clock: the ticks since it was started or last reset. */
    method Ms() returns (t: nat)
      requires Valid()
      ensures t == Elapsed(0, history)
    {
      ghost var c := Snapshot();
      t := ms + seconds * 1000;
      assert t == c.Ms();
      Reading(cfg, c, history);
    }

    /** The first free slot takes the request. */
    method Put(r: Request)
      requires Sized()
      modifies this`queue
      ensures Sized() && queue == Enqueue(old(queue), r)
    {
      for i := 0 to QUEUE
        invariant queue == old(queue)
        invariant Enqueue(queue, r) == EnqueueFrom(queue, r, i)
      {
        if queue[i].time == 0 {
          queue := queue[i := Slot(r.time, r.func)];
          return;
        }
      }
    }

    method PutAll(rs: seq<Request>)
      requires Sized()
      modifies this`queue
      ensures Sized() && queue == EnqueueAll(old(queue), rs)
    {
      for k := 0 to |rs|
        invariant Sized() && EnqueueAll(queue, rs[k..]) == EnqueueAll(old(queue), rs)
      {
        assert rs[k..][1..] == rs[k + 1..];
        Put(rs[k]);
      }
    }

    /** Queues a delayed callback in the first free slot, due as many ticks early as are still
        to be made up for; what was waiting goes on waiting. */
    method In(r: Request)
      requires Valid()
      modifies this`queue, this`history
      ensures Valid() && history == old(history) + [ClockSpec.In(r)]
      ensures CallbacksServed(old(Snapshot()), ClockSpec.In(r), Snapshot())
      ensures forall i: nat :: FirstFree(old(queue), i) && r.time > 0 ==> Waiting(Snapshot(), i, r.func, r.time - skips)
      ensures (forall i :: 0 <= i < QUEUE ==> old(queue)[i].time > 0) ==> queue == old(queue)
    {
      ghost var before := Snapshot();
      Put(r);
      history := history + [ClockSpec.In(r)];
      Follow(before, ClockSpec.In(r));
      RequestPlaced(before.queue, r);
    }

    /** The loop over the queue. */
    method SweepQueue()
      requires Sized()
      modifies this`queue, this`log
      ensures Sized() && (queue, log) == Sweep(cfg, old(queue), old(log), skips, 0)
    {
      for i := 0 to QUEUE
        invariant Sized()
        invariant Sweep(cfg, queue, log, skips, i) == Sweep(cfg, old(queue), old(log), skips, 0)
      {
        if queue[i].time > 0 {
          var func := queue[i].func;
          queue := queue[i := Slot((queue[i].time - (1 + skips)) % U16, func)];
          if queue[i].time == 0 {
            log := log + [Fired(i, func)];
            PutAll(cfg.requests(func));
          }
        }
      }
    }

    /** Setting the bulb's countdown and sync time as it opens. */
    method AdjustBulb(aux: bool)
      modifies this`bulbDuration, this`pcSync
      ensures bulbDuration == Adjusted(cfg, old(bulbDuration), aux) && pcSync == SyncTime(cfg, old(bulbDuration), aux)
    {
      if cfg.syncPort && !aux {
        pcSync := if bulbDuration > cfg.bulbEndOffset then bulbDuration - cfg.bulbEndOffset else 0;
        if cfg.pcSyncRequired { bulbDuration := Wrap(bulbDuration + 2000); }
      } else {
        pcSync := 0;
      }
      bulbDuration := if cfg.negBulbOffset then Wrap(bulbDuration - cfg.bulbOffset) else Wrap(bulbDuration + cfg.bulbOffset);
    }

    /** The tick on which a requested bulb opens. */
    method OpenBulb(aux: bool)
      requires Sized()
      modifies this`bulbDuration, this`pcSync, this`newBulb, this`bulbRunning, this`skips, this`queue, this`log
      ensures Sized() && Snapshot() == ClockSpec.StartBulb(cfg, old(Snapshot()), aux)
    {
      AdjustBulb(aux);
      log := log + [BulbStart];
      PutAll(cfg.startRequests);
      newBulb, bulbRunning := false, true;
      skips := skips + 1;
    }

    /** The tick on which a running bulb has run out. */
    method CloseBulb()
      requires Sized() && bulbDuration == 0
      modifies this`bulbRunning, this`usingSync, this`skips, this`queue, this`log
      ensures Sized() && Snapshot() == EndBulb(cfg, old(Snapshot()))
    {
      log := log + [BulbEnd];
      PutAll(cfg.endRequests);
      bulbRunning := false;
      if pcSync != 0 { usingSync := false; }
      skips := skips + 1;
    }

    /** The rest of a tick that is not skipped. */
    method FinishTick()
      requires Sized()
      modifies this`queue, this`log, this`ms, this`seconds, this`skips
      ensures Sized() && Snapshot() == FullTick(cfg, old(Snapshot()))
    {
      SweepQueue();
      if ms >= 1000 {
        ms := ms - 1000;
        seconds := seconds + 1;
      }
      skips := 0;
    }

    /** The bulb's part of a tick on which none opens; reports whether the tick ends there. */
    method RunDown(aux: bool) returns (back: bool)
      requires Sized()
      modifies this`bulbDuration, this`pcSync, this`bulbRunning, this`usingSync, this`skips, this`queue, this`log
      ensures Sized() && (Snapshot(), back) == BulbTick(cfg, old(Snapshot()), aux)
    {
      if bulbRunning {
        bulbDuration := Wrap(bulbDuration - 1);
        if bulbDuration == 0 {
          CloseBulb();
          return true;
        } else if pcSync != 0 && aux {
          bulbDuration, pcSync := pcSync, 0;
          usingSync := true;
          skips := skips + 1;
          return true;
        }
      }
      back := false;
    }

    /** The tick, with its early returns. */
    method Advance(aux: bool)
      requires Sized()
      modifies this
      ensures Sized() && history == old(history) && Snapshot() == OneTick(cfg, old(Snapshot()), aux)
    {
      ms := ms + 1;
      eventMs := eventMs + 1;
      if newBulb {
        OpenBulb(aux);
      } else {
        var back := RunDown(aux);
        if !back { FinishTick(); }
      }
    }

    /** The call just made was the next step of the state machine. */
    lemma Follow(before: State, op: Op)
      requires history != [] && op == history[|history| - 1]
      requires before == Run(cfg, Initial, history[..|history| - 1]) && Snapshot() == Step(cfg, before, op)
      ensures Snapshot() == Run(cfg, Initial, history)
      ensures CallbacksServed(before, op, Snapshot())
    {
      StepServesCallbacks(cfg, before, op);
    }

    /** One millisecond passes; aux is the PC-sync contact. The clock reads one more, every
        waiting callback comes nearer or fires, a requested bulb opens and a running one
        counts down and ends. */
    method Count(aux: bool)
      requires Valid()
      modifies this
      ensures Valid() && history == old(history) + [Tick(aux)]
      ensures Elapsed(0, history) == old(Elapsed(0, history)) + 1
      ensures CallbacksServed(old(Snapshot()), Tick(aux), Snapshot())
      ensures BulbServed(cfg, old(Snapshot()), aux, Snapshot())
    {
      ghost var before := Snapshot();
      Advance(aux);
      history := history + [Tick(aux)];
      Follow(before, Tick(aux));
      TickServesBulb(cfg, before, aux);
    }

    /** Asks for a bulb, instead of any that was running: the next tick opens it. */
    method StartBulb(duration: u32)
      requires Valid()
      modifies this`bulbRunning, this`bulbDuration, this`newBulb, this`history
      ensures Valid() && history == old(history) + [Bulb(duration)]
      ensures CallbacksServed(old(Snapshot()), Bulb(duration), Snapshot())
      ensures forall aux :: Exposing(OneTick(cfg, Snapshot(), aux), OpenTicks(cfg, duration, aux))
    {
      ghost var before := Snapshot();
      bulbRunning := false;
      bulbDuration := duration;
      newBulb := true;
      history := history + [Bulb(duration)];
      Follow(before, Bulb(duration));
      forall aux ensures Exposing(OneTick(cfg, Snapshot(), aux), OpenTicks(cfg, duration, aux)) {
        BulbOpens(cfg, Snapshot(), aux);
        AdjustedInRange(cfg, duration, aux);
      }
    }

    /** Withdraws the bulb: the next tick neither opens nor ends one. */
    method StopBulb()
      requires Valid()
      modifies this`bulbRunning, this`bulbDuration, this`newBulb, this`history
      ensures Valid() && history == old(history) + [CancelBulb]
      ensures CallbacksServed(old(Snapshot()), CancelBulb, Snapshot())
      ensures forall aux :: !Skipped(Snapshot(), aux)
    {
      ghost var before := Snapshot();
      bulbRunning := false;
      bulbDuration := 0;
      newBulb := false;
      history := history + [CancelBulb];
      Follow(before, CancelBulb);
    }

    /** Time starts again from zero; what waits goes on waiting. */
    method ResetTime()
      requires Valid()
      modifies this`eventMs, this`seconds, this`ms, this`bulbRunning, this`newBulb, this`usingSync, this`history
      ensures Valid() && history == old(history) + [Reset] && Elapsed(0, history) == 0
      ensures CallbacksServed(old(Snapshot()), Reset, Snapshot())
      ensures forall aux :: !Skipped(Snapshot(), aux)
    {
      ghost var before := Snapshot();
      eventMs, seconds, ms := 0, 0, 0;
      bulbRunning, newBulb, usingSync := false, false, false;
      assert Snapshot() == Step(cfg, before, Reset);
      history := history + [Reset];
      Follow(before, Reset);
    }

    /** Zeroes the event counter; the time itself goes on. */
    method TareTime()
      requires Valid()
      modifies this`eventMs, this`history
      ensures Valid() && history == old(history) + [Tare] && eventMs == 0
      ensures Elapsed(0, history) == old(Elapsed(0, history))
      ensures CallbacksServed(old(Snapshot()), Tare, Snapshot())
    {
      ghost var before := Snapshot();
      eventMs := 0;
      history := history + [Tare];
      Follow(before, Tare);
    }
  }

  /** A request in the queue: in the first free slot, or nowhere. */
  lemma RequestPlaced(q: seq<Slot>, r: Request)
    ensures forall i: nat :: FirstFree(q, i) ==> Enqueue(q, r) == q[i := Slot(r.time, r.func)]
    ensures (forall i :: 0 <= i < |q| ==> q[i].time > 0) ==> Enqueue(q, r) == q
  {
    forall i: nat | FirstFree(q, i) ensures Enqueue(q, r) == q[i := Slot(r.time, r.func)] { RequestTakes(q, r, 0, i); }
    if forall i :: 0 <= i < |q| ==> q[i].time > 0 { NoneFree(q, r, 0); }
  }

  lemma {:induction false} NoneFree(q: seq<Slot>, r: Request, i: nat)
    requires forall j :: 0 <= j < |q| ==> q[j].time > 0
    ensures EnqueueFrom(q, r, i) == q
    decreases |q| - i
  {
    if i < |q| { NoneFree(q, r, i + 1); }
  }
}
