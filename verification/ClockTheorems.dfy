/**
 What the clock guarantees over any sequence of ticks and calls: no millisecond is
 lost, the bulb ends exactly on time, and a delayed callback is on time exactly when no
 skipped tick was to be made up for at the request and its due tick is not a skipped one.
 */
module ClockTheorems {
  import opened ClockSpec

  // Time

  /** Milliseconds on a clock that read `start`, since its last reset if there was one. */
  function Elapsed(start: nat, ops: seq<Op>): nat {
    if ops == [] then start
    else
      var before := Elapsed(start, ops[..|ops| - 1]);
      match ops[|ops| - 1]
      case Tick(_) => before + 1
      case Reset => 0
      case _ => before
  }

  lemma TickMs(cfg: Config, c: State, aux: bool)
    ensures OneTick(cfg, c, aux).Ms() == c.Ms() + 1
  {
  }

  /** No tick is lost or counted twice, skipped or not. */
  lemma {:induction false} MsCountsTicks(cfg: Config, c: State, ops: seq<Op>)
    ensures Run(cfg, c, ops).Ms() == Elapsed(c.Ms(), ops)
  {
    if ops != [] {
      var before, op := ops[..|ops| - 1], ops[|ops| - 1];
      MsCountsTicks(cfg, c, before);
      if op.Tick? { TickMs(cfg, Run(cfg, c, before), op.aux); }
    }
  }

  /** The reading of a clock that was started and then called like this. */
  lemma Reading(cfg: Config, c: State, ops: seq<Op>)
    requires c == Run(cfg, Initial, ops)
    ensures c.Ms() == Elapsed(0, ops)
  {
    MsCountsTicks(cfg, Initial, ops);
    assert Initial.Ms() == 0;
  }

  /** Milliseconds since the event counter was last zeroed. */
  function SinceTare(start: nat, ops: seq<Op>): nat {
    if ops == [] then start
    else
      var before := SinceTare(start, ops[..|ops| - 1]);
      match ops[|ops| - 1]
      case Tick(_) => before + 1
      case Reset => 0
      case Tare => 0
      case _ => before
  }

  lemma {:induction false} EventMsCountsTicks(cfg: Config, c: State, ops: seq<Op>)
    ensures Run(cfg, c, ops).eventMs == SinceTare(c.eventMs, ops)
  {
    if ops != [] { EventMsCountsTicks(cfg, c, ops[..|ops| - 1]); }
  }

  /** Seconds are whole thousands of the reading: none too many ever, and all of them after
      a tick that is not skipped, unless seconds were still to be carried before it. */
  lemma SecondsCount(cfg: Config, c: State, aux: bool)
    requires !Skipped(c, aux)
    ensures var r := OneTick(cfg, c, aux);
            && 1000 * r.seconds <= r.Ms()
            && (c.ms < 1999 ==> r.seconds == r.Ms() / 1000)
  {
    var r := OneTick(cfg, c, aux);
    assert r.ms + r.seconds * 1000 == c.ms + 1 + c.seconds * 1000;
  }

  // The log

  ghost function Ends(log: seq<Event>): nat {
    if log == [] then 0 else Ends(log[..|log| - 1]) + if log[|log| - 1] == BulbEnd then 1 else 0
  }

  /** How often slot i has fired. */
  ghost function Firings(log: seq<Event>, i: nat): nat {
    if log == [] then 0
    else Firings(log[..|log| - 1], i) + if log[|log| - 1].Fired? && log[|log| - 1].slot == i then 1 else 0
  }

  lemma Appended(log: seq<Event>, e: Event, i: nat)
    ensures Ends(log + [e]) == Ends(log) + (if e == BulbEnd then 1 else 0)
    ensures Firings(log + [e], i) == Firings(log, i) + (if e.Fired? && e.slot == i then 1 else 0)
  {
    assert (log + [e])[..|log|] == log;
  }

  // The queue

  lemma {:induction false} EnqueueFromKeeps(q: seq<Slot>, r: Request, j: nat, i: nat)
    requires i < |q| && q[i].time > 0
    ensures EnqueueFrom(q, r, j)[i] == q[i]
    decreases |q| - j
  {
    if j < |q| && q[j].time != 0 { EnqueueFromKeeps(q, r, j + 1, i); }
  }

  /** A pending slot is never overwritten. */
  lemma {:induction false} EnqueueAllKeeps(q: seq<Slot>, rs: seq<Request>, i: nat)
    requires i < |q| && q[i].time > 0
    ensures EnqueueAll(q, rs)[i] == q[i]
    decreases |rs|
  {
    if rs != [] {
      EnqueueFromKeeps(q, rs[0], 0, i);
      EnqueueAllKeeps(Enqueue(q, rs[0]), rs[1..], i);
    }
  }

  /** A sweep that has passed slot i leaves it alone while pending and never fires it. */
  lemma {:induction false} SweepBehind(cfg: Config, q: seq<Slot>, log: seq<Event>, skips: nat, j: nat, i: nat)
    requires i < |q| && i < j
    ensures var (q', log') := Sweep(cfg, q, log, skips, j);
            && (q[i].time > 0 ==> q'[i] == q[i])
            && Firings(log', i) == Firings(log, i)
    decreases |q| - j
  {
    if j < |q| {
      if q[j].time == 0 {
        SweepBehind(cfg, q, log, skips, j + 1, i);
      } else {
        var f, left := q[j].func, Countdown(q[j].time, skips);
        var q1 := q[j := Slot(left, f)];
        if left == 0 {
          Appended(log, Fired(j, f), i);
          if q[i].time > 0 { EnqueueAllKeeps(q1, cfg.requests(f), i); }
          SweepBehind(cfg, EnqueueAll(q1, cfg.requests(f)), log + [Fired(j, f)], skips, j + 1, i);
        } else {
          SweepBehind(cfg, q1, log, skips, j + 1, i);
        }
      }
    }
  }

  /** A sweep that reaches pending slot i counts it down once and fires it, once, exactly
      when it runs out; whatever the callbacks of other slots ask for. */
  lemma {:induction false} SweepSlot(cfg: Config, q: seq<Slot>, log: seq<Event>, skips: nat, j: nat, i: nat)
    requires j <= i < |q| && q[i].time > 0
    ensures var (q', log') := Sweep(cfg, q, log, skips, j);
            var left := Countdown(q[i].time, skips);
            && (left > 0 ==> q'[i] == Slot(left, q[i].func))
            && Firings(log', i) == Firings(log, i) + (if left == 0 then 1 else 0)
    decreases |q| - j
  {
    if q[j].time == 0 {
      SweepSlot(cfg, q, log, skips, j + 1, i);
    } else {
      var f, left := q[j].func, Countdown(q[j].time, skips);
      var q1 := q[j := Slot(left, f)];
      Appended(log, Fired(j, f), i);
      var q2 := EnqueueAll(q1, cfg.requests(f));
      if j < i { EnqueueAllKeeps(q1, cfg.requests(f), i); }
      if j == i {
        if left == 0 { SweepBehind(cfg, q2, log + [Fired(j, f)], skips, j + 1, i); }
        else { SweepBehind(cfg, q1, log, skips, j + 1, i); }
      } else {
        if left == 0 { SweepSlot(cfg, q2, log + [Fired(j, f)], skips, j + 1, i); }
        else { SweepSlot(cfg, q1, log, skips, j + 1, i); }
      }
    }
  }

  /** Sweeps log callbacks only. */
  lemma {:induction false} SweepEndsNoBulb(cfg: Config, q: seq<Slot>, log: seq<Event>, skips: nat, j: nat)
    ensures Ends(Sweep(cfg, q, log, skips, j).1) == Ends(log)
    decreases |q| - j
  {
    if j < |q| {
      if q[j].time == 0 {
        SweepEndsNoBulb(cfg, q, log, skips, j + 1);
      } else {
        var f, left := q[j].func, Countdown(q[j].time, skips);
        var q1 := q[j := Slot(left, f)];
        Appended(log, Fired(j, f), j);
        if left == 0 {
          SweepEndsNoBulb(cfg, EnqueueAll(q1, cfg.requests(f)), log + [Fired(j, f)], skips, j + 1);
        } else {
          SweepEndsNoBulb(cfg, q1, log, skips, j + 1);
        }
      }
    }
  }

  ghost function Starts(log: seq<Event>): nat {
    if log == [] then 0 else Starts(log[..|log| - 1]) + if log[|log| - 1] == BulbStart then 1 else 0
  }

  lemma StartsAppended(log: seq<Event>, e: Event)
    ensures Starts(log + [e]) == Starts(log) + if e == BulbStart then 1 else 0
  {
    assert (log + [e])[..|log|] == log;
  }

  lemma {:induction false} SweepStartsNoBulb(cfg: Config, q: seq<Slot>, log: seq<Event>, skips: nat, j: nat)
    ensures Starts(Sweep(cfg, q, log, skips, j).1) == Starts(log)
    decreases |q| - j
  {
    if j < |q| {
      if q[j].time == 0 {
        SweepStartsNoBulb(cfg, q, log, skips, j + 1);
      } else {
        var f, left := q[j].func, Countdown(q[j].time, skips);
        var q1 := q[j := Slot(left, f)];
        StartsAppended(log, Fired(j, f));
        if left == 0 {
          SweepStartsNoBulb(cfg, EnqueueAll(q1, cfg.requests(f)), log + [Fired(j, f)], skips, j + 1);
        } else {
          SweepStartsNoBulb(cfg, q1, log, skips, j + 1);
        }
      }
    }
  }

  /** The bulb sees its sync. */
  predicate SeesSync(c: State, aux: bool, r: State) {
    c.bulbRunning && !c.newBulb && c.pcSync != 0 && aux && r.pcSync == 0 && r.bulbDuration == c.pcSync
  }

  lemma SweepLogsNoBulb(cfg: Config, c: State, aux: bool)
    requires !Skipped(c, aux)
    ensures var r := OneTick(cfg, c, aux);
            Starts(r.log) == Starts(c.log) && Ends(r.log) == Ends(c.log) && !SeesSync(c, aux, r)
  {
    SweepEndsNoBulb(cfg, c.queue, c.log, c.skips, 0);
    SweepStartsNoBulb(cfg, c.queue, c.log, c.skips, 0);
  }

  lemma SkipLogsBulb(cfg: Config, c: State, aux: bool)
    requires Skipped(c, aux)
    ensures var r := OneTick(cfg, c, aux);
            r.log == c.log + [BulbStart] || r.log == c.log + [BulbEnd] || SeesSync(c, aux, r)
  {
  }

  /** The skipped ticks are those on which a bulb starts, ends or sees its sync. */
  lemma SkippedExactly(cfg: Config, c: State, aux: bool)
    ensures var r := OneTick(cfg, c, aux);
            Skipped(c, aux) <==> Starts(r.log) > Starts(c.log) || Ends(r.log) > Ends(c.log) || SeesSync(c, aux, r)
  {
    if Skipped(c, aux) {
      SkipLogsBulb(cfg, c, aux);
      Appended(c.log, BulbEnd, 0);
      StartsAppended(c.log, BulbStart);
    } else {
      SweepLogsNoBulb(cfg, c, aux);
    }
  }

  // The bulb

  /** How many ticks a duration lasts: a zero duration wraps around. */
  function Lifetime(d: u32): nat { if d == 0 then U32 else d }

  /** No call interferes with the bulb. */
  predicate Undisturbed(ops: seq<Op>) {
    forall k :: 0 <= k < |ops| ==> Undisturbing(ops[k])
  }

  /** The PC sync contact stays open. */
  predicate SyncSilent(ops: seq<Op>) {
    forall k :: 0 <= k < |ops| && ops[k].Tick? ==> !ops[k].aux
  }

  /** The state of a bulb that lasts n more ticks. */
  ghost predicate Exposing(c: State, n: nat) {
    c.bulbRunning && !c.newBulb && 0 < n == Lifetime(c.bulbDuration)
  }

  predicate Undisturbing(op: Op) { !op.Bulb? && !op.CancelBulb? && !op.Reset? }

  /** One operation that leaves the bulb to itself. */
  lemma BulbStep(cfg: Config, c: State, op: Op, n: nat)
    requires Undisturbing(op) && (c.pcSync == 0 || (op.Tick? ==> !op.aux))
    requires Exposing(c, n) || (!c.bulbRunning && !c.newBulb)
    ensures var r := Step(cfg, c, op);
            && r.pcSync == c.pcSync
            && (Exposing(c, n) && !op.Tick? ==> Exposing(r, n) && Ends(r.log) == Ends(c.log))
            && (Exposing(c, n) && op.Tick? && n > 1 ==> Exposing(r, n - 1) && Ends(r.log) == Ends(c.log))
            && (Exposing(c, n) && op.Tick? && n == 1 ==>
                  !r.bulbRunning && !r.newBulb && Ends(r.log) == Ends(c.log) + 1)
            && (!c.bulbRunning ==> !r.bulbRunning && !r.newBulb && Ends(r.log) == Ends(c.log))
  {
    if op.Tick? {
      SweepEndsNoBulb(cfg, c.queue, c.log, c.skips, 0);
      Appended(c.log, BulbEnd, 0);
    }
  }

  /** A running bulb ends at exactly the tick its duration says, not before and not again. */
  lemma {:induction false} BulbCountsDown(cfg: Config, c: State, ops: seq<Op>)
    requires c.bulbRunning && !c.newBulb && Undisturbed(ops)
    requires c.pcSync == 0 || SyncSilent(ops)
    ensures var r, n := Run(cfg, c, ops), Ticks(ops);
            var life := Lifetime(c.bulbDuration);
            && r.pcSync == c.pcSync
            && (n < life ==> Exposing(r, life - n) && Ends(r.log) == Ends(c.log))
            && (n >= life ==> !r.bulbRunning && !r.newBulb && Ends(r.log) == Ends(c.log) + 1)
  {
    if ops != [] {
      var before, op := ops[..|ops| - 1], ops[|ops| - 1];
      BulbCountsDown(cfg, c, before);
      var life, n := Lifetime(c.bulbDuration), Ticks(before);
      BulbStep(cfg, Run(cfg, c, before), op, if n < life then life - n else 0);
    }
  }

  /** The tick on which a requested bulb opens. */
  lemma BulbOpens(cfg: Config, c: State, aux: bool)
    requires c.newBulb
    ensures var s := OneTick(cfg, c, aux);
            && s.log == c.log + [BulbStart] && Ends(s.log) == Ends(c.log)
            && s.bulbRunning && !s.newBulb
            && s.bulbDuration == Adjusted(cfg, c.bulbDuration, aux) && s.pcSync == SyncTime(cfg, c.bulbDuration, aux)
  {
    Appended(c.log, BulbStart, 0);
  }

  /** A requested bulb opens on the next tick and, without PC sync, ends exactly its
      adjusted duration later. */
  lemma BulbEndsOnTime(cfg: Config, c: State, aux: bool, ops: seq<Op>)
    requires c.newBulb && Undisturbed(ops)
    requires OneTick(cfg, c, aux).pcSync == 0 || SyncSilent(ops)
    ensures var s := OneTick(cfg, c, aux);
            var r, n, life := Run(cfg, s, ops), Ticks(ops), Lifetime(Adjusted(cfg, c.bulbDuration, aux));
            && s.log == c.log + [BulbStart]
            && (n < life ==> Exposing(r, life - n) && Ends(r.log) == Ends(c.log))
            && (n >= life ==> !r.bulbRunning && !r.newBulb && Ends(r.log) == Ends(c.log) + 1)
  {
    BulbOpens(cfg, c, aux);
    BulbCountsDown(cfg, OneTick(cfg, c, aux), ops);
  }

  /** The tick that sees the PC sync of a bulb that would run on. */
  lemma SyncSeen(cfg: Config, c: State, n: nat)
    requires Exposing(c, n) && n > 1 && c.pcSync != 0
    ensures var s := OneTick(cfg, c, true);
            && s.bulbRunning && !s.newBulb && s.bulbDuration == c.pcSync && s.pcSync == 0 && s.log == c.log
            && s.usingSync
  {
  }

  /** A PC sync seen while the bulb would still run on restarts the countdown: the bulb
      ends exactly the sync duration after it, whatever the contact does from there. */
  lemma BulbEndsAfterSync(cfg: Config, c: State, aux: bool, before: seq<Op>, after: seq<Op>)
    requires c.newBulb && Undisturbed(before) && SyncSilent(before) && Undisturbed(after)
    requires cfg.syncPort && !aux && c.bulbDuration > cfg.bulbEndOffset
    requires Ticks(before) + 1 < Lifetime(Adjusted(cfg, c.bulbDuration, aux))
    ensures var s := Run(cfg, OneTick(cfg, c, aux), before);
            var r, n := Run(cfg, OneTick(cfg, s, true), after), Ticks(after);
            var life := c.bulbDuration - cfg.bulbEndOffset;
            && (n < life ==> Exposing(r, life - n) && Ends(r.log) == Ends(c.log))
            && (n >= life ==> !r.bulbRunning && !r.newBulb && Ends(r.log) == Ends(c.log) + 1)
  {
    var o := OneTick(cfg, c, aux);
    BulbOpens(cfg, c, aux);
    BulbCountsDown(cfg, o, before);
    var s := Run(cfg, o, before);
    SyncSeen(cfg, s, Lifetime(o.bulbDuration) - Ticks(before));
    BulbCountsDown(cfg, OneTick(cfg, s, true), after);
  }

  /** In how many ticks a countdown of t ends that wraps around in 32 bits. */
  function InRange(t: int): (r: int)
    requires -U32 < t <= 2 * U32
    ensures 0 < r <= U32
  {
    if t <= 0 then t + U32 else if t > U32 then t - U32 else t
  }

  /** How long a bulb of duration d is open without a sync: longer or shorter by the camera's
      offset, and 2000 ticks longer if a sync is required and its contact is open. */
  function OpenTicks(cfg: Config, d: u32, aux: bool): (n: nat)
    ensures 0 < n <= U32
  {
    var wait := if cfg.syncPort && !aux && cfg.pcSyncRequired then 2000 else 0;
    InRange(if cfg.negBulbOffset then d + wait - cfg.bulbOffset else d + wait + cfg.bulbOffset)
  }

  /** How long a requested bulb is open. The duration d counts, longer or shorter by the
      camera's offset, and 2000 ticks longer if a sync is required and its contact is open;
      the log shows the start on the next tick and the end exactly that many ticks later,
      whatever else is called. Only a sync that was armed could change that. */
  lemma BulbLastsExactly(cfg: Config, c: State, d: u32, aux: bool, ops: seq<Op>)
    requires Undisturbed(ops)
    requires cfg.syncPort && !aux && d > cfg.bulbEndOffset ==> SyncSilent(ops)
    ensures var o := OneTick(cfg, Step(cfg, c, Bulb(d)), aux);
            var r, n := Run(cfg, o, ops), Ticks(ops);
            var open := OpenTicks(cfg, d, aux);
            && o.log == c.log + [BulbStart]
            && Ends(r.log) == Ends(c.log) + (if n < open then 0 else 1)
            && (r.bulbRunning <==> n < open)
  {
    var s := Step(cfg, c, Bulb(d));
    BulbOpens(cfg, s, aux);
    BulbEndsOnTime(cfg, s, aux, ops);
    AdjustedInRange(cfg, d, aux);
  }

  lemma AdjustedInRange(cfg: Config, d: u32, aux: bool)
    ensures Lifetime(Adjusted(cfg, d, aux)) == OpenTicks(cfg, d, aux)
  {
  }

  // Delayed callbacks

  /** Slot i holds f, due in `due` ticks; a due time of zero or less was missed. Skipped
      ticks still to be made up for are part of the stored time. */
  ghost predicate Waiting(c: State, i: nat, f: Callback, due: int) {
    i < |c.queue| && 0 < due + c.skips < U16 && c.queue[i] == Slot(due + c.skips, f)
  }

  /** The due time after one more operation. */
  function DueAfter(c: State, op: Op, due: int): int {
    if !op.Tick? then due
    else if due <= 0 && !Skipped(c, op.aux) then due - 1 + U16
    else due - 1
  }

  /** What the sweep leaves of a stored time. */
  lemma Counted(due: int, skips: nat)
    requires 0 < due + skips < U16 && -U16 + 1 < due
    ensures Countdown(due + skips, skips) == if due >= 1 then due - 1 else due - 1 + U16
  {
  }

  lemma WaitingTick(cfg: Config, c: State, aux: bool, i: nat, f: Callback, due: int)
    requires Waiting(c, i, f, due) && -U16 + 1 < due && !Skipped(c, aux)
    ensures var r := OneTick(cfg, c, aux);
            && (due == 1 ==> Firings(r.log, i) == Firings(c.log, i) + 1)
            && (due != 1 ==> Waiting(r, i, f, DueAfter(c, Tick(aux), due)) && Firings(r.log, i) == Firings(c.log, i))
  {
    Counted(due, c.skips);
    SweepSlot(cfg, c.queue, c.log, c.skips, 0, i);
  }

  lemma WaitingSkip(cfg: Config, c: State, aux: bool, i: nat, f: Callback, due: int)
    requires Waiting(c, i, f, due) && Skipped(c, aux)
    ensures var r := OneTick(cfg, c, aux);
            Waiting(r, i, f, due - 1) && Firings(r.log, i) == Firings(c.log, i)
  {
    EnqueueAllKeeps(c.queue, cfg.startRequests, i);
    EnqueueAllKeeps(c.queue, cfg.endRequests, i);
    Appended(c.log, BulbStart, i);
    Appended(c.log, BulbEnd, i);
  }

  /** One operation on a waiting slot: the slot goes on waiting with its due time counted
      down, or fires; and it fires exactly on an unskipped tick with due time one. */
  lemma WaitingStep(cfg: Config, c: State, op: Op, i: nat, f: Callback, due: int)
    requires Waiting(c, i, f, due) && (op.Tick? ==> -U16 + 1 < due)
    ensures var r := Step(cfg, c, op);
            if op.Tick? && !Skipped(c, op.aux) && due == 1 then
              Firings(r.log, i) == Firings(c.log, i) + 1
            else
              Waiting(r, i, f, DueAfter(c, op, due)) && Firings(r.log, i) == Firings(c.log, i)
  {
    match op
    case Tick(aux) =>
      if Skipped(c, aux) { WaitingSkip(cfg, c, aux, i, f, due); } else { WaitingTick(cfg, c, aux, i, f, due); }
    case In(r) =>
      EnqueueFromKeeps(c.queue, r, 0, i);
    case _ =>
  }

  /** A waiting callback does not fire before it is due, whatever else is called meanwhile. */
  lemma {:induction false} NotEarly(cfg: Config, c: State, ops: seq<Op>, i: nat, f: Callback, due: int)
    requires Waiting(c, i, f, due) && Ticks(ops) < due
    ensures var r := Run(cfg, c, ops);
            Waiting(r, i, f, due - Ticks(ops)) && Firings(r.log, i) == Firings(c.log, i)
  {
    if ops != [] {
      var before := ops[..|ops| - 1];
      NotEarly(cfg, c, before, i, f, due);
      WaitingStep(cfg, Run(cfg, c, before), ops[|ops| - 1], i, f, due - Ticks(before));
    }
  }

  /** It fires on its due tick exactly when that tick is not a skipped one. */
  lemma OnTimeExactly(cfg: Config, c: State, ops: seq<Op>, aux: bool, i: nat, f: Callback, due: int)
    requires Waiting(c, i, f, due) && Ticks(ops) == due - 1
    ensures var p := Run(cfg, c, ops);
            && Firings(p.log, i) == Firings(c.log, i)
            && Firings(OneTick(cfg, p, aux).log, i) == Firings(c.log, i) + (if Skipped(p, aux) then 0 else 1)
            && (Skipped(p, aux) ==> Waiting(OneTick(cfg, p, aux), i, f, 0))
  {
    NotEarly(cfg, c, ops, i, f, due);
    WaitingStep(cfg, Run(cfg, c, ops), Tick(aux), i, f, 1);
  }

  /** n ticks after a missed due tick: still to be wrapped around, or wrapped already. */
  ghost predicate Missed(c: State, i: nat, f: Callback, n: int) {
    Waiting(c, i, f, -n) || Waiting(c, i, f, U16 - n)
  }

  lemma MissedStep(cfg: Config, c: State, op: Op, i: nat, f: Callback, n: int)
    requires 0 <= n < U16 && Missed(c, i, f, n) && (op.Tick? ==> n + 1 < U16)
    ensures var r := Step(cfg, c, op);
            && Missed(r, i, f, if op.Tick? then n + 1 else n)
            && Firings(r.log, i) == Firings(c.log, i)
  {
    if Waiting(c, i, f, -n) { WaitingStep(cfg, c, op, i, f, -n); }
    else { WaitingStep(cfg, c, op, i, f, U16 - n); }
  }

  /** The slot has missed its due tick: it stays silent until 65536 ticks later. */
  lemma {:induction false} MissedIsLate(cfg: Config, c: State, ops: seq<Op>, i: nat, f: Callback)
    requires Waiting(c, i, f, 0) && Ticks(ops) < U16
    ensures var r := Run(cfg, c, ops);
            Missed(r, i, f, Ticks(ops)) && Firings(r.log, i) == Firings(c.log, i)
  {
    if ops != [] {
      var before := ops[..|ops| - 1];
      MissedIsLate(cfg, c, before, i, f);
      MissedStep(cfg, Run(cfg, c, before), ops[|ops| - 1], i, f, Ticks(before));
    }
  }

  /** It fires 65536 ticks after the due tick it missed, exactly when that tick is not a
      skipped one either. */
  lemma LateExactly(cfg: Config, c: State, ops: seq<Op>, aux: bool, i: nat, f: Callback)
    requires Waiting(c, i, f, 0) && Ticks(ops) == U16 - 1 && Run(cfg, c, ops).skips < U8
    ensures var p := Run(cfg, c, ops);
            Firings(OneTick(cfg, p, aux).log, i) == Firings(c.log, i) + (if Skipped(p, aux) then 0 else 1)
  {
    MissedIsLate(cfg, c, ops, i, f);
    WaitingStep(cfg, Run(cfg, c, ops), Tick(aux), i, f, 1);
  }

  // From the request to the due time

  /** The slot that the next request takes. */
  predicate FirstFree(q: seq<Slot>, i: nat) {
    i < |q| && q[i].time == 0 && forall j :: 0 <= j < i ==> q[j].time > 0
  }

  lemma {:induction false} RequestTakes(q: seq<Slot>, r: Request, j: nat, i: nat)
    requires FirstFree(q, i) && j <= i
    ensures EnqueueFrom(q, r, j) == q[i := Slot(r.time, r.func)]
    decreases i - j
  {
    if j < i { RequestTakes(q, r, j + 1, i); }
  }

  /** Firings are only ever added. */
  lemma FiringsGrow(cfg: Config, c: State, op: Op, i: nat)
    ensures Firings(Step(cfg, c, op).log, i) >= Firings(c.log, i)
  {
    if op.Tick? {
      if Skipped(c, op.aux) {
        Appended(c.log, BulbStart, i);
        Appended(c.log, BulbEnd, i);
      } else {
        SweepFiringsGrow(cfg, c.queue, c.log, c.skips, 0, i);
      }
    }
  }

  lemma {:induction false} SweepFiringsGrow(cfg: Config, q: seq<Slot>, log: seq<Event>, skips: nat, j: nat, i: nat)
    ensures Firings(Sweep(cfg, q, log, skips, j).1, i) >= Firings(log, i)
    decreases |q| - j
  {
    if j < |q| {
      if q[j].time == 0 {
        SweepFiringsGrow(cfg, q, log, skips, j + 1, i);
      } else {
        var f, left := q[j].func, Countdown(q[j].time, skips);
        var q1 := q[j := Slot(left, f)];
        Appended(log, Fired(j, f), i);
        if left == 0 {
          SweepFiringsGrow(cfg, EnqueueAll(q1, cfg.requests(f)), log + [Fired(j, f)], skips, j + 1, i);
        } else {
          SweepFiringsGrow(cfg, q1, log, skips, j + 1, i);
        }
      }
    }
  }

  /** From its due tick on, a slot has fired or has missed it. */
  lemma {:induction false} FiredOrMissed(cfg: Config, c: State, ops: seq<Op>, i: nat, f: Callback, due: int)
    requires Waiting(c, i, f, due) && due <= Ticks(ops) < due + U16
    ensures var r := Run(cfg, c, ops);
            || Firings(r.log, i) > Firings(c.log, i)
            || (Firings(r.log, i) == Firings(c.log, i) && Missed(r, i, f, Ticks(ops) - due))
  {
    if ops != [] {
      var before, op := ops[..|ops| - 1], ops[|ops| - 1];
      var p := Run(cfg, c, before);
      if Ticks(before) < due {
        NotEarly(cfg, c, before, i, f, due);
        WaitingStep(cfg, p, op, i, f, 1);
      } else {
        FiredOrMissed(cfg, c, before, i, f, due);
        FiringsGrow(cfg, p, op, i);
        if Firings(p.log, i) == Firings(c.log, i) { MissedStep(cfg, p, op, i, f, Ticks(before) - due); }
      }
    }
  }

  /** A request made between ticks is due as many ticks early as there are skipped ticks to
      make up for. It fires for the first time on exactly the tick asked for if and only if
      there are none and that tick is not skipped. */
  lemma PunctualExactly(cfg: Config, c: State, r: Request, i: nat, ops: seq<Op>, aux: bool)
    requires FirstFree(c.queue, i) && r.time > 0 && c.skips < U8 && Ticks(ops) == r.time - 1
    ensures var s := Step(cfg, c, In(r));
            var p := Run(cfg, s, ops);
            && Waiting(s, i, r.func, r.time - c.skips)
            && ((Firings(p.log, i) == Firings(s.log, i) && Firings(OneTick(cfg, p, aux).log, i) > Firings(s.log, i))
                <==> c.skips == 0 && !Skipped(p, aux))
  {
    RequestTakes(c.queue, r, 0, i);
    var s := Step(cfg, c, In(r));
    if c.skips == 0 {
      OnTimeExactly(cfg, s, ops, aux, i, r.func, r.time);
    } else {
      FiredOrMissed(cfg, s, ops, i, r.func, r.time - c.skips);
      MissedAgain(cfg, Run(cfg, s, ops), aux, i, r.func, c.skips - 1);
    }
  }

  lemma MissedAgain(cfg: Config, p: State, aux: bool, i: nat, f: Callback, n: nat)
    requires n + 1 < U16
    ensures Missed(p, i, f, n) ==> Firings(OneTick(cfg, p, aux).log, i) == Firings(p.log, i)
  {
    if Missed(p, i, f, n) { MissedStep(cfg, p, Tick(aux), i, f, n); }
  }

  /** What newly fills a slot is one of the requests made. */
  lemma {:induction false} FilledByRequest(q: seq<Slot>, rs: seq<Request>, i: nat)
    requires i < |q| && q[i].time == 0 && EnqueueAll(q, rs)[i].time > 0
    ensures exists n :: 0 <= n < |rs| && EnqueueAll(q, rs)[i] == Slot(rs[n].time, rs[n].func)
    decreases |rs|
  {
    if rs != [] {
      var q1, rest := Enqueue(q, rs[0]), rs[1..];
      FilledByOne(q, rs[0], 0, i);
      if q1[i].time > 0 {
        EnqueueAllKeeps(q1, rest, i);
      } else {
        FilledByRequest(q1, rest, i);
        var n :| 0 <= n < |rest| && EnqueueAll(q1, rest)[i] == Slot(rest[n].time, rest[n].func);
        assert rs[n + 1] == rest[n];
      }
    }
  }

  lemma {:induction false} FilledByOne(q: seq<Slot>, r: Request, j: nat, i: nat)
    requires i < |q|
    ensures EnqueueFrom(q, r, j)[i] == q[i] || EnqueueFrom(q, r, j)[i] == Slot(r.time, r.func)
    decreases |q| - j
  {
    if j < |q| && q[j].time != 0 { FilledByOne(q, r, j + 1, i); }
  }

  /** The requests that a skipped tick makes. */
  function HookRequests(cfg: Config, c: State): seq<Request> {
    if c.newBulb then cfg.startRequests
    else if c.bulbRunning && Wrap(c.bulbDuration - 1) == 0 then cfg.endRequests
    else []
  }

  /** What the bulb's start and end request is always early: the tick they happen on is
      itself still to be made up for. */
  lemma HookRequestsEarly(cfg: Config, c: State, aux: bool, i: nat)
    requires Skipped(c, aux) && i < |c.queue| && c.queue[i].time == 0
    requires OneTick(cfg, c, aux).queue[i].time > 0
    ensures var s, rs := OneTick(cfg, c, aux), HookRequests(cfg, c);
            && s.skips == c.skips + 1
            && (exists n :: 0 <= n < |rs| && s.queue[i] == Slot(rs[n].time, rs[n].func))
            && Waiting(s, i, s.queue[i].func, s.queue[i].time - c.skips - 1)
  {
    FilledByRequest(c.queue, HookRequests(cfg, c), i);
  }

  // Requests made by callbacks, in the middle of a sweep

  /** What the sweep does at one slot. */
  ghost function Visit(cfg: Config, q: seq<Slot>, log: seq<Event>, skips: nat, i: nat): (r: (seq<Slot>, seq<Event>))
    requires i < |q|
    ensures |r.0| == |q|
  {
    if q[i].time == 0 then (q, log)
    else
      var left := Countdown(q[i].time, skips);
      var q' := q[i := Slot(left, q[i].func)];
      if left == 0 then (EnqueueAll(q', cfg.requests(q[i].func)), log + [Fired(i, q[i].func)]) else (q', log)
  }

  /** Queue and log when the sweep comes to slot j. */
  ghost function SweepTo(cfg: Config, q: seq<Slot>, log: seq<Event>, skips: nat, j: nat): (r: (seq<Slot>, seq<Event>))
    requires j <= |q|
    ensures |r.0| == |q|
  {
    if j == 0 then (q, log)
    else
      var (p, l) := SweepTo(cfg, q, log, skips, j - 1);
      Visit(cfg, p, l, skips, j - 1)
  }

  lemma {:induction false} SweepResumes(cfg: Config, q: seq<Slot>, log: seq<Event>, skips: nat, j: nat, i: nat)
    requires j <= |q|
    ensures var (p, l) := SweepTo(cfg, q, log, skips, j);
            && Sweep(cfg, q, log, skips, 0) == Sweep(cfg, p, l, skips, j)
            && (j <= i ==> Firings(l, i) == Firings(log, i))
  {
    if j > 0 {
      SweepResumes(cfg, q, log, skips, j - 1, i);
      var (p, l) := SweepTo(cfg, q, log, skips, j - 1);
      Appended(l, Fired(j - 1, p[j - 1].func), i);
    }
  }

  /** The callback of slot j runs in the tick's sweep and a request of its ends up in the
      free slot i. */
  ghost predicate RequestsInSweep(cfg: Config, c: State, j: nat, i: nat, r: Request) {
    && j < |c.queue| && i < |c.queue| && r.time > 0
    && var (q, _) := SweepTo(cfg, c.queue, c.log, c.skips, j);
       var q1 := q[j := Slot(0, q[j].func)];
       && q[j].time > 0 && Countdown(q[j].time, c.skips) == 0
       && q1[i].time == 0
       && EnqueueAll(q1, cfg.requests(q[j].func))[i] == Slot(r.time, r.func)
  }

  /** What the sweep leaves of a request made in it: the request itself in a slot it has
      passed, and one countdown of it in a slot it has yet to visit. */
  lemma RequestSwept(cfg: Config, c: State, j: nat, i: nat, r: Request)
    requires RequestsInSweep(cfg, c, j, i, r)
    ensures var (q', log') := Sweep(cfg, c.queue, c.log, c.skips, 0);
            var left := Countdown(r.time, c.skips);
            && (i <= j ==> q'[i] == Slot(r.time, r.func))
            && (i > j && left > 0 ==> q'[i] == Slot(left, r.func))
            && (i > j && left == 0 ==> Firings(log', i) == Firings(c.log, i) + 1)
  {
    var (q, log) := SweepTo(cfg, c.queue, c.log, c.skips, j);
    var f := q[j].func;
    var q2 := EnqueueAll(q[j := Slot(0, f)], cfg.requests(f));
    SweepResumes(cfg, c.queue, c.log, c.skips, j, i);
    Appended(log, Fired(j, f), i);
    if i <= j {
      SweepBehind(cfg, q2, log + [Fired(j, f)], c.skips, j + 1, i);
    } else {
      SweepSlot(cfg, q2, log + [Fired(j, f)], c.skips, j + 1, i);
    }
  }

  /** Queue and log after a tick that is not skipped. */
  lemma SweptTick(cfg: Config, c: State, aux: bool)
    requires !Skipped(c, aux)
    ensures var s := OneTick(cfg, c, aux);
            (s.queue, s.log) == Sweep(cfg, c.queue, c.log, c.skips, 0) && s.skips == 0
  {
  }

  /** A callback's request that goes into a slot the sweep has passed is due when asked for.
      One that goes into a slot still to be visited is counted down in the same sweep: it
      is due early, fires at once, or has missed its time and wraps around. */
  lemma SweepRequests(cfg: Config, c: State, aux: bool, j: nat, i: nat, r: Request)
    requires !Skipped(c, aux) && c.skips < U8 && RequestsInSweep(cfg, c, j, i, r)
    ensures var s, early := OneTick(cfg, c, aux), 1 + c.skips;
            && (i <= j ==> Waiting(s, i, r.func, r.time))
            && (i > j && r.time > early ==> Waiting(s, i, r.func, r.time - early))
            && (i > j && r.time == early ==> Firings(s.log, i) == Firings(c.log, i) + 1)
            && (i > j && r.time < early ==> Waiting(s, i, r.func, r.time - early + U16))
  {
    SweptTick(cfg, c, aux);
    RequestSwept(cfg, c, j, i, r);
    Counted(r.time - c.skips, c.skips);
  }

  // A callback that does miss its time

  /** One millisecond is asked for and then a bulb, on a clock just started: the due tick is
      the one the bulb opens on, and the callback misses it. */
  lemma MissesDueTick(cfg: Config, f: Callback, d: u32, aux: bool)
    ensures var p := Run(cfg, Initial, [In(Request(1, f)), Bulb(d)]);
            && Waiting(p, 0, f, 1) && Skipped(p, aux)
            && Waiting(OneTick(cfg, p, aux), 0, f, 0) && Firings(OneTick(cfg, p, aux).log, 0) == 0
  {
    var ops := [In(Request(1, f)), Bulb(d)];
    var asked := Step(cfg, Initial, ops[0]);
    RequestTakes(Initial.queue, Request(1, f), 0, 0);
    assert Run(cfg, Initial, ops[..1]) == asked by { assert Run(cfg, Initial, ops[..1][..0]) == Initial; }
    var p := Run(cfg, Initial, ops);
    assert p == Step(cfg, asked, Bulb(d));
    WaitingSkip(cfg, p, aux, 0, f, 1);
  }

  // What callers of the clock rely on, call by call

  /** Callbacks go on waiting as they should, and fire when they should. */
  ghost predicate CallbacksServed(c: State, op: Op, r: State) {
    forall i: nat, f: Callback, due: int :: Waiting(c, i, f, due) && (op.Tick? ==> -U16 + 1 < due) ==>
      if op.Tick? && !Skipped(c, op.aux) && due == 1 then
        Firings(r.log, i) == Firings(c.log, i) + 1
      else
        Waiting(r, i, f, DueAfter(c, op, due)) && Firings(r.log, i) == Firings(c.log, i)
  }

  /** A requested bulb opens, and one that is left to itself counts down and ends once. */
  ghost predicate BulbServed(cfg: Config, c: State, aux: bool, r: State) {
    && (c.newBulb ==> Exposing(r, OpenTicks(cfg, c.bulbDuration, aux)) && Ends(r.log) == Ends(c.log))
    && (forall n: nat :: Exposing(c, n) && (c.pcSync == 0 || !aux) ==>
          if n > 1 then Exposing(r, n - 1) && Ends(r.log) == Ends(c.log)
          else !r.bulbRunning && !r.newBulb && Ends(r.log) == Ends(c.log) + 1)
  }

  lemma StepServesCallbacks(cfg: Config, c: State, op: Op)
    ensures CallbacksServed(c, op, Step(cfg, c, op))
  {
    forall i: nat, f: Callback, due: int | Waiting(c, i, f, due) && (op.Tick? ==> -U16 + 1 < due)
      ensures var r := Step(cfg, c, op);
              if op.Tick? && !Skipped(c, op.aux) && due == 1 then
                Firings(r.log, i) == Firings(c.log, i) + 1
              else
                Waiting(r, i, f, DueAfter(c, op, due)) && Firings(r.log, i) == Firings(c.log, i)
    {
      WaitingStep(cfg, c, op, i, f, due);
    }
  }

  lemma TickServesBulb(cfg: Config, c: State, aux: bool)
    ensures BulbServed(cfg, c, aux, OneTick(cfg, c, aux))
  {
    AdjustedInRange(cfg, c.bulbDuration, aux);
    if c.newBulb { BulbOpens(cfg, c, aux); }
    forall n: nat | Exposing(c, n) && (c.pcSync == 0 || !aux)
      ensures var r := OneTick(cfg, c, aux);
              if n > 1 then Exposing(r, n - 1) && Ends(r.log) == Ends(c.log)
              else !r.bulbRunning && !r.newBulb && Ends(r.log) == Ends(c.log) + 1
    {
      BulbStep(cfg, c, Tick(aux), n);
    }
  }
}
