/**
 The millisecond clock as a state machine: one tick counts the time, runs the bulb and
 the queue of delayed callbacks. Ticks on which the bulb starts, ends or sees the PC
 sync return early; they are made up for on the next full tick.
 */
module ClockSpec {

  const QUEUE: nat := 3
  const U8: int := 0x100
  const U16: int := 0x1_0000
  const U32: int := 0x1_0000_0000

  type u16 = x: int | 0 <= x < U16
  type u32 = x: int | 0 <= x < U32

  type Callback = nat

  /** 32-bit wrap-around of a sum or difference of a 32-bit and a 16-bit number. */
  function Wrap(x: int): u32
    requires -U16 < x < U32 + U16
  {
    if x < 0 then x + U32 else if x >= U32 then x - U32 else x
  }

  /** A request to run a callback after a number of milliseconds. */
  datatype Request = Request(time: u16, func: Callback)

  /** A queue slot; it is free when its time is zero. */
  datatype Slot = Slot(time: u16, func: Callback)

  datatype Event = BulbStart | BulbEnd | Fired(slot: nat, func: Callback)

  /** Settings and what the hooks ask of the queue: each callback, the start and the end
      of the bulb may request further callbacks. */
  datatype Config = Config(
    syncPort: bool, pcSyncRequired: bool,
    bulbOffset: u16, negBulbOffset: bool, bulbEndOffset: u16,
    requests: Callback -> seq<Request>,
    startRequests: seq<Request>, endRequests: seq<Request>
  )

  datatype State = State(
    ms: nat, seconds: nat, eventMs: nat,
    newBulb: bool, bulbRunning: bool, usingSync: bool,
    bulbDuration: u32, pcSync: u32,
    skips: nat,
    queue: seq<Slot>,
    log: seq<Event>
  ) {
    predicate Valid() { |queue| == QUEUE }

    function Ms(): nat { ms + seconds * 1000 }
  }

  datatype Op = Tick(aux: bool) | Bulb(duration: u32) | CancelBulb | In(request: Request) | Reset | Tare

  // The queue

  /** The first free slot takes the request; with none free the request is dropped. */
  function EnqueueFrom(q: seq<Slot>, r: Request, i: nat): (q': seq<Slot>)
    ensures |q'| == |q|
    decreases |q| - i
  {
    if i >= |q| then q
    else if q[i].time == 0 then q[i := Slot(r.time, r.func)]
    else EnqueueFrom(q, r, i + 1)
  }

  function Enqueue(q: seq<Slot>, r: Request): (q': seq<Slot>)
    ensures |q'| == |q|
  {
    EnqueueFrom(q, r, 0)
  }

  function EnqueueAll(q: seq<Slot>, rs: seq<Request>): (q': seq<Slot>)
    ensures |q'| == |q|
    decreases |rs|
  {
    if rs == [] then q else EnqueueAll(Enqueue(q, rs[0]), rs[1..])
  }

  /** Counting down slot i in 16 bits. */
  function Countdown(time: u16, skips: nat): (t: u16) {
    (time - (1 + skips)) % U16
  }

  /** The sweep over the slots from i on: count down, fire what has run out. A callback
      may fill free slots, also ones the sweep has yet to visit. */
  function Sweep(cfg: Config, q: seq<Slot>, log: seq<Event>, skips: nat, i: nat): (r: (seq<Slot>, seq<Event>))
    ensures |r.0| == |q|
    decreases |q| - i
  {
    if i >= |q| then (q, log)
    else if q[i].time == 0 then Sweep(cfg, q, log, skips, i + 1)
    else
      var left := Countdown(q[i].time, skips);
      var q' := q[i := Slot(left, q[i].func)];
      if left == 0 then
        Sweep(cfg, EnqueueAll(q', cfg.requests(q[i].func)), log + [Fired(i, q[i].func)], skips, i + 1)
      else
        Sweep(cfg, q', log, skips, i + 1)
  }

  // The tick

  /** How long the bulb stays open after a PC sync, zero if none is waited for: it is waited
      for with an open contact on a sync port. */
  function SyncTime(cfg: Config, d: u32, aux: bool): u32 {
    if cfg.syncPort && !aux && d > cfg.bulbEndOffset then d - cfg.bulbEndOffset else 0
  }

  /** The duration the bulb is opened with: time to wait for the sync and the camera's offset
      are applied in 32 bits. */
  function Adjusted(cfg: Config, d: u32, aux: bool): u32 {
    var base := if cfg.syncPort && !aux && cfg.pcSyncRequired then Wrap(d + 2000) else d;
    Wrap(if cfg.negBulbOffset then base - cfg.bulbOffset else base + cfg.bulbOffset)
  }

  function StartBulb(cfg: Config, c: State, aux: bool): State {
    c.(newBulb := false, bulbRunning := true,
       pcSync := SyncTime(cfg, c.bulbDuration, aux), bulbDuration := Adjusted(cfg, c.bulbDuration, aux),
       skips := c.skips + 1,
       queue := EnqueueAll(c.queue, cfg.startRequests), log := c.log + [BulbStart])
  }

  function EndBulb(cfg: Config, c: State): State {
    c.(bulbRunning := false, bulbDuration := 0,
       usingSync := c.usingSync && c.pcSync == 0,
       skips := c.skips + 1,
       queue := EnqueueAll(c.queue, cfg.endRequests), log := c.log + [BulbEnd])
  }

  /** The part of the tick that a skipped tick leaves out. */
  function FullTick(cfg: Config, c: State): State {
    var (q, log) := Sweep(cfg, c.queue, c.log, c.skips, 0);
    var c' := c.(queue := q, log := log, skips := 0);
    if c'.ms >= 1000 then c'.(ms := c'.ms - 1000, seconds := c'.seconds + 1) else c'
  }

  /** The bulb's part of a tick on which none opens, and whether the tick ends there. */
  function BulbTick(cfg: Config, c: State, aux: bool): (State, bool) {
    if !c.bulbRunning then (c, false)
    else
      var left := Wrap(c.bulbDuration - 1);
      if left == 0 then (EndBulb(cfg, c), true)
      else if c.pcSync != 0 && aux then
        (c.(bulbDuration := c.pcSync, pcSync := 0, usingSync := true, skips := c.skips + 1), true)
      else (c.(bulbDuration := left), false)
  }

  function OneTick(cfg: Config, c: State, aux: bool): State {
    var c1 := c.(ms := c.ms + 1, eventMs := c.eventMs + 1);
    if c1.newBulb then StartBulb(cfg, c1, aux)
    else
      var (c2, back) := BulbTick(cfg, c1, aux);
      if back then c2 else FullTick(cfg, c2)
  }

  /** The tick returns before it reaches the queue. */
  predicate Skipped(c: State, aux: bool) {
    c.newBulb || (c.bulbRunning && (Wrap(c.bulbDuration - 1) == 0 || (c.pcSync != 0 && aux)))
  }

  function Step(cfg: Config, c: State, op: Op): State {
    match op
    case Tick(aux) => OneTick(cfg, c, aux)
    case Bulb(d) => c.(bulbRunning := false, bulbDuration := d, newBulb := true)
    case CancelBulb => c.(bulbRunning := false, bulbDuration := 0, newBulb := false)
    case In(r) => c.(queue := Enqueue(c.queue, r))
    case Reset => c.(eventMs := 0, seconds := 0, ms := 0, bulbRunning := false, newBulb := false, usingSync := false)
    case Tare => c.(eventMs := 0)
  }

  function Run(cfg: Config, c: State, ops: seq<Op>): State {
    if ops == [] then c else Step(cfg, Run(cfg, c, ops[..|ops| - 1]), ops[|ops| - 1])
  }

  function Ticks(ops: seq<Op>): nat {
    if ops == [] then 0 else Ticks(ops[..|ops| - 1]) + if ops[|ops| - 1].Tick? then 1 else 0
  }

  /** The clock when it is started. */
  const Initial := State(0, 0, 0, false, false, false, 0, 0, 0, [Slot(0, 0), Slot(0, 0), Slot(0, 0)], [])
}
