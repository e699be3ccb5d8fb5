/**
 The run of a time-lapse program, as a state machine. One call of the run routine works through
 the run states in a fixed order, so that a call may pass through several of them; what
 it sees of clock, camera and motors during the call is its input.
 */
module RunSpec {
  import opened Motion

  const U8: int := 0x100
  const U16: int := 0x1_0000
  const U32: int := 0x1_0000_0000

  /** The program being run. */
  datatype Program = Program(
    timelapse: bool, hdr: bool, ramp: bool,
    delay: nat, duration: nat, photos: nat, gap: nat, exps: nat,
    bulb: bool,      // an exposure time is set, or any bulb length is allowed
    external: bool,  // frames are triggered from outside
    fps: nat         // pause between exposures, in hundredths of a second
  ) {
    predicate Infinite() { if ramp then external else photos == 0 }

    /** Exposures that make up one photo. */
    function PerPhoto(): nat { if hdr && exps > 1 then exps else 1 }

    /** Photos the run is to take when it is to end by count. */
    function Total(): nat { if timelapse then photos else 1 }

    /** Field widths of the firmware. */
    predicate Fits() { photos < U16 && exps < U8 }
  }

  datatype RunState = Delay | Bulb | Photo | Gap | Next | End | Error | Trigger | TriggerRelease

  datatype Prior = Unknown | Was(state: RunState)

  /** What a run does to the outside, in order. */
  datatype Event = Fired | PhotoDone(exps: nat) | GapEntered(entry: Entry) | FrameDue(entry: Entry)

  datatype State = State(
    running: bool, run: RunState, prior: Prior,
    photos: nat, exps: nat, taken: int, remaining: int,
    interval: nat, lastPhotoMs: nat, lastPhotoEndMs: nat,
    motion: MotionState, trace: seq<Event>
  )

  /** What one call sees. */
  datatype Input = Input(
    cancel: bool,
    eventMs: nat, photoMs: nat, nextMs: nat, gapMs: nat, waitMs: nat, triggerMs: nat, seconds: nat,
    interval: nat,       // a ramp's interval for the next frame
    settingFails: bool,  // a ramp cannot set aperture or ISO
    plainCapture: bool,  // the camera times the exposure; its release reports no error
    shutterFails: bool, ptpError: bool,
    bulbRunning: bool,
    cameraAway: bool, connectionLost: bool, cameraReady: bool, busy: bool,
    focusing: bool, motorsRunning: bool,
    contact: bool, contactLater: bool
  )

  function Started(p: Program, motion: MotionState): State {
    State(true, Delay, Unknown, 0, 0, 0, p.photos, p.gap, 0, 0, motion, [])
  }

  // Each block yields the new state and whether the call returns there

  function DelayBlock(p: Program, s: State, i: Input): State {
    if s.run != Delay then s
    else if i.eventMs / 1000 > p.delay then
      s.(prior := Was(Delay), motion := MotionState(0, 0), lastPhotoMs := 0, run := Photo)
    else s.(prior := Was(Delay), run := if p.external then Trigger else Delay)
  }

  predicate MayFire(p: Program, s: State, i: Input) {
    s.exps + s.photos == 0 || (i.photoMs - s.lastPhotoEndMs) % U32 / 10 % U8 >= p.fps
  }

  /** Starting an exposure: at once, or timed by the bulb. */
  function Shoot(p: Program, s: State): State {
    if p.bulb || p.ramp then s.(lastPhotoEndMs := 0, prior := Was(Photo), run := Bulb)
    else s.(lastPhotoEndMs := 0, prior := Was(Photo), run := Next, exps := (s.exps + 1) % U8, trace := s.trace + [Fired])
  }

  function PhotoBlock(p: Program, s: State, i: Input): State {
    if s.run == Photo && MayFire(p, s, i) then Shoot(p, s) else s
  }

  function BulbBlock(p: Program, s: State, i: Input): (r: (State, bool)) {
    if s.run != Bulb then (s, false)
    else if s.prior != Was(Bulb) then
      var s1 := s.(prior := Was(Bulb), interval := if p.ramp then i.interval else s.interval);
      if p.ramp && i.settingFails then (s1.(run := Error), true)
      else if !i.plainCapture && i.shutterFails then
        (s1.(prior := Was(Delay), run := if i.ptpError then Error else Bulb), true)
      else (s1.(trace := s.trace + [Fired]), false)
    else if !i.bulbRunning then (s.(exps := (s.exps + 1) % U8, run := Next), true)
    else (s, false)
  }

  /** The run is over by count or, for a ramp, by time. */
  predicate Over(p: Program, photos: nat, i: Input) {
    !p.Infinite() &&
    (if p.ramp then i.seconds >= p.duration * 60 else photos >= p.photos || (!p.timelapse && photos >= 1))
  }

  /** A photo is complete, or its next exposure can start. */
  function CountBlock(p: Program, s: State, i: Input): State {
    if !p.hdr || s.exps >= p.exps then
      s.(exps := 0, photos := s.photos + 1, run := Gap, trace := s.trace + [PhotoDone(s.exps)])
    else if !i.busy then s.(run := Photo)
    else s
  }

  /** The end of the run and the numbers shown. */
  function ReportBlock(p: Program, s: State, i: Input): State {
    s.(run := if Over(p, s.photos, i) then End else s.run,
       remaining := (p.photos - s.photos) % U16, taken := s.photos)
  }

  function NextBlock(p: Program, s: State, i: Input): (r: (State, bool)) {
    if s.run != Next then (s, false)
    else
      var s1 := if s.prior != Was(Next) then s.(prior := Was(Next), lastPhotoEndMs := i.nextMs) else s;
      if i.cameraAway then (s1, true)
      else if i.connectionLost then (s1.(run := Error), true)
      else (ReportBlock(p, CountBlock(p, s1, i), i), false)
  }

  /** On entering a gap the motors' time advances. */
  function EnterGap(s: State, i: Input): State {
    if s.prior == Was(Gap) then s
    else
      var e := Entry(i.gapMs, s.interval);
      s.(prior := Was(Gap), motion := Advance(s.motion, e), trace := s.trace + [GapEntered(e)])
  }

  /** The interval since the last frame has passed. */
  predicate IntervalOver(s: State, i: Input) { (i.waitMs - s.lastPhotoMs) % U32 / 100 >= s.interval }

  /** Waiting for the interval to pass. */
  function WaitGap(p: Program, s: State, i: Input): State {
    if IntervalOver(s, i) then
      s.(lastPhotoMs := i.waitMs, run := if p.external then Trigger else Photo,
         trace := s.trace + [FrameDue(Entry(i.waitMs, s.interval))])
    else s.(run := if p.external then Trigger else s.run)
  }

  function GapBlock(p: Program, s: State, i: Input): (r: (State, bool)) {
    if s.run != Gap then (s, false)
    else
      var s1 := EnterGap(s, i);
      if i.focusing then (s1, true)
      else if i.motorsRunning then (s1, false)
      else (WaitGap(p, s1, i), false)
  }

  /** An outside trigger has been missing for ten intervals. */
  predicate TriggerLost(s: State, i: Input) {
    s.photos > 2 && (i.triggerMs - s.lastPhotoMs) % U32 / 1000 >= s.interval
  }

  function TriggerBlock(s: State, i: Input): State {
    var s1 :=
      if s.run != Trigger then s
      else if i.contact then s.(run := TriggerRelease)
      else if TriggerLost(s, i) then s.(run := End)
      else s;
    if s1.run != TriggerRelease then s1
    else if !i.contactLater then
      s1.(interval := if s1.photos > 1 then (i.triggerMs - s1.lastPhotoMs) % U32 / 100 % U16 else s1.interval,
          lastPhotoMs := i.triggerMs, run := Photo)
    else if TriggerLost(s1, i) then s1.(run := End)
    else s1
  }

  function CloseBlock(s: State, i: Input): State {
    if s.run == Error then s.(prior := Was(Error), run := if i.cameraReady then Next else Error)
    else if s.run == End then s.(prior := Was(End), running := false)
    else s
  }

  // One call of the run routine: the blocks in their order

  function FromGap(p: Program, s: State, i: Input): State {
    var (s1, back) := GapBlock(p, s, i);
    if back then s1 else CloseBlock(TriggerBlock(s1, i), i)
  }

  function FromNext(p: Program, s: State, i: Input): State {
    var (s1, back) := NextBlock(p, s, i);
    if back then s1 else FromGap(p, s1, i)
  }

  function FromBulb(p: Program, s: State, i: Input): State {
    var (s1, back) := BulbBlock(p, s, i);
    if back then s1 else FromNext(p, s1, i)
  }

  function Task(p: Program, s: State, i: Input): State {
    if !s.running then s
    else
      var s0 := if i.cancel then s.(run := End) else s;
      FromBulb(p, PhotoBlock(p, DelayBlock(p, s0, i), i), i)
  }

  function Run(p: Program, s: State, inputs: seq<Input>): State {
    if inputs == [] then s else Task(p, Run(p, s, inputs[..|inputs| - 1]), inputs[|inputs| - 1])
  }
}
