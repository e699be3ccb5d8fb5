/**
 Motion time: at every gap the motors' clock advances by the interval, plus a share of
 the time the run has fallen behind.
 */
module Motion {

  const CATCH_UP_FRAMES: int := 64

  /** The motors' clock and the current catch-up per frame, in milliseconds. */
  datatype MotionState = MotionState(ms: nat, correction: nat)

  /** Entering a gap: the clock reading and the interval, in tenths of a second. */
  datatype Entry = Entry(clock: nat, interval: nat)

  /** How far the real clock is ahead once the interval is counted. */
  function Lead(m: MotionState, e: Entry): int { e.clock - (m.ms + e.interval * 100) }

  function Advance(m: MotionState, e: Entry): MotionState {
    var counted := m.ms + e.interval * 100;
    var correction :=
      if e.clock > counted then
        var share := (e.clock - counted) / CATCH_UP_FRAMES;
        if share > m.correction then share else m.correction
      else 0;
    MotionState(counted + correction, correction)
  }

  /** The motion state after a sequence of gaps, from the start of a run. */
  function After(entries: seq<Entry>): MotionState {
    if entries == [] then MotionState(0, 0)
    else Advance(After(entries[..|entries| - 1]), entries[|entries| - 1])
  }

  /** The clock at gap k, counting the start of the run as the gap before the first. */
  function ClockAt(entries: seq<Entry>, k: int): nat
    requires -1 <= k < |entries|
  {
    if k < 0 then 0 else entries[k].clock
  }

  /** No frame takes more than its interval and the given slack. */
  ghost predicate Punctual(entries: seq<Entry>, slack: nat) {
    forall k :: 0 <= k < |entries| ==>
      entries[k].clock <= ClockAt(entries, k - 1) + entries[k].interval * 100 + slack
  }

  /** No frame takes less than its interval. */
  ghost predicate NeverEarly(entries: seq<Entry>) {
    forall k :: 0 <= k < |entries| ==>
      entries[k].clock >= ClockAt(entries, k - 1) + entries[k].interval * 100
  }

  /** One frame of catching up: a lead within 64 times the slack stays within. */
  lemma CatchUp(lead: int, correction: nat, slack: nat)
    requires lead <= CATCH_UP_FRAMES * slack
    requires correction >= if lead > 0 then lead / CATCH_UP_FRAMES else 0
    ensures lead - correction + slack <= CATCH_UP_FRAMES * slack
    ensures lead > 0 ==> lead / CATCH_UP_FRAMES <= slack
  {
  }

  /** The lag stays bounded however long the run: entering a gap, the clock never leads
      the motors' time by more than 64 times the slack, and the catch-up per frame never
      exceeds the slack. */
  lemma {:induction false} LagBounded(entries: seq<Entry>, slack: nat)
    requires entries != [] && Punctual(entries, slack)
    ensures var n := |entries| - 1;
            && Lead(After(entries[..n]), entries[n]) <= CATCH_UP_FRAMES * slack
            && After(entries).correction <= slack
  {
    var n := |entries| - 1;
    var before, e := entries[..n], entries[n];
    assert e.clock <= ClockAt(entries, n - 1) + e.interval * 100 + slack;
    if n > 0 {
      forall k | 0 <= k < n ensures before[k].clock <= ClockAt(before, k - 1) + before[k].interval * 100 + slack {
        assert entries[k].clock <= ClockAt(entries, k - 1) + entries[k].interval * 100 + slack;
      }
      LagBounded(before, slack);
      var m := After(before[..n - 1]);
      var lead := Lead(m, before[n - 1]);
      CatchUp(lead, After(before).correction, slack);
    }
    CatchUp(Lead(After(before), e), After(entries).correction, slack);
  }

  /** If no frame is early either, the motors' time never runs ahead of the clock by more
      than the slack. */
  lemma {:induction false} NotAhead(entries: seq<Entry>, slack: nat)
    requires entries != [] && Punctual(entries, slack) && NeverEarly(entries)
    ensures After(entries).ms - entries[|entries| - 1].clock <= slack
  {
    var n := |entries| - 1;
    var before, e := entries[..n], entries[n];
    LagBounded(entries, slack);
    assert e.clock >= ClockAt(entries, n - 1) + e.interval * 100;
    if n > 0 {
      forall k | 0 <= k < n
        ensures before[k].clock <= ClockAt(before, k - 1) + before[k].interval * 100 + slack
        ensures before[k].clock >= ClockAt(before, k - 1) + before[k].interval * 100
      {
        assert entries[k].clock <= ClockAt(entries, k - 1) + entries[k].interval * 100 + slack;
        assert entries[k].clock >= ClockAt(entries, k - 1) + entries[k].interval * 100;
      }
      NotAhead(before, slack);
    }
  }

  // Catching up

  /** The motion state after a sequence of gaps, from any state. */
  function AfterFrom(m: MotionState, entries: seq<Entry>): MotionState {
    if entries == [] then m
    else Advance(AfterFrom(m, entries[..|entries| - 1]), entries[|entries| - 1])
  }

  /** Every frame takes exactly its interval, from a moment on. */
  ghost predicate OnTheDot(clock: nat, entries: seq<Entry>) {
    forall k :: 0 <= k < |entries| ==> entries[k].clock == Last(clock, entries[..k]) + entries[k].interval * 100
  }

  /** The clock at the last of some gaps, or at the moment before them. */
  function Last(clock: nat, entries: seq<Entry>): nat {
    if entries == [] then clock else entries[|entries| - 1].clock
  }

  /** One frame on the dot: a lag shrinks by its share, which is held over the frames. */
  lemma ShrinksByShare(m: MotionState, e: Entry, clock: nat, share: nat)
    requires e.clock == clock + e.interval * 100
    requires clock - m.ms > 0 ==> m.correction >= share || (clock - m.ms) / CATCH_UP_FRAMES >= share
    ensures var r := Advance(m, e);
            && (clock - m.ms <= 0 ==> e.clock - r.ms == clock - m.ms)
            && (clock - m.ms > 0 ==> e.clock - r.ms <= clock - m.ms - share && r.correction >= share)
  {
  }

  lemma OneMore(n: nat, share: nat)
    ensures (n + 1) * share == n * share + share
  {
  }

  lemma {:induction false} LagShrinks(m: MotionState, clock: nat, entries: seq<Entry>, share: nat)
    requires OnTheDot(clock, entries) && share == if clock > m.ms then (clock - m.ms) / CATCH_UP_FRAMES else 0
    ensures var r := AfterFrom(m, entries);
            var lag := Last(clock, entries) - r.ms;
            && (lag <= 0 || lag + |entries| * share <= clock - m.ms)
            && (lag > 0 && entries != [] ==> r.correction >= share)
  {
    if entries != [] {
      var n := |entries| - 1;
      var before, e := entries[..n], entries[n];
      forall k | 0 <= k < n ensures before[k].clock == Last(clock, before[..k]) + before[k].interval * 100 {
        assert before[..k] == entries[..k];
      }
      LagShrinks(m, clock, before, share);
      assert e.clock == Last(clock, before) + e.interval * 100;
      ShrinksByShare(AfterFrom(m, before), e, Last(clock, before), share);
      OneMore(n, share);
    }
  }

  /** Whatever the lag, after 64 frames on the dot the motors' time is less than 64
      milliseconds behind. */
  lemma LagCaughtUp(m: MotionState, clock: nat, entries: seq<Entry>)
    requires OnTheDot(clock, entries) && |entries| == CATCH_UP_FRAMES
    ensures Last(clock, entries) - AfterFrom(m, entries).ms < CATCH_UP_FRAMES
  {
    LagShrinks(m, clock, entries, if clock > m.ms then (clock - m.ms) / CATCH_UP_FRAMES else 0);
  }
}
