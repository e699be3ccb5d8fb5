/**
 The keyframe group as the menu edits it: a fixed array of ten frames, of which the
 first `count` are in use, shifted in place on insertion and removal; and the update
 that brings a motor's group to a zero origin before a run.
 */
module KeyframeGroup {
  import opened Keyframes

  const MAX_KEYFRAMES: nat := 10
  const MIN_RUN_MS: nat := 84
  const MOTOR_RANGE: int := 1000

  /** Times in order, equal ones allowed. */
  ghost predicate InOrder(kf: seq<Keyframe>) {
    forall i, j :: 0 <= i < j < |kf| ==> kf[i].ms <= kf[j].ms
  }

  /** Removal, which leaves the first and the last frame alone. */
  function Removed(kf: seq<Keyframe>, index: nat): seq<Keyframe> {
    if index >= |kf| || |kf| <= 2 || index == 0 || index == |kf| - 1 then kf
    else kf[..index] + kf[index + 1..]
  }

  /** When the last frame is after fitting. */
  function EndTime(runMs: nat): nat { if runMs < MIN_RUN_MS then MIN_RUN_MS else runMs }

  /** A motor's group once its times are fitted to the run. */
  function Fitted(kf: seq<Keyframe>, hasEnd: bool, runMs: nat): (r: seq<Keyframe>)
    requires kf != []
    ensures |r| == |kf|
  {
    var n := |kf|;
    var first := kf[0 := Keyframe(kf[0].value, 0)];
    var value := if !hasEnd && n >= 2 then first[n - 2].value else first[n - 1].value;
    first[n - 1 := Keyframe(value, EndTime(runMs))]
  }

  /** The frames between the first and the last are in strict order within the run. */
  ghost predicate InteriorFits(kf: seq<Keyframe>, end: nat) {
    && (forall i, j :: 0 < i < j < |kf| - 1 ==> kf[i].ms < kf[j].ms)
    && (forall k :: 0 < k < |kf| - 1 ==> 0 < kf[k].ms < end)
  }

  /** The fitted group is in strict order, as interpolation needs it, exactly when its
      interior frames are and fall within the run. */
  lemma FittedOrderedExactly(kf: seq<Keyframe>, hasEnd: bool, runMs: nat)
    requires kf != []
    ensures Ordered(Fitted(kf, hasEnd, runMs)) <==> InteriorFits(kf, EndTime(runMs))
  {
    var n, r, end := |kf|, Fitted(kf, hasEnd, runMs), EndTime(runMs);
    assert n > 1 ==> r[0].ms == 0;
    assert r[n - 1].ms == end;
    assert forall k :: 0 < k < n - 1 ==> r[k] == kf[k];
  }

  lemma LoweringKeepsTimes(kf: seq<Keyframe>, offset: int, end: nat)
    ensures InteriorFits(Lowered(kf, offset), end) <==> InteriorFits(kf, end)
  {
    var low := Lowered(kf, offset);
    assert |low| == |kf| && forall k :: 0 <= k < |kf| ==> low[k].ms == kf[k].ms;
  }

  /** Frame by frame: the first is at time zero, the last at the run's end, or at 84 ms if that
      is later, with its own value or, without an end frame, the one before it; the others
      stay. */
  lemma FittedFrames(kf: seq<Keyframe>, hasEnd: bool, runMs: nat)
    requires |kf| >= 2
    ensures var n, r := |kf|, Fitted(kf, hasEnd, runMs);
            && |r| == n && r[0] == Keyframe(kf[0].value, 0)
            && r[n - 1].ms == (if runMs < 84 then 84 else runMs)
            && r[n - 1].value == (if hasEnd then kf[n - 1].value else kf[n - 2].value)
            && forall k :: 0 < k < n - 1 ==> r[k] == kf[k]
  {
  }

  /** For a group in order: exactly when the last but one frame is before the run's end. So
      shortening a run below an interior frame puts the group out of order. */
  lemma RefittedOrderedExactly(kf: seq<Keyframe>, hasEnd: bool, runMs: nat)
    requires Ordered(kf) && |kf| > 2
    ensures Ordered(Fitted(kf, hasEnd, runMs)) <==> kf[|kf| - 2].ms < EndTime(runMs)
  {
    FittedOrderedExactly(kf, hasEnd, runMs);
    assert forall k :: 0 < k < |kf| - 1 ==> kf[0].ms < kf[k].ms <= kf[|kf| - 2].ms;
  }

  class Group {
    const frames: array<Keyframe>
    var count: nat
    var hasEnd: bool
    var max: int
    var min: int
    var steps: int             // by how much a key press changes a value
    var rangeExtendable: bool  // whether it may leave the range
    var moves: bool            // whether the axes follow while a value is edited

    ghost predicate Valid()
      reads this
    {
      frames.Length == MAX_KEYFRAMES && count <= MAX_KEYFRAMES
    }

    ghost function Contents(): seq<Keyframe>
      requires Valid()
      reads this, frames
    {
      frames[..count]
    }

    constructor (first: Keyframe, last: Keyframe)
      ensures Valid() && Contents() == [first, last] && fresh(frames)
    {
      frames := new Keyframe[MAX_KEYFRAMES](_ => Keyframe(0, 0));
      count, hasEnd, max, min := 2, false, MOTOR_RANGE, -MOTOR_RANGE;
      steps, rangeExtendable, moves := 1, false, false;
      new;
      frames[0], frames[1] := first, last;
    }

    /** Inserts before the first frame that is not earlier; reports the new frame's place,
        counted from one, or zero when there is no room or no later frame. */
    method AddKeyframe(value: int, ms: nat) returns (slot: nat)
      requires Valid()
      modifies this`count, frames
      ensures Valid()
      ensures var kf := old(Contents());
              var i := Seek(kf, ms, 0);
              if |kf| >= 9 || i == |kf| then slot == 0 && Contents() == kf
              else slot == i + 1 && Contents() == Inserted(kf, i, Keyframe(value, ms))
    {
      if count >= MAX_KEYFRAMES - 1 { return 0; }
      ghost var kf := Contents();
      var i := 0;
      while i < count
        invariant count == old(count) && i <= count && i <= Seek(kf, ms, 0)
        invariant Contents() == kf
      {
        if frames[i].ms >= ms {
          assert Seek(kf, ms, 0) == i;
          InsertAt(i, Keyframe(value, ms));
          return i + 1;
        }
        i := i + 1;
      }
      slot := 0;
    }

    method InsertAt(i: nat, f: Keyframe)
      requires Valid() && i < count < MAX_KEYFRAMES - 1
      modifies this`count, frames
      ensures Valid() && Contents() == Inserted(old(Contents()), i, f)
    {
      ghost var kf := Contents();
      ShiftUp(i);
      frames[i] := f;
      count := count + 1;
      assert forall k :: i < k < count ==> frames[k] == kf[k - 1];
    }

    /** Makes room at place i by moving the frames from there on up by one. */
    method ShiftUp(i: nat)
      requires Valid() && i < count < MAX_KEYFRAMES - 1
      modifies frames
      ensures forall k :: 0 <= k <= i ==> frames[k] == old(frames[k])
      ensures forall k :: i < k <= count ==> frames[k] == old(frames[k - 1])
    {
      var j := count + 1;
      while j > i
        invariant i <= j <= count + 1
        invariant forall k :: 0 <= k <= j && k < MAX_KEYFRAMES ==> frames[k] == old(frames[k])
        invariant forall k :: j < k <= count + 1 ==> frames[k] == old(frames[k - 1])
      {
        frames[j] := frames[j - 1];
        j := j - 1;
      }
    }

    /** Takes the frame at the given index out, unless it is the first or the last. */
    method RemoveKeyframe(index: nat) returns (left: nat)
      requires Valid()
      modifies this`count, frames
      ensures Valid()
      ensures Contents() == Removed(old(Contents()), index)
      ensures left == if |Contents()| < |old(Contents())| then |Contents()| else 0
    {
      if index >= count || count <= 2 || index == 0 || index == count - 1 { return 0; }
      ShiftDown(index);
      count := count - 1;
      left := count;
    }

    /** Closes place i by moving the frames after it down by one. */
    method ShiftDown(i: nat)
      requires Valid() && i < count
      modifies frames
      ensures frames[..count - 1] == old(frames[..i] + frames[i + 1..count])
    {
      var j := i;
      while j < count - 1
        invariant i <= j <= count - 1
        invariant forall k :: 0 <= k < i ==> frames[k] == old(frames[k])
        invariant forall k :: i <= k < j ==> frames[k] == old(frames[k + 1])
        invariant forall k :: j <= k < count ==> frames[k] == old(frames[k])
      {
        frames[j] := frames[j + 1];
        j := j + 1;
      }
    }

    /** The rebasing loop: every value is lowered by the first one, and so is the motor's
        position. */
    method Rebase(position: int) returns (rebased: int)
      requires Valid() && count > 0
      modifies frames
      ensures Contents() == Lowered(old(Contents()), old(Contents())[0].value)
      ensures rebased == position - old(Contents())[0].value
    {
      ghost var kf := Contents();
      rebased := position;
      if frames[0].value != 0 {
        var i := 1;
        while i < count
          invariant 1 <= i <= count
          invariant frames[0] == kf[0]
          invariant forall k :: 1 <= k < i ==> frames[k] == Keyframe(kf[k].value - kf[0].value, kf[k].ms)
          invariant forall k :: i <= k < count ==> frames[k] == kf[k]
        {
          frames[i] := Keyframe(frames[i].value - frames[0].value, frames[i].ms);
          i := i + 1;
        }
        rebased := rebased - frames[0].value;
        frames[0] := Keyframe(0, frames[0].ms);
      }
    }

    /** The range shown for a motor: wide enough for every value, no wider than needed. */
    method MeasureRange()
      requires Valid()
      modifies this`max, this`min
      ensures max >= 1000 && min <= -1000
      ensures forall k :: 0 <= k < count ==> min <= frames[k].value <= max
      ensures max == 1000 || exists k :: 0 <= k < count && frames[k].value == max
      ensures min == -1000 || exists k :: 0 <= k < count && frames[k].value == min
    {
      max, min := MOTOR_RANGE, -MOTOR_RANGE;
      var i := 0;
      while i < count
        invariant i <= count
        invariant max >= MOTOR_RANGE && min <= -MOTOR_RANGE
        invariant forall k :: 0 <= k < i ==> min <= frames[k].value <= max
        invariant max == MOTOR_RANGE || exists k :: 0 <= k < count && frames[k].value == max
        invariant min == -MOTOR_RANGE || exists k :: 0 <= k < count && frames[k].value == min
      {
        if frames[i].value > max { max := frames[i].value; }
        if frames[i].value < min { min := frames[i].value; }
        i := i + 1;
      }
    }

    /** The update of a motor's group before a run. The group is in order afterwards exactly
        when its interior frames fall within the run. */
    method UpdateMotorGroup(position: int, step: int, runMs: nat) returns (rebased: int)
      requires Valid() && count > 0
      modifies this`max, this`min, this`steps, this`rangeExtendable, this`moves, frames
      ensures Valid() && steps == step && rangeExtendable && moves
      ensures var kf := old(Contents());
              && rebased == position - kf[0].value
              && Contents() == Fitted(Lowered(kf, kf[0].value), hasEnd, runMs)
              && (Ordered(Contents()) <==> InteriorFits(kf, EndTime(runMs)))
      ensures max >= MOTOR_RANGE && min <= -MOTOR_RANGE
      ensures forall k :: 0 <= k < count ==> min <= frames[k].value <= max
    {
      ghost var kf := Contents();
      rebased := FitMotorGroup(position, step, runMs);
      FittedOrderedExactly(Lowered(kf, kf[0].value), hasEnd, runMs);
      LoweringKeepsTimes(kf, kf[0].value, EndTime(runMs));
    }

    method FitMotorGroup(position: int, step: int, runMs: nat) returns (rebased: int)
      requires Valid() && count > 0
      modifies this`max, this`min, this`steps, this`rangeExtendable, this`moves, frames
      ensures Valid() && steps == step && rangeExtendable && moves
      ensures var kf := old(Contents());
              && rebased == position - kf[0].value
              && Contents() == Fitted(Lowered(kf, kf[0].value), hasEnd, runMs)
      ensures max >= MOTOR_RANGE && min <= -MOTOR_RANGE
      ensures forall k :: 0 <= k < count ==> min <= frames[k].value <= max
    {
      rebased := Rebase(position);
      MeasureRange();
      steps, rangeExtendable, moves := step, true, true;
      FitTimes(runMs);
    }

    /** First and last frame are fitted to the run. */
    method FitTimes(runMs: nat)
      requires Valid() && count > 0
      modifies frames
      ensures Contents() == Fitted(old(Contents()), hasEnd, runMs)
    {
      ghost var low := Contents();
      frames[0] := Keyframe(frames[0].value, 0);
      if !hasEnd && count >= 2 {
        frames[count - 1] := Keyframe(frames[count - 2].value, frames[count - 1].ms);
      }
      frames[count - 1] := Keyframe(frames[count - 1].value, runMs);
      if frames[count - 1].ms < MIN_RUN_MS {
        frames[count - 1] := Keyframe(frames[count - 1].value, MIN_RUN_MS);
      }
      assert Contents() == Fitted(low, hasEnd, runMs);
    }
  }

  /** Insertion keeps the times in order. */
  lemma InsertionKeepsOrder(kf: seq<Keyframe>, f: Keyframe)
    requires InOrder(kf) && Seek(kf, f.ms, 0) < |kf|
    ensures InOrder(Inserted(kf, Seek(kf, f.ms, 0), f))
  {
    var i := Seek(kf, f.ms, 0);
    var r := Inserted(kf, i, f);
    forall a, b | 0 <= a < b < |r| ensures r[a].ms <= r[b].ms {
      InsertedFrames(kf, i, f, a);
      InsertedFrames(kf, i, f, b);
    }
  }

  lemma InsertionKeepsStrictOrder(kf: seq<Keyframe>, f: Keyframe)
    requires Ordered(kf) && Seek(kf, f.ms, 0) < |kf| && kf[Seek(kf, f.ms, 0)].ms != f.ms
    ensures Ordered(Inserted(kf, Seek(kf, f.ms, 0), f))
  {
    var i := Seek(kf, f.ms, 0);
    var r := Inserted(kf, i, f);
    forall a, b | 0 <= a < b < |r| ensures r[a].ms < r[b].ms {
      InsertedFrames(kf, i, f, a);
      InsertedFrames(kf, i, f, b);
    }
  }

  /** Strict order is kept exactly when the time was not taken. */
  lemma InsertionStrictExactly(kf: seq<Keyframe>, f: Keyframe)
    requires Ordered(kf) && Seek(kf, f.ms, 0) < |kf|
    ensures var i := Seek(kf, f.ms, 0);
            Ordered(Inserted(kf, i, f)) <==> kf[i].ms != f.ms
  {
    var i := Seek(kf, f.ms, 0);
    if kf[i].ms != f.ms {
      InsertionKeepsStrictOrder(kf, f);
    } else {
      InsertedFrames(kf, i, f, i);
      InsertedFrames(kf, i, f, i + 1);
    }
  }

  /** Removing the frame at the place the insertion reported restores the group, exactly
      when that place was not the first. */
  lemma RemovalUndoesInsertion(kf: seq<Keyframe>, f: Keyframe, slot: nat)
    requires Seek(kf, f.ms, 0) < |kf| && slot == Seek(kf, f.ms, 0) + 1
    ensures Removed(Inserted(kf, slot - 1, f), slot - 1) == kf <==> slot > 1
  {
    if slot > 1 { TakenOut(kf, slot - 1, f); }
  }

  lemma TakenOut(kf: seq<Keyframe>, i: nat, f: Keyframe)
    requires i < |kf|
    ensures var r := Inserted(kf, i, f); |r| == |kf| + 1 && r[..i] + r[i + 1..] == kf
  {
  }
}
