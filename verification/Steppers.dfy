/**
 Stepping aperture and ISO through the lists the camera reports. Values are exposure
 codes in third-stops: a larger aperture code is a smaller opening, a larger ISO code
 a lower sensitivity, so either one growing by one calls for one third-stop more time.
 */
module Steppers {

  function Min(a: nat, b: nat): nat { if a <= b then a else b }

  function Max(a: nat, b: nat): nat { if a >= b then a else b }

  ghost predicate Increasing(list: seq<nat>) {
    forall i, j :: 0 <= i < j < |list| ==> list[i] < list[j]
  }

  ghost predicate Decreasing(list: seq<nat>) {
    forall i, j :: 0 <= i < j < |list| ==> list[i] > list[j]
  }

  /** The first place of ev in the list, or the list's length. */
  function IndexOf(list: seq<nat>, ev: nat): (k: nat)
    ensures k <= |list|
    ensures k < |list| ==> list[k] == ev
    ensures forall j :: 0 <= j < k ==> list[j] != ev
  {
    if list == [] then 0
    else if list[0] == ev then 0
    else 1 + IndexOf(list[1..], ev)
  }

  function Last(list: seq<nat>): nat
    requires list != []
  {
    list[|list| - 1]
  }

  // The steppers as functions of list, limit and current value

  function ApertureUp(list: seq<nat>, max: nat, ev: nat): (next: nat)
    requires list != []
  {
    var k := IndexOf(list, ev);
    Min(if k + 1 < |list| then list[k + 1] else Last(list), max)
  }

  function ApertureDown(list: seq<nat>, min: nat, ev: nat): (next: nat)
    requires list != []
  {
    var k := IndexOf(list, ev);
    Max(if 0 < k < |list| then list[k - 1] else list[0], min)
  }

  function IsoUp(list: seq<nat>, limit: nat, ev: nat): (next: nat) {
    if list == [] then ev
    else
      var k := IndexOf(list, ev);
      Max(if k + 1 < |list| then list[k + 1] else Last(list), limit)
  }

  function IsoDown(list: seq<nat>, ev: nat): (next: nat) {
    if list == [] then ev
    else
      var k := IndexOf(list, ev);
      if 0 < k < |list| then list[k - 1] else list[0]
  }

  // The search loops

  method StepApertureUp(list: seq<nat>, max: nat, ev: nat) returns (next: nat)
    requires list != []
    ensures next == ApertureUp(list, max, ev)
  {
    next := list[|list| - 1];
    var i := 0;
    while i < |list|
      invariant 0 <= i <= |list| && i <= IndexOf(list, ev)
      invariant next == Last(list)
    {
      if list[i] == ev {
        assert IndexOf(list, ev) == i;
        if i < |list| - 1 { next := list[i + 1]; }
        break;
      }
      i := i + 1;
    }
    if next > max { next := max; }
  }

  method StepApertureDown(list: seq<nat>, min: nat, ev: nat) returns (next: nat)
    requires list != []
    ensures next == ApertureDown(list, min, ev)
  {
    next := list[0];
    var i := 0;
    while i < |list|
      invariant 0 <= i <= |list| && i <= IndexOf(list, ev)
      invariant next == list[0]
    {
      if list[i] == ev {
        assert IndexOf(list, ev) == i;
        if i > 0 { next := list[i - 1]; }
        break;
      }
      i := i + 1;
    }
    if next < min { next := min; }
  }

  method StepIsoUp(list: seq<nat>, limit: nat, ev: nat) returns (next: nat)
    ensures next == IsoUp(list, limit, ev)
  {
    if |list| == 0 { return ev; }
    next := list[|list| - 1];
    var i := 0;
    while i < |list|
      invariant 0 <= i <= |list| && i <= IndexOf(list, ev)
      invariant next == Last(list)
    {
      if list[i] == ev {
        assert IndexOf(list, ev) == i;
        if i < |list| - 1 { next := list[i + 1]; }
        break;
      }
      i := i + 1;
    }
    if next < limit { next := limit; }
  }

  method StepIsoDown(list: seq<nat>, ev: nat) returns (next: nat)
    ensures next == IsoDown(list, ev)
  {
    if |list| == 0 { return ev; }
    var i := 0;
    while i < |list|
      invariant 0 <= i <= |list| && i <= IndexOf(list, ev)
    {
      if list[i] == ev {
        assert IndexOf(list, ev) == i;
        if i > 0 { return list[i - 1]; }
        break;
      }
      i := i + 1;
    }
    next := list[0];
  }

  // What one step means for a value in the list: the neighbouring stop, cut off at the
  // limit, and no stop is passed over

  ghost predicate NoneBetween(list: seq<nat>, low: nat, high: nat) {
    forall k :: 0 <= k < |list| ==> !(low < list[k] < high)
  }

  lemma ApertureUpIsNeighbour(list: seq<nat>, max: nat, ev: nat)
    requires Increasing(list) && ev in list
    ensures var next := ApertureUp(list, max, ev);
            && (next == max || next in list) && next <= max && NoneBetween(list, ev, next)
            && (ev < next <==> ev < max && ev < Last(list))
  {
    var k := IndexOf(list, ev);
    assert list[k] == ev;
  }

  lemma ApertureDownIsNeighbour(list: seq<nat>, min: nat, ev: nat)
    requires Increasing(list) && ev in list
    ensures var next := ApertureDown(list, min, ev);
            && (next == min || next in list) && min <= next && NoneBetween(list, next, ev)
            && (next < ev <==> min < ev && list[0] < ev)
  {
    var k := IndexOf(list, ev);
    assert list[k] == ev;
  }

  lemma IsoUpIsNeighbour(list: seq<nat>, limit: nat, ev: nat)
    requires Decreasing(list) && ev in list
    ensures var next := IsoUp(list, limit, ev);
            && (next == limit || next in list) && limit <= next && NoneBetween(list, next, ev)
            && (next < ev <==> limit < ev && Last(list) < ev)
  {
    var k := IndexOf(list, ev);
    assert list[k] == ev;
  }

  lemma IsoDownIsNeighbour(list: seq<nat>, ev: nat)
    requires Decreasing(list) && ev in list
    ensures var next := IsoDown(list, ev);
            && next in list && NoneBetween(list, ev, next)
            && (ev < next <==> ev < list[0])
  {
    var k := IndexOf(list, ev);
    assert list[k] == ev;
  }

  // What repeated stepping comes to. A value is settled for a stepper when the stepper
  // moves it only in the stepper's own direction; one step settles any value.

  ghost predicate SettledUp(list: seq<nat>, max: nat, ev: nat)
    requires list != []
  {
    ev <= max && (ev in list || ev < Last(list))
  }

  /** Settled for a stepper towards smaller codes whose list has this smallest entry. */
  ghost predicate SettledDown(list: seq<nat>, smallest: nat, min: nat, ev: nat) {
    min <= ev && (ev in list || smallest < ev)
  }

  lemma ApertureUpSteps(list: seq<nat>, max: nat, ev: nat)
    requires list != [] && Increasing(list)
    ensures var next := ApertureUp(list, max, ev);
            && SettledUp(list, max, next)
            && (SettledUp(list, max, ev) ==> ev <= next)
  {
    var k := IndexOf(list, ev);
    if k < |list| { assert list[k] == ev; }
  }

  lemma ApertureDownSteps(list: seq<nat>, min: nat, ev: nat)
    requires list != [] && Increasing(list)
    ensures var next := ApertureDown(list, min, ev);
            && next <= Max(Last(list), min)
            && SettledDown(list, list[0], min, next)
            && (SettledDown(list, list[0], min, ev) ==> next <= ev)
  {
    var k := IndexOf(list, ev);
    if k < |list| { assert list[k] == ev; }
  }

  lemma IsoUpSteps(list: seq<nat>, limit: nat, ev: nat)
    requires list != [] && Decreasing(list)
    ensures var next := IsoUp(list, limit, ev);
            && next <= Max(list[0], limit)
            && SettledDown(list, Last(list), limit, next)
            && (SettledDown(list, Last(list), limit, ev) ==> next <= ev)
  {
    var k := IndexOf(list, ev);
    if k < |list| { assert list[k] == ev; }
  }

  /** Stepping ISO down walks the list towards its front, whatever the list's order. */
  lemma IsoDownSteps(list: seq<nat>, ev: nat)
    ensures var next := IsoDown(list, ev);
            next == ev || IndexOf(list, next) < IndexOf(list, ev)
  {
  }
}
