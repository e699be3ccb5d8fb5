/**
 The per-camera store behaves like a map from serial numbers to settings, over every
 sequence of connecting, editing, saving and disconnecting with up to five cameras.
 */
module SettingsTheorems {
  import opened Settings

  datatype Option<T> = None | Some(value: T)

  datatype Op = ConnectOp(serial: string) | EditOp(conf: Conf) | UpdateOp | DisconnectOp

  function Step(d: Device, op: Op): Device
    requires d.Valid()
  {
    match op
    case ConnectOp(serial) => Connect(d, serial)
    case EditOp(conf) => Edit(d, conf)
    case UpdateOp => Update(d)
    case DisconnectOp => Disconnect(d)
  }

  function Run(d: Device, ops: seq<Op>): (r: Device)
    requires d.Valid()
    ensures r.Valid()
    decreases |ops|
  {
    if ops == [] then d else Run(Step(d, ops[0]), ops[1..])
  }

  // The specification: a map

  datatype Catalogue = Catalogue(conf: Conf, image: Conf, saved: map<string, Camera>, current: Option<string>) {
    /** The settings in force: the connected camera's, or the defaults. */
    function Show(): Catalogue
      requires current.Some? ==> current.value in saved
    {
      var camera := if current.Some? then saved[current.value] else image.camera;
      this.(conf := image.(camera := camera.Loaded()))
    }
  }

  predicate Sound(c: Catalogue) { c.current.Some? ==> c.current.value in c.saved }

  function SpecConnect(c: Catalogue, serial: string): (r: Catalogue)
    ensures serial != "" || Sound(c) ==> Sound(r)
  {
    if serial == "" then c
    else
      var key := Key(serial);
      var saved := if key in c.saved then c.saved else c.saved[key := c.image.camera.(serial := Prefix(serial, STORED))];
      c.(saved := saved, current := Some(key)).Show()
  }

  function SpecUpdate(c: Catalogue): (r: Catalogue)
    requires Sound(c)
    ensures Sound(r)
  {
    var camera := c.conf.camera.Saved();
    match c.current
    case Some(key) =>
      c.(saved := c.saved[key := camera], image := c.conf.(camera := c.image.camera.(autoConfigured := false))).Show()
    case None =>
      c.(image := c.conf.(camera := camera.(autoConfigured := false))).Show()
  }

  function SpecStep(c: Catalogue, op: Op): (r: Catalogue)
    requires Sound(c)
    ensures Sound(r)
  {
    match op
    case ConnectOp(serial) => SpecConnect(c, serial)
    case EditOp(conf) => c.(conf := conf.(camera := conf.camera.(serial := c.conf.camera.serial)))
    case UpdateOp => SpecUpdate(c)
    case DisconnectOp => c.(current := None).Show()
  }

  function SpecRun(c: Catalogue, ops: seq<Op>): (r: Catalogue)
    requires Sound(c)
    ensures Sound(r)
    decreases |ops|
  {
    if ops == [] then c else SpecRun(SpecStep(c, ops[0]), ops[1..])
  }

  // The refinement

  /** The slots in use hold exactly the map's entries, each once. */
  ghost predicate Holds(slots: seq<Camera>, saved: map<string, Camera>) {
    && (forall i :: 0 <= i < |slots| && slots[i].serial != "" ==>
          Key(slots[i].serial) in saved && saved[Key(slots[i].serial)] == slots[i])
    && (forall key :: key in saved ==> exists i :: 0 <= i < |slots| && slots[i].serial != "" && Key(slots[i].serial) == key)
    && (forall i, j :: 0 <= i < j < |slots| && slots[i].serial != "" && slots[j].serial != "" ==>
          Key(slots[i].serial) != Key(slots[j].serial))
  }

  ghost predicate Refines(d: Device, c: Catalogue) {
    && d.Valid() && Sound(c)
    && d.conf == c.conf && d.image == c.image
    && Holds(d.slots, c.saved)
    && d.image.camera.serial == ""
    && (d.index == 0 <==> c.current == None)
    && (d.index == 0 ==> d.conf.camera.serial == "")
    && (d.index > 0 ==>
          var slot := d.slots[d.index - 1];
          slot.serial != "" && d.conf.camera.serial == slot.serial && c.current == Some(Key(slot.serial)))
  }

  /** The character at a place of a C string. */
  function CharAt(s: string, i: nat): char { if i < |s| then s[i] else '\0' }

  /** A string has no character zero but its end. */
  predicate Text(s: string) { forall i :: 0 <= i < |s| ==> s[i] != '\0' }

  predicate SameStart(a: string, b: string) { forall i :: 0 <= i < 21 ==> CharAt(a, i) == CharAt(b, i) }

  lemma NotLonger(a: string, b: string)
    requires Text(a) && Text(b) && SameStart(a, b)
    ensures |Key(a)| <= |Key(b)|
  {
    var n := |Key(b)|;
    if n < 21 { assert CharAt(a, n) == CharAt(b, n) == '\0'; }
  }

  lemma SamePrefix(a: string, b: string)
    requires Text(a) && Text(b) && SameStart(a, b)
    ensures Key(a) == Key(b)
  {
    NotLonger(a, b);
    NotLonger(b, a);
    forall i | 0 <= i < |Key(a)| ensures Key(a)[i] == Key(b)[i] { assert CharAt(a, i) == CharAt(b, i); }
  }

  /** Two serial numbers are the same camera exactly when their first 21 characters are. */
  lemma SameCameraExactly(a: string, b: string)
    requires Text(a) && Text(b)
    ensures Key(a) == Key(b) <==> SameStart(a, b)
  {
    if SameStart(a, b) { SamePrefix(a, b); }
    if Key(a) == Key(b) {
      forall i | 0 <= i < 21 ensures CharAt(a, i) == CharAt(b, i) {
        assert CharAt(Key(a), i) == CharAt(a, i) && CharAt(Key(b), i) == CharAt(b, i);
      }
    }
  }

  lemma KeyOfStored(serial: string)
    ensures Key(Prefix(serial, STORED)) == Key(serial)
    ensures serial != "" ==> Key(serial) != "" && Prefix(serial, STORED) != ""
  {
  }

  lemma {:induction false} LastEmptyIsEmpty(slots: seq<Camera>, n: nat)
    requires n <= |slots| == MAX_CAMERAS
    ensures slots[LastEmpty(slots, n)].serial == "" || forall i :: 0 <= i < n ==> slots[i].serial != ""
  {
    if n > 0 && slots[n - 1].serial != "" { LastEmptyIsEmpty(slots, n - 1); }
  }

  /** Distinct members of a set are no more than the set has. */
  lemma {:induction false} DistinctMembers(keys: seq<string>, s: set<string>)
    requires forall i :: 0 <= i < |keys| ==> keys[i] in s
    requires forall i, j :: 0 <= i < j < |keys| ==> keys[i] != keys[j]
    ensures |keys| <= |s|
  {
    if keys != [] {
      var n := |keys| - 1;
      DistinctMembers(keys[..n], s - {keys[n]});
    }
  }

  /** Slots all in use hold five keys. */
  lemma FullMeansFive(slots: seq<Camera>, saved: map<string, Camera>)
    requires |slots| == MAX_CAMERAS && Holds(slots, saved)
    requires forall i :: 0 <= i < MAX_CAMERAS ==> slots[i].serial != ""
    ensures |saved.Keys| >= MAX_CAMERAS
  {
    var keys := seq(MAX_CAMERAS, i requires 0 <= i < MAX_CAMERAS => Key(slots[i].serial));
    DistinctMembers(keys, saved.Keys);
  }

  /** With fewer than five cameras there is an empty slot for one more. */
  lemma RoomForOne(slots: seq<Camera>, saved: map<string, Camera>)
    requires |slots| == MAX_CAMERAS && Holds(slots, saved) && |saved| < MAX_CAMERAS
    ensures slots[LastEmpty(slots, MAX_CAMERAS)].serial == ""
  {
    LastEmptyIsEmpty(slots, MAX_CAMERAS);
    assert |saved| == |saved.Keys|;
    if forall i :: 0 <= i < MAX_CAMERAS ==> slots[i].serial != "" { FullMeansFive(slots, saved); }
  }

  lemma {:induction false} SubsetSize(s: set<string>, t: set<string>)
    requires s <= t
    ensures |s| <= |t|
  {
    if s != {} {
      var x :| x in s;
      SubsetSize(s - {x}, t - {x});
    }
  }

  /** Setting up an empty slot for a new key. */
  lemma HoldsNewcomer(slots: seq<Camera>, saved: map<string, Camera>, e: nat, camera: Camera)
    requires Holds(slots, saved) && e < |slots| && slots[e].serial == ""
    requires camera.serial != "" && Key(camera.serial) !in saved
    ensures Holds(slots[e := camera], saved[Key(camera.serial) := camera])
  {
    var s, m := slots[e := camera], saved[Key(camera.serial) := camera];
    forall key | key in m ensures exists i :: 0 <= i < |s| && s[i].serial != "" && Key(s[i].serial) == key {
      if key == Key(camera.serial) {
        assert s[e].serial != "" && Key(s[e].serial) == key;
      } else {
        var i :| 0 <= i < |slots| && slots[i].serial != "" && Key(slots[i].serial) == key;
        assert s[i] == slots[i];
      }
    }
  }

  /** Saving over a slot in use, its serial number unchanged. */
  lemma HoldsSaved(slots: seq<Camera>, saved: map<string, Camera>, k: nat, camera: Camera)
    requires Holds(slots, saved) && k < |slots| && slots[k].serial == camera.serial != ""
    ensures Holds(slots[k := camera], saved[Key(camera.serial) := camera])
  {
    var s, m := slots[k := camera], saved[Key(camera.serial) := camera];
    forall key | key in m ensures exists i :: 0 <= i < |s| && s[i].serial != "" && Key(s[i].serial) == key {
      if key == Key(camera.serial) {
        assert s[k].serial != "" && Key(s[k].serial) == key;
      } else {
        var i :| 0 <= i < |slots| && slots[i].serial != "" && Key(slots[i].serial) == key;
        assert s[i] == slots[i];
      }
    }
  }

  lemma FoundExactly(slots: seq<Camera>, saved: map<string, Camera>, serial: string)
    requires Holds(slots, saved) && serial != ""
    ensures FindFrom(slots, serial, 0) < |slots| <==> Key(serial) in saved
    ensures FindFrom(slots, serial, 0) < |slots| ==> slots[FindFrom(slots, serial, 0)].serial != ""
  {
    KeyOfStored(serial);
  }

  lemma KnownRefines(d: Device, c: Catalogue, serial: string)
    requires Refines(d, c) && serial != "" && Key(serial) in c.saved
    ensures Refines(Connect(d, serial), SpecConnect(c, serial))
  {
    FoundExactly(d.slots, c.saved, serial);
  }

  /** The settings a newcomer is entered with. */
  function Newcomer(image: Conf, serial: string): Camera { image.camera.(serial := Prefix(serial, STORED)) }

  /** A newcomer's slot is set up, with the map less whatever the slot held before. */
  lemma SetUpRefines(d: Device, c: Catalogue, serial: string, e: nat)
    requires d.Valid() && d.image == c.image && d.image.camera.serial == ""
    requires serial != "" && Key(serial) !in c.saved && e < MAX_CAMERAS
    requires var n := Newcomer(d.image, serial); Holds(d.slots[e := n], c.saved[Key(n.serial) := n])
    ensures var n := Newcomer(d.image, serial);
            Refines(Load(d.(slots := d.slots[e := n], index := e + 1)), SpecConnect(c, serial))
  {
    KeyOfStored(serial);
  }

  lemma NewcomerRefines(d: Device, c: Catalogue, serial: string)
    requires Refines(d, c) && serial != "" && Key(serial) !in c.saved && |c.saved| < MAX_CAMERAS
    ensures Refines(Connect(d, serial), SpecConnect(c, serial))
  {
    KeyOfStored(serial);
    FoundExactly(d.slots, c.saved, serial);
    RoomForOne(d.slots, c.saved);
    var e := LastEmpty(d.slots, MAX_CAMERAS);
    HoldsNewcomer(d.slots, c.saved, e, Newcomer(d.image, serial));
    SetUpRefines(d, c, serial, e);
  }

  /** The camera needs no one else's slot. */
  predicate Fits(c: Catalogue, serial: string) {
    serial == "" || Key(serial) in c.saved || |c.saved| < MAX_CAMERAS
  }

  lemma ConnectRefines(d: Device, c: Catalogue, serial: string)
    requires Refines(d, c) && Fits(c, serial)
    ensures Refines(Connect(d, serial), SpecConnect(c, serial))
  {
    if serial != "" {
      if Key(serial) in c.saved { KnownRefines(d, c, serial); } else { NewcomerRefines(d, c, serial); }
    }
  }

  // Beyond five cameras

  /** The map without one camera's entry. */
  function Without(c: Catalogue, key: string): Catalogue { c.(saved := c.saved - {key}) }

  /** Emptying a slot drops its entry. */
  lemma HoldsDropped(slots: seq<Camera>, saved: map<string, Camera>, e: nat, empty: Camera)
    requires Holds(slots, saved) && e < |slots| && slots[e].serial != "" && empty.serial == ""
    ensures Holds(slots[e := empty], saved - {Key(slots[e].serial)})
  {
    var s, m := slots[e := empty], saved - {Key(slots[e].serial)};
    forall key | key in m ensures exists i :: 0 <= i < |s| && s[i].serial != "" && Key(s[i].serial) == key {
      var i :| 0 <= i < |slots| && slots[i].serial != "" && Key(slots[i].serial) == key;
      assert s[i] == slots[i];
    }
  }

  /** Setting up a slot in use for a new key drops the old one. */
  lemma HoldsReplaced(slots: seq<Camera>, saved: map<string, Camera>, e: nat, camera: Camera)
    requires Holds(slots, saved) && e < |slots| && slots[e].serial != ""
    requires camera.serial != "" && Key(camera.serial) !in saved
    ensures Holds(slots[e := camera], (saved - {Key(slots[e].serial)})[Key(camera.serial) := camera])
  {
    var empty := camera.(serial := "");
    HoldsDropped(slots, saved, e, empty);
    HoldsNewcomer(slots[e := empty], saved - {Key(slots[e].serial)}, e, camera);
    assert slots[e := empty][e := camera] == slots[e := camera];
  }

  /** The entry a newcomer drops from a full map is that of the last slot; otherwise it is
      entered like any other. */
  lemma EvictionRefines(d: Device, c: Catalogue, serial: string) returns (victim: string)
    requires Refines(d, c) && !Fits(c, serial)
    ensures victim in c.saved && victim == Key(d.slots[MAX_CAMERAS - 1].serial)
    ensures Refines(Connect(d, serial), SpecConnect(Without(c, victim), serial))
  {
    KeyOfStored(serial);
    FoundExactly(d.slots, c.saved, serial);
    NoneEmpty(d.slots, c.saved);
    victim := Key(d.slots[MAX_CAMERAS - 1].serial);
    LastEmptyOfFull(d.slots, MAX_CAMERAS);
    HoldsReplaced(d.slots, c.saved, MAX_CAMERAS - 1, Newcomer(d.image, serial));
    SetUpRefines(d, Without(c, victim), serial, MAX_CAMERAS - 1);
  }

  lemma {:induction false} LastEmptyOfFull(slots: seq<Camera>, n: nat)
    requires n <= |slots| == MAX_CAMERAS && forall i :: 0 <= i < MAX_CAMERAS ==> slots[i].serial != ""
    ensures LastEmpty(slots, n) == MAX_CAMERAS - 1
  {
    if n > 0 { LastEmptyOfFull(slots, n - 1); }
  }

  /** Five entries leave no slot empty. */
  lemma NoneEmpty(slots: seq<Camera>, saved: map<string, Camera>)
    requires |slots| == MAX_CAMERAS && Holds(slots, saved) && |saved| >= MAX_CAMERAS
    ensures forall i :: 0 <= i < MAX_CAMERAS ==> slots[i].serial != ""
  {
    if e :| 0 <= e < MAX_CAMERAS && slots[e].serial == "" {
      KeysOfOthers(slots, saved, e);
    }
  }

  /** With a slot empty, the keys are among those of the other four. */
  lemma KeysOfOthers(slots: seq<Camera>, saved: map<string, Camera>, e: nat)
    requires |slots| == MAX_CAMERAS && Holds(slots, saved) && e < MAX_CAMERAS && slots[e].serial == ""
    ensures |saved| < MAX_CAMERAS
  {
    var others := Others(slots, e);
    forall key | key in saved ensures key in KeySet(others, |others|) {
      KeyOfOther(slots, saved, e, key);
      var j :| 0 <= j < |others| && Key(others[j].serial) == key;
      KeyIsIn(others, |others|, j);
    }
    KeySetSize(others, |others|);
    SubsetSize(saved.Keys, KeySet(others, |others|));
    assert |saved| == |saved.Keys|;
  }

  function Others(slots: seq<Camera>, e: nat): (r: seq<Camera>)
    requires e < |slots|
    ensures |r| == |slots| - 1
    ensures forall i :: 0 <= i < |slots| && i != e ==> r[if i < e then i else i - 1] == slots[i]
  {
    slots[..e] + slots[e + 1..]
  }

  lemma KeyOfOther(slots: seq<Camera>, saved: map<string, Camera>, e: nat, key: string)
    requires Holds(slots, saved) && e < |slots| && slots[e].serial == "" && key in saved
    ensures exists j :: 0 <= j < |slots| - 1 && Key(Others(slots, e)[j].serial) == key
  {
    var i :| 0 <= i < |slots| && slots[i].serial != "" && Key(slots[i].serial) == key;
    assert Others(slots, e)[if i < e then i else i - 1] == slots[i];
  }

  /** The keys of the first n cameras. */
  ghost function KeySet(cameras: seq<Camera>, n: nat): set<string>
    requires n <= |cameras|
  {
    if n == 0 then {} else KeySet(cameras, n - 1) + {Key(cameras[n - 1].serial)}
  }

  lemma {:induction false} KeyIsIn(cameras: seq<Camera>, n: nat, i: nat)
    requires i < n <= |cameras|
    ensures Key(cameras[i].serial) in KeySet(cameras, n)
  {
    if i < n - 1 { KeyIsIn(cameras, n - 1, i); }
  }

  lemma {:induction false} KeySetSize(cameras: seq<Camera>, n: nat)
    requires n <= |cameras|
    ensures |KeySet(cameras, n)| <= n
  {
    if n > 0 { KeySetSize(cameras, n - 1); }
  }

  /** What connecting a camera does to the map: it is found or entered, and if it is new and
      there are five others, one of them is dropped for it. */
  ghost predicate Connected(c: Catalogue, serial: string, next: Catalogue) {
    if Fits(c, serial) then next == SpecConnect(c, serial)
    else exists victim :: victim in c.saved && next == SpecConnect(Without(c, victim), serial)
  }

  lemma ConnectServed(d: Device, c: Catalogue, serial: string) returns (next: Catalogue)
    requires Refines(d, c)
    ensures Refines(Connect(d, serial), next) && Connected(c, serial, next)
  {
    if Fits(c, serial) {
      next := SpecConnect(c, serial);
      ConnectRefines(d, c, serial);
    } else {
      var victim := EvictionRefines(d, c, serial);
      next := SpecConnect(Without(c, victim), serial);
    }
  }

  lemma UpdateRefines(d: Device, c: Catalogue)
    requires Refines(d, c)
    ensures Refines(Update(d), SpecUpdate(c))
  {
    if d.index > 0 { HoldsSaved(d.slots, c.saved, d.index - 1, d.conf.camera.Saved()); }
  }

  lemma EditRefines(d: Device, c: Catalogue, conf: Conf)
    requires Refines(d, c)
    ensures Refines(Edit(d, conf), SpecStep(c, EditOp(conf)))
  {
  }

  lemma DisconnectRefines(d: Device, c: Catalogue)
    requires Refines(d, c)
    ensures Refines(Disconnect(d), SpecStep(c, DisconnectOp))
  {
  }

  /** The keys of all cameras that take part in a run. */
  function KeysUsed(ops: seq<Op>): set<string>
    decreases |ops|
  {
    if ops == [] then {}
    else KeysUsed(ops[1..]) + KeysOf(ops[0])
  }

  /** The keys an operation can add to the map. */
  function KeysOf(op: Op): set<string> {
    if op.ConnectOp? && op.serial != "" then {Key(op.serial)} else {}
  }

  lemma StepRefines(d: Device, c: Catalogue, op: Op)
    requires Refines(d, c) && |c.saved.Keys + KeysOf(op)| <= MAX_CAMERAS
    ensures Refines(Step(d, op), SpecStep(c, op))
  {
    match op
    case ConnectOp(serial) =>
      OneMore(c.saved.Keys, Key(serial));
      ConnectRefines(d, c, serial);
    case UpdateOp => UpdateRefines(d, c);
    case EditOp(conf) => EditRefines(d, c, conf);
    case DisconnectOp => DisconnectRefines(d, c);
  }

  lemma OneMore(keys: set<string>, key: string)
    ensures key in keys || |keys + {key}| == |keys| + 1
  {
  }

  lemma StepKeys(c: Catalogue, op: Op)
    requires Sound(c)
    ensures SpecStep(c, op).saved.Keys <= c.saved.Keys + KeysOf(op)
  {
  }

  /** Refinement over whole runs: as long as no more than five cameras take part, the
      five slots are indistinguishable from the map. */
  lemma {:induction false} RunRefines(d: Device, c: Catalogue, ops: seq<Op>)
    requires Refines(d, c) && |c.saved.Keys + KeysUsed(ops)| <= MAX_CAMERAS
    ensures Refines(Run(d, ops), SpecRun(c, ops))
    decreases |ops|
  {
    if ops != [] {
      var op, rest, all := ops[0], ops[1..], c.saved.Keys + KeysUsed(ops);
      SubsetSize(c.saved.Keys + KeysOf(op), all);
      StepRefines(d, c, op);
      StepKeys(c, op);
      SubsetSize(SpecStep(c, op).saved.Keys + KeysUsed(rest), all);
      RunRefines(Step(d, op), SpecStep(c, op), rest);
    }
  }

  /** What an operation does to the map, however many cameras there are. */
  ghost predicate Next(c: Catalogue, op: Op, next: Catalogue) {
    Sound(c) && if op.ConnectOp? then Connected(c, op.serial, next) else next == SpecStep(c, op)
  }

  lemma StepServed(d: Device, c: Catalogue, op: Op) returns (next: Catalogue)
    requires Refines(d, c)
    ensures Refines(Step(d, op), next) && Next(c, op, next)
  {
    if op.ConnectOp? {
      next := ConnectServed(d, c, op.serial);
    } else {
      next := SpecStep(c, op);
      match op
      case UpdateOp => UpdateRefines(d, c);
      case EditOp(conf) => EditRefines(d, c, conf);
      case DisconnectOp => DisconnectRefines(d, c);
    }
  }

  /** Over every sequence of operations with any number of cameras, the slots hold a map that
      changes as operations on a map do, but for the camera dropped when a sixth comes. */
  lemma {:induction false} AnyRunServed(d: Device, c: Catalogue, ops: seq<Op>) returns (maps: seq<Catalogue>)
    requires Refines(d, c)
    ensures |maps| == |ops| + 1 && maps[0] == c && Refines(Run(d, ops), maps[|ops|])
    ensures forall k :: 0 <= k < |ops| ==> Next(maps[k], ops[k], maps[k + 1])
    decreases |ops|
  {
    if ops == [] {
      maps := [c];
    } else {
      var next := StepServed(d, c, ops[0]);
      var rest := AnyRunServed(Step(d, ops[0]), next, ops[1..]);
      maps := [c] + rest;
      ChainGrows(c, ops, rest);
    }
  }

  lemma ChainGrows(c: Catalogue, ops: seq<Op>, rest: seq<Catalogue>)
    requires ops != [] && |rest| == |ops| && Next(c, ops[0], rest[0])
    requires forall k :: 0 <= k < |ops| - 1 ==> Next(rest[k], ops[1..][k], rest[k + 1])
    ensures forall k :: 0 <= k < |ops| ==> Next(([c] + rest)[k], ops[k], ([c] + rest)[k + 1])
  {
    forall k | 0 <= k < |ops| ensures Next(([c] + rest)[k], ops[k], ([c] + rest)[k + 1]) {
      if k > 0 { assert Next(rest[k - 1], ops[1..][k - 1], rest[k]); }
    }
  }

  /** A device as set up at the factory holds the empty map. */
  lemma FactoryRefines(d: Device)
    requires d.Valid() && d.index == 0 && forall i :: 0 <= i < MAX_CAMERAS ==> d.slots[i].serial == ""
    requires d.conf.camera.serial == "" && d.image.camera.serial == ""
    ensures Refines(d, Catalogue(d.conf, d.image, map[], None))
  {
  }

  // Reconnecting

  /** Nothing is saved while the camera with this key is the connected one. */
  predicate NotSavedAs(c: Catalogue, ops: seq<Op>, key: string)
    requires Sound(c)
    decreases |ops|
  {
    ops == [] || ((ops[0].UpdateOp? ==> c.current != Some(key)) && NotSavedAs(SpecStep(c, ops[0]), ops[1..], key))
  }

  lemma {:induction false} EntryStays(c: Catalogue, ops: seq<Op>, key: string)
    requires Sound(c) && key in c.saved && NotSavedAs(c, ops, key)
    ensures key in SpecRun(c, ops).saved && SpecRun(c, ops).saved[key] == c.saved[key]
    decreases |ops|
  {
    if ops != [] { EntryStays(SpecStep(c, ops[0]), ops[1..], key); }
  }

  /** Reconnecting a camera brings back what was last saved for it: whatever happens in
      between, with up to five cameras, short of saving again while it is connected. */
  lemma ReconnectRestores(d: Device, c: Catalogue, between: seq<Op>, serial: string)
    requires Refines(d, c) && c.current == Some(Key(serial)) && serial != ""
    requires |c.saved.Keys + KeysUsed(between)| <= MAX_CAMERAS
    requires NotSavedAs(SpecUpdate(c), between, Key(serial))
    ensures Connect(Run(Update(d), between), serial).conf.camera == d.conf.camera.Saved().Loaded()
  {
    UpdateRefines(d, c);
    UpdateSaves(d, c, Key(serial));
    EntryReturns(Update(d), SpecUpdate(c), between, serial);
  }

  /** Field by field: reconnecting brings back everything, but that the half press of make 6 is
      off and a gap of zero or beyond 20 is 6. */
  lemma ReconnectedFields(d: Device, c: Catalogue, between: seq<Op>, serial: string)
    requires Refines(d, c) && c.current == Some(Key(serial)) && serial != ""
    requires |c.saved.Keys + KeysUsed(between)| <= MAX_CAMERAS
    requires NotSavedAs(SpecUpdate(c), between, Key(serial))
    ensures var was, now := d.conf.camera, Connect(Run(Update(d), between), serial).conf.camera;
            && now.serial == was.serial && now.make == was.make && now.rest == was.rest
            && now.autoConfigured == was.autoConfigured
            && now.halfPress == (if was.make == 6 then 1 else was.halfPress)
            && now.gap == if was.gap == 0 || was.gap > 20 then 6 else was.gap
  {
    ReconnectRestores(d, c, between, serial);
  }

  lemma UpdateSaves(d: Device, c: Catalogue, key: string)
    requires Refines(d, c) && c.current == Some(key)
    ensures SpecUpdate(c).saved == c.saved[key := d.conf.camera.Saved()]
    ensures SpecUpdate(c).saved.Keys == c.saved.Keys
  {
  }

  lemma EntryReturns(d: Device, c: Catalogue, between: seq<Op>, serial: string)
    requires Refines(d, c) && serial != "" && Key(serial) in c.saved
    requires |c.saved.Keys + KeysUsed(between)| <= MAX_CAMERAS
    requires NotSavedAs(c, between, Key(serial))
    ensures Connect(Run(d, between), serial).conf.camera == c.saved[Key(serial)].Loaded()
  {
    RunRefines(d, c, between);
    EntryStays(c, between, Key(serial));
    ConnectShows(Run(d, between), SpecRun(c, between), serial);
  }

  /** Connecting a camera the map knows shows its entry. */
  lemma ConnectShows(d: Device, c: Catalogue, serial: string)
    requires Refines(d, c) && serial != "" && Key(serial) in c.saved
    ensures Connect(d, serial).conf.camera == c.saved[Key(serial)].Loaded()
  {
    FoundExactly(d.slots, c.saved, serial);
  }

  /** A camera never seen before starts from the defaults. */
  lemma NewcomerGetsDefaults(d: Device, c: Catalogue, serial: string)
    requires Refines(d, c) && serial != "" && Key(serial) !in c.saved
    ensures Connect(d, serial).conf.camera == d.image.camera.(serial := Prefix(serial, STORED)).Loaded()
  {
    FoundExactly(d.slots, c.saved, serial);
  }

  /** Field by field, with the first 22 characters of its serial number. */
  lemma NewcomerFields(d: Device, c: Catalogue, serial: string)
    requires Refines(d, c) && serial != "" && Key(serial) !in c.saved
    ensures var was, now := d.image.camera, Connect(d, serial).conf.camera;
            && now.serial == (if |serial| <= 22 then serial else serial[..22])
            && now.make == was.make && now.rest == was.rest && now.halfPress == was.halfPress
            && now.autoConfigured == was.autoConfigured
            && now.gap == if was.gap == 0 || was.gap > 20 then 6 else was.gap
  {
    NewcomerGetsDefaults(d, c, serial);
  }

  /** Of several empty slots the last one is taken, and without one the last slot. */
  lemma {:induction false} LastEmptyExactly(slots: seq<Camera>, n: nat)
    requires n <= |slots| == MAX_CAMERAS
    ensures var k := LastEmpty(slots, n);
            if exists i :: 0 <= i < n && slots[i].serial == ""
            then k < n && slots[k].serial == "" && forall i :: k < i < n ==> slots[i].serial != ""
            else k == MAX_CAMERAS - 1
  {
    if n > 0 && slots[n - 1].serial != "" { LastEmptyExactly(slots, n - 1); }
  }

  /** The general settings: saving keeps them in RAM and image, whatever is connected, and
      connecting and disconnecting bring back the saved ones. */
  lemma GeneralSettings(d: Device, serial: string)
    requires d.Valid()
    ensures Update(d).conf.general == Update(d).image.general == d.conf.general
    ensures Disconnect(d).conf.general == Disconnect(d).image.general == d.image.general
    ensures serial != "" ==> Connect(d, serial).conf.general == Connect(d, serial).image.general == d.image.general
  {
  }

  /** Without a camera, saving makes the settings in force the defaults, but for the two rules
      and the mark of automatic configuration; with one, the defaults keep all but that mark. */
  lemma DefaultsSaved(d: Device)
    requires d.Valid()
    ensures var was, now := if d.index == 0 then d.conf.camera else d.image.camera, Update(d).image.camera;
            && now.serial == was.serial && now.make == was.make && now.rest == was.rest && now.gap == was.gap
            && !now.autoConfigured
            && now.halfPress == if d.index == 0 && was.make == 6 then 1 else was.halfPress
  {
  }

  /** Saving touches the connected camera's slot only. */
  lemma SavingTouchesOneSlot(d: Device, i: nat)
    requires d.Valid() && i < MAX_CAMERAS && i + 1 != d.index
    ensures Update(d).slots[i] == d.slots[i]
  {
  }

  /** A sixth camera is where it ends: a newcomer leaves every stored camera alone exactly
      when a slot is empty; otherwise it takes the last slot. */
  lemma NewcomerEvictsExactly(d: Device, c: Catalogue, serial: string)
    requires Refines(d, c) && serial != "" && Key(serial) !in c.saved
    ensures (forall i :: 0 <= i < MAX_CAMERAS && d.slots[i].serial != "" ==> Connect(d, serial).slots[i] == d.slots[i])
            <==> (exists i :: 0 <= i < MAX_CAMERAS && d.slots[i].serial == "")
  {
    FoundExactly(d.slots, c.saved, serial);
    KeyOfStored(serial);
    LastEmptyIsEmpty(d.slots, MAX_CAMERAS);
    var e := LastEmpty(d.slots, MAX_CAMERAS);
    assert Connect(d, serial).slots == d.slots[e := d.image.camera.(serial := Prefix(serial, STORED))];
    assert d.slots[e].serial != "" ==> Connect(d, serial).slots[e] != d.slots[e];
  }
}
