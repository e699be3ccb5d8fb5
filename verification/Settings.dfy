/**
 The settings store: the working copy in RAM, its image in EEPROM and five EEPROM slots
 for the settings of individual cameras, found by serial number.
 */
module Settings {

  const MAX_CAMERAS: nat := 5
  const PANASONIC: nat := 6
  const HALF_PRESS_DISABLED: nat := 1
  const DEFAULT_GAP: nat := 6
  const MAX_GAP: nat := 20
  const COMPARED: nat := 21
  const STORED: nat := 22

  /** A camera's settings; `rest` stands for the fields nothing here looks at. */
  datatype Camera = Camera(serial: string, make: nat, halfPress: nat, gap: nat, autoConfigured: bool, rest: seq<nat>) {
    /** What saving does to the settings in RAM. */
    function Saved(): Camera {
      if make == PANASONIC then this.(halfPress := HALF_PRESS_DISABLED) else this
    }

    /** What loading does to them. */
    function Loaded(): Camera {
      if gap > MAX_GAP || gap == 0 then this.(gap := DEFAULT_GAP) else this
    }
  }

  /** All settings: the current camera's and the general ones. */
  datatype Conf = Conf(camera: Camera, general: seq<nat>)

  function Prefix(s: string, n: nat): string { if |s| <= n then s else s[..n] }

  /** The part of a serial number that is compared. */
  function Key(serial: string): string { Prefix(serial, COMPARED) }

  /** The device: RAM, EEPROM image, slots and the number of the slot in use, zero for none. */
  datatype Device = Device(conf: Conf, image: Conf, slots: seq<Camera>, index: nat) {
    predicate Valid() { |slots| == MAX_CAMERAS && index <= MAX_CAMERAS }
  }

  // The operations as functions

  function Save(d: Device): Device
    requires d.Valid()
  {
    var camera := d.conf.camera.Saved();
    if d.index > 0 then
      var conf := d.conf.(camera := d.image.camera.(autoConfigured := false));
      d.(slots := d.slots[d.index - 1 := camera], conf := conf, image := conf)
    else
      var conf := d.conf.(camera := camera.(autoConfigured := false));
      d.(conf := conf, image := conf)
  }

  function Load(d: Device): Device
    requires d.Valid()
  {
    var camera := if d.index > 0 then d.slots[d.index - 1] else d.image.camera;
    d.(conf := d.image.(camera := camera.Loaded()))
  }

  function Update(d: Device): Device
    requires d.Valid()
  {
    Load(Save(d))
  }

  /** The slot that holds the serial's settings, from slot i on; the number of slots if
      there is none. */
  function FindFrom(slots: seq<Camera>, serial: string, i: nat): (k: nat)
    requires i <= |slots|
    ensures i <= k <= |slots|
    ensures k < |slots| ==> Key(slots[k].serial) == Key(serial)
    ensures forall j :: i <= j < k ==> Key(slots[j].serial) != Key(serial)
    decreases |slots| - i
  {
    if i == |slots| || Key(slots[i].serial) == Key(serial) then i else FindFrom(slots, serial, i + 1)
  }

  /** The last empty slot below n; the last slot of all if there is none. */
  function LastEmpty(slots: seq<Camera>, n: nat): (k: nat)
    requires n <= |slots| == MAX_CAMERAS
    ensures k < MAX_CAMERAS
  {
    if n == 0 then MAX_CAMERAS - 1
    else if slots[n - 1].serial == "" then n - 1
    else LastEmpty(slots, n - 1)
  }

  /** A camera is connected: its slot is loaded, after being set up from the defaults if
      the camera is new. */
  function Connect(d: Device, serial: string): Device
    requires d.Valid()
  {
    if serial == "" then d
    else
      var k := FindFrom(d.slots, serial, 0);
      if k < MAX_CAMERAS then Load(d.(index := k + 1))
      else
        var e := LastEmpty(d.slots, MAX_CAMERAS);
        var newcomer := d.image.camera.(serial := Prefix(serial, STORED));
        Load(d.(slots := d.slots[e := newcomer], index := e + 1))
  }

  function Disconnect(d: Device): Device
    requires d.Valid()
  {
    Load(d.(index := 0))
  }

  /** The user changes settings in RAM; the serial number is not theirs to change. */
  function Edit(d: Device, conf: Conf): Device {
    d.(conf := conf.(camera := conf.camera.(serial := d.conf.camera.serial)))
  }
}
