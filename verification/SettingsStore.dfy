/**
 The settings store itself: RAM and EEPROM updated in place. At all times its slots hold
 a map from serial numbers to settings, and each call does to that map what a caller
 expects of it; a sixth camera takes the place of one of the others.
 */
module SettingsStore {
  import opened Settings
  import opened SettingsTheorems

  class Store {
    var conf: Conf
    var image: Conf
    const slots: array<Camera>
    var index: nat
    ghost var catalogue: Catalogue

    ghost predicate Sized()
      reads this
    {
      slots.Length == MAX_CAMERAS && index <= MAX_CAMERAS
    }

    ghost function State(): Device
      requires Sized()
      reads this, slots
    {
      Device(conf, image, slots[..], index)
    }

    ghost predicate Valid()
      reads this, slots
    {
      Sized() && Refines(State(), catalogue)
    }

    constructor (defaults: Conf, empty: Camera)
      requires empty.serial == "" && defaults.camera.serial == ""
      ensures Valid() && fresh(slots) && catalogue == Catalogue(defaults, defaults, map[], None)
    {
      conf, image, index := defaults, defaults, 0;
      slots := new Camera[MAX_CAMERAS](_ => empty);
      catalogue := Catalogue(defaults, defaults, map[], None);
      new;
      FactoryRefines(State());
    }

    method SettingsSave()
      requires Sized()
      modifies this`conf, this`image, slots
      ensures Sized() && State() == Save(old(State()))
    {
      if conf.camera.make == PANASONIC {
        conf := conf.(camera := conf.camera.(halfPress := HALF_PRESS_DISABLED));
      }
      if index > 0 {
        slots[index - 1] := conf.camera;
        conf := conf.(camera := image.camera);
      }
      conf := conf.(camera := conf.camera.(autoConfigured := false));
      image := conf;
      assert slots[..] == State().slots;
    }

    method SettingsLoad()
      requires Sized()
      modifies this`conf
      ensures Sized() && State() == Load(old(State()))
    {
      conf := image;
      if index > 0 {
        conf := conf.(camera := slots[index - 1]);
      }
      if conf.camera.gap > MAX_GAP || conf.camera.gap == 0 {
        conf := conf.(camera := conf.camera.(gap := DEFAULT_GAP));
      }
    }

    /** Saves the settings in force: the map has them under the connected camera's serial
        number, or as the defaults if there is none, and nothing else in it changes. */
    method SettingsUpdate()
      requires Valid()
      modifies this, slots
      ensures Valid() && catalogue == SpecUpdate(old(catalogue))
    {
      ghost var before := State();
      SettingsSave();
      SettingsLoad();
      UpdateRefines(before, catalogue);
      catalogue := SpecUpdate(catalogue);
    }

    /** The user changes settings; nothing is stored yet. */
    method Change(next: Conf)
      requires Valid()
      modifies this
      ensures Valid() && catalogue == SpecStep(old(catalogue), EditOp(next))
    {
      ghost var before := State();
      conf := next.(camera := next.camera.(serial := conf.camera.serial));
      EditRefines(before, catalogue, next);
      catalogue := SpecStep(catalogue, EditOp(next));
    }

    method SettingsLoadCameraIndex(i: nat)
      requires Sized() && i < MAX_CAMERAS
      modifies this`conf, this`index
      ensures Sized() && State() == Load(old(State()).(index := i + 1))
    {
      index := i + 1;
      SettingsLoad();
    }

    /** The camera is gone: the defaults are in force again, and the map stays. */
    method SettingsLoadCameraDefault()
      requires Valid()
      modifies this
      ensures Valid() && catalogue == SpecStep(old(catalogue), DisconnectOp)
    {
      ghost var before := State();
      index := 0;
      SettingsLoad();
      DisconnectRefines(before, catalogue);
      catalogue := SpecStep(catalogue, DisconnectOp);
    }

    /** The slot search. */
    method FindSlot(serial: string)
      requires Sized()
      modifies this`conf, this`index, slots
      ensures Sized() && State() == Connect(old(State()), serial)
    {
      if |serial| == 0 { return; }
      var lastEmpty := MAX_CAMERAS - 1;
      var i := 0;
      while i < MAX_CAMERAS
        invariant Sized() && State() == old(State())
        invariant i <= MAX_CAMERAS && i <= FindFrom(slots[..], serial, 0)
        invariant lastEmpty == LastEmpty(slots[..], i)
      {
        if Key(slots[i].serial) == Key(serial) {
          assert FindFrom(slots[..], serial, 0) == i;
          SettingsLoadCameraIndex(i);
          return;
        } else if slots[i].serial == "" {
          lastEmpty := i;
        }
        i := i + 1;
      }
      slots[lastEmpty] := image.camera.(serial := Prefix(serial, STORED));
      SettingsLoadCameraIndex(lastEmpty);
    }

    /** A camera reports its serial number. A camera in the map gets its settings back, and
        one that is not is entered with the defaults; if there are five others, one of them
        is dropped from the map for it. */
    method SettingsSetupCameraIndex(serial: string)
      requires Valid()
      modifies this, slots
      ensures Valid() && Connected(old(catalogue), serial, catalogue)
    {
      ghost var before := State();
      FindSlot(serial);
      catalogue := ConnectServed(before, catalogue, serial);
    }
  }
}
