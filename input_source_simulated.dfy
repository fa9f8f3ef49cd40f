/** `InputSourceSimulated`: an input source holding four lists of simulated
    devices (game pads, mice, keyboards, pointers). Adding a device creates
    it, appends it to its list and registers it with the input source;
    removing one unregisters it and takes it out of its list. The
    registration table of `InputSourceBase` is modelled as the set of
    registered devices. The four `AddX`/`RemoveX`/`RemoveAllX` methods of the
    source are the same code per device kind, modelled once with the kind as
    a parameter. */
module InputSourcesSimulated {
  import opened Wrappers
  import opened Sequences

  datatype DeviceKind = GamePad | Mouse | Keyboard | Pointer

  datatype DeviceError = DeviceNotFound   // InvalidOperationException

  /** A `GamePadSimulated`, `MouseSimulated`, `KeyboardSimulated` or
      `PointerSimulated`. */
  class SimulatedDevice {
    const kind: DeviceKind

    constructor (kind: DeviceKind)
      ensures this.kind == kind
    {
      this.kind := kind;
    }
  }

  /** No device occurs twice. */
  ghost predicate Distinct(s: seq<SimulatedDevice>) {
    forall i, j :: 0 <= i < j < |s| ==> s[i] != s[j]
  }

  /** `List.Remove`: the first occurrence of `x` taken out. */
  function RemoveFirst(s: seq<SimulatedDevice>, x: SimulatedDevice): (r: seq<SimulatedDevice>)
    requires x in s
    ensures |r| == |s| - 1
  {
    var i := IndexIn(s, x);
    s[..i] + s[i + 1..]
  }

  /** Removing from a list without repetitions removes exactly that device
      and keeps the others, still without repetitions. */
  lemma RemoveFirstOfDistinct(s: seq<SimulatedDevice>, x: SimulatedDevice)
    requires x in s && Distinct(s)
    ensures Distinct(RemoveFirst(s, x))
    ensures forall y :: y in RemoveFirst(s, x) <==> y in s && y != x
  {
    var r := RemoveFirst(s, x);
    var i := IndexIn(s, x);
    assert forall k :: 0 <= k < |r| ==> r[k] == if k < i then s[k] else s[k + 1];
    forall y | y in s && y != x
      ensures y in r
    {
      var k :| 0 <= k < |s| && s[k] == y;
      if k < i {
        assert r[k] == y;
      } else {
        assert r[k - 1] == y;
      }
    }
  }

  /** A list holds devices of its own kind, each once, all registered. */
  ghost predicate ListValid(s: seq<SimulatedDevice>, kind: DeviceKind, registered: set<SimulatedDevice>) {
    && Distinct(s)
    && (forall i :: 0 <= i < |s| ==> s[i].kind == kind && s[i] in registered)
  }

  /** Unregistering devices of another kind keeps a list valid. */
  lemma UnregisterOtherKind(s: seq<SimulatedDevice>, kind: DeviceKind, registered: set<SimulatedDevice>, gone: set<SimulatedDevice>, goneKind: DeviceKind)
    requires ListValid(s, kind, registered) && kind != goneKind
    requires forall d :: d in gone ==> d.kind == goneKind
    ensures ListValid(s, kind, registered - gone)
  {
    forall i | 0 <= i < |s|
      ensures s[i] !in gone
    {
      assert s[i].kind == kind;
    }
  }

  /** The devices of a list, as a set. */
  function Members(s: seq<SimulatedDevice>): (r: set<SimulatedDevice>)
    ensures forall i :: 0 <= i < |s| ==> s[i] in r
  {
    set i | 0 <= i < |s| :: s[i]
  }

  lemma MembersAreListed(s: seq<SimulatedDevice>, d: SimulatedDevice)
    ensures d in Members(s) <==> d in s
  {
  }

  class InputSourceSimulated {
    var gamePads: seq<SimulatedDevice>
    var mice: seq<SimulatedDevice>
    var keyboards: seq<SimulatedDevice>
    var pointers: seq<SimulatedDevice>
    /** The devices registered with the input source. */
    var registered: set<SimulatedDevice>

    /** The list that holds devices of `kind`. */
    function Devices(kind: DeviceKind): seq<SimulatedDevice>
      reads this`gamePads, this`mice, this`keyboards, this`pointers
    {
      match kind
      case GamePad => gamePads
      case Mouse => mice
      case Keyboard => keyboards
      case Pointer => pointers
    }

    /** Every list holds devices of its own kind, each once, and every listed
        device is registered. */
    ghost predicate Valid()
      reads this
    {
      forall kind: DeviceKind :: ListValid(Devices(kind), kind, registered)
    }

    constructor ()
      ensures Valid()
      ensures forall kind: DeviceKind :: Devices(kind) == []
      ensures registered == {}
    {
      gamePads, mice, keyboards, pointers := [], [], [], [];
      registered := {};
    }

    /** Replaces the list of `kind`. */
    method SetDevices(kind: DeviceKind, devices: seq<SimulatedDevice>)
      modifies this
      ensures Devices(kind) == devices && registered == old(registered)
      ensures forall other: DeviceKind :: other != kind ==> Devices(other) == old(Devices(other))
    {
      match kind
      case GamePad => gamePads := devices;
      case Mouse => mice := devices;
      case Keyboard => keyboards := devices;
      case Pointer => pointers := devices;
    }

    /** `AddGamePad`, `AddMouse`, `AddKeyboard`, `AddPointer`: a new device,
        appended to its list and registered. */
    method AddDevice(kind: DeviceKind) returns (device: SimulatedDevice)
      requires Valid()
      modifies this
      ensures Valid()
      ensures fresh(device) && device.kind == kind
      ensures Devices(kind) == old(Devices(kind)) + [device]
      ensures forall other: DeviceKind :: other != kind ==> Devices(other) == old(Devices(other))
      ensures registered == old(registered) + {device}
    {
      device := new SimulatedDevice(kind);
      var listed := Devices(kind);
      assert ListValid(listed, kind, registered);
      SetDevices(kind, listed + [device]);
      registered := registered + {device};
      forall other: DeviceKind
        ensures ListValid(Devices(other), other, registered)
      {
        assert ListValid(old(Devices(other)), other, old(registered));
        if other == kind {
          assert forall i :: 0 <= i < |listed| ==> listed[i] != device;
        }
      }
    }

    /** `RemoveGamePad`, `RemoveMouse`, `RemoveKeyboard`, `RemovePointer`: a
        device not in its list is refused and nothing changes; otherwise it is
        unregistered and removed. */
    method RemoveDevice(kind: DeviceKind, device: SimulatedDevice) returns (r: Outcome<DeviceError>)
      requires Valid() && device.kind == kind
      modifies this
      ensures Valid()
      ensures r.Fail? <==> device !in old(Devices(kind))
      ensures r.Fail? ==> r.error == DeviceNotFound && Devices(kind) == old(Devices(kind)) && registered == old(registered)
      ensures r.Pass? ==>
                && Devices(kind) == RemoveFirst(old(Devices(kind)), device)
                && device !in Devices(kind)
                && registered == old(registered) - {device}
      ensures forall other: DeviceKind :: other != kind ==> Devices(other) == old(Devices(other))
    {
      var listed := Devices(kind);
      if device !in listed {
        return Fail(DeviceNotFound);
      }
      assert ListValid(listed, kind, registered);
      RemoveFirstOfDistinct(listed, device);
      registered := registered - {device};
      SetDevices(kind, RemoveFirst(listed, device));
      forall other: DeviceKind
        ensures ListValid(Devices(other), other, registered)
      {
        assert ListValid(old(Devices(other)), other, old(registered));
        if other != kind {
          UnregisterOtherKind(Devices(other), other, old(registered), {device}, kind);
        }
      }
      r := Pass;
    }

    /** `RemoveAllGamePads`, `RemoveAllMice`, `RemoveAllKeyboards`,
        `RemoveAllPointers`: unregisters every device of the list, then
        empties it. */
    method RemoveAllDevices(kind: DeviceKind)
      requires Valid()
      modifies this
      ensures Valid()
      ensures Devices(kind) == []
      ensures registered == old(registered) - Members(old(Devices(kind)))
      ensures forall other: DeviceKind :: other != kind ==> Devices(other) == old(Devices(other))
    {
      var devices := Devices(kind);
      assert ListValid(devices, kind, registered);
      for i := 0 to |devices|
        invariant forall other: DeviceKind :: Devices(other) == old(Devices(other))
        invariant registered == old(registered) - Members(devices[..i])
      {
        assert Members(devices[..i + 1]) == Members(devices[..i]) + {devices[i]} by {
          assert devices[..i + 1] == devices[..i] + [devices[i]];
          forall d
            ensures d in Members(devices[..i + 1]) <==> d in Members(devices[..i]) + {devices[i]}
          {
            MembersAreListed(devices[..i + 1], d);
            MembersAreListed(devices[..i], d);
          }
        }
        registered := registered - {devices[i]};
      }
      assert devices[..|devices|] == devices;
      SetDevices(kind, []);
      forall other: DeviceKind
        ensures ListValid(Devices(other), other, registered)
      {
        assert ListValid(old(Devices(other)), other, old(registered));
        if other != kind {
          forall d | d in Members(devices)
            ensures d.kind == kind
          {
            MembersAreListed(devices, d);
          }
          UnregisterOtherKind(Devices(other), other, old(registered), Members(devices), kind);
        }
      }
    }

    /** `Dispose`: empties the four lists. */
    method Dispose()
      requires Valid()
      modifies this
      ensures Valid()
      ensures forall kind: DeviceKind :: Devices(kind) == []
      ensures registered == old(registered)
    {
      keyboards := [];
      mice := [];
      gamePads := [];
      pointers := [];
    }
  }
}
