/**
 The input code as it runs: the array of devices, the count and the mask that the event handlers
 update in place (src/input/evdev.c). Every method takes the step of `InputTable.Apply` and sends what
 `InputWire.SentBy` says, so what is proved there about all runs holds of this object.
 */
module InputEngine {
  import opened AxisScaling
  import opened CTypes
  import opened Evdev
  import opened GamepadMapping
  import opened InputTable
  import opened InputWire
  import opened Limelight
  import opened Options
  import opened SettingsFile
  import opened Text

  class Engine {
    var devices: array?<Device>
    var numDevices: nat
    var assignedControllerIds: set<nat>
    /** The packets sent so far, of all devices. */
    var wire: seq<Packet>
    /** The actions taken so far. */
    ghost var actions: seq<Action>

    ghost predicate Valid()
      reads this, devices
    {
      Shows(Run(actions), Wire(actions))
    }

    /** The entries in use, the mask and the packets are those of a state of the table. */
    ghost predicate Shows(w: World, sent: seq<Packet>)
      reads this, devices
    {
      && (devices == null ==> numDevices == 0)
      && (devices != null ==> numDevices <= devices.Length)
      && w.mask == assignedControllerIds && sent == wire
      && |w.table| == numDevices
      && (forall i :: 0 <= i < numDevices ==> devices[i] == w.table[i].dev)
    }

    constructor ()
      ensures Valid() && actions == [] && wire == []
    {
      devices, numDevices, assignedControllerIds := null, 0, {};
      wire, actions := [], [];
    }

    ghost predicate Took(was: seq<Action>, a: Action)
      reads this
    {
      actions == was + [a]
    }

    /** A device is opened, with a mapping file or without: the table grows by one entry, which starts zeroed. */
    method Create(mapText: Option<string>, info: AxisInfo) returns (mapping: Mapping)
      requires Valid()
      modifies this
      ensures Valid() && Took(old(actions), Add(mapping, CalibrationFor(mapping, info)))
      ensures wire == old(wire)
      ensures mapping == match mapText
        case None => ZERO_MAPPING
        case Some(text) => LoadLines(FORMAT, ZERO_MAPPING, Lines(text))
    {
      mapping := ZERO_MAPPING;
      if mapText.Some? {
        mapping := Load(mapText.value, ZERO_MAPPING);
      }
      Append(mapping, CalibrationFor(mapping, info));
    }

    method Append(mapping: Mapping, cal: Calibration)
      requires Valid()
      modifies this
      ensures Valid() && Took(old(actions), Add(mapping, cal))
      ensures wire == old(wire)
    {
      ghost var w := Run(actions);
      var dev := numDevices;
      var zeroed := Fresh(mapping, cal);
      Grow(zeroed);
      numDevices := numDevices + 1;
      devices[dev] := zeroed;
      assert Apply(w, Add(mapping, cal)).table == w.table + [Tracked(zeroed, [], [])];
      assert wire + [] == wire;
      assert Shows(Apply(w, Add(mapping, cal)), wire + []);
      TakeStep(Add(mapping, cal));
    }

    /** `malloc` of the first entry, or `realloc` for one more. */
    method Grow(zeroed: Device)
      requires devices == null ==> numDevices == 0
      requires devices != null ==> numDevices <= devices.Length
      modifies this`devices
      ensures devices != null && fresh(devices) && devices.Length == numDevices + 1
      ensures forall i :: 0 <= i < numDevices ==> devices[i] == old(if devices != null then devices[i] else zeroed)
    {
      if devices == null {
        devices := new Device[1](_ => zeroed);
      } else {
        var grown := new Device[numDevices + 1](i requires 0 <= i reads this, devices
          => if devices != null && i < devices.Length then devices[i] else zeroed);
        devices := grown;
      }
    }

    /** The ghost part of a step. */
    ghost method TakeStep(a: Action)
      requires Shows(Apply(Run(actions), a), Wire(actions) + SentBy(Run(actions), a))
      modifies this`actions
      ensures Valid() && Took(old(actions), a)
    {
      RunExtend(actions, a);
      actions := actions + [a];
    }

    /** A device is gone: the last entry takes its place. */
    method RemoveDevice(devindex: nat)
      requires Valid() && devindex < numDevices
      modifies this, devices
      ensures Valid() && Took(old(actions), Remove(devindex))
      ensures wire == old(wire) && devices == old(devices)
    {
      ghost var w := Run(actions);
      numDevices := numDevices - 1;
      if devices[devindex].controllerId >= 0 {
        assignedControllerIds := assignedControllerIds - {devices[devindex].controllerId};
      }
      if devindex != numDevices && numDevices > 0 {
        devices[devindex] := devices[numDevices];
      }
      assert Shows(Apply(w, Remove(devindex)), wire + []);
      TakeStep(Remove(devindex));
    }

    /** The allocation loop: the lowest of the four ids without a mark, or 0 when all are marked. */
    method AssignControllerId(id: int) returns (chosen: int)
      modifies this`assignedControllerIds
      ensures (assignedControllerIds, chosen) == AssignId(old(assignedControllerIds), id)
    {
      chosen := id;
      if chosen < 0 {
        for i := 0 to 4
          invariant chosen == id && assignedControllerIds == old(assignedControllerIds)
          invariant forall k :: 0 <= k < i ==> k in assignedControllerIds
        {
          if i !in assignedControllerIds {
            assignedControllerIds := assignedControllerIds + {i};
            chosen := i;
            break;
          }
        }
        if chosen < 0 {
          chosen := 0;
        }
      }
    }

    /** A synchronisation sends what the frame has left pending. */
    method HandleSyn(start: Device) returns (dev: Device)
      modifies this`wire, this`assignedControllerIds
      ensures var (mask, id) := if start.gamepadModified
                then AssignId(old(assignedControllerIds), start.controllerId)
                else (old(assignedControllerIds), start.controllerId);
        && assignedControllerIds == mask
        && dev == Step(start.(controllerId := id), Syn)
        && wire == old(wire) + Packets(start.(controllerId := id), Syn)
    {
      dev := start;
      if dev.mouseDeltaX != 0 || dev.mouseDeltaY != 0 {
        wire := wire + [MouseMove(dev.mouseDeltaX, dev.mouseDeltaY)];
        dev := dev.(mouseDeltaX := 0, mouseDeltaY := 0);
      }
      if dev.mouseScroll != 0 {
        wire := wire + [Scroll(dev.mouseScroll)];
        dev := dev.(mouseScroll := 0);
      }
      if dev.gamepadModified {
        var id := AssignControllerId(dev.controllerId);
        dev := dev.(controllerId := id);
        wire := wire + [Controller(dev.controllerId, dev.pad)];
        dev := dev.(gamepadModified := false);
      }
    }

    /** A key of the keyboard, a button of the mouse, or a button of the gamepad. */
    method HandleKey(start: Device, code: nat, value: int) returns (dev: Device, keepGoing: bool)
      modifies this`wire
      ensures dev == Step(start, Key(code, value))
      ensures wire == old(wire) + Packets(start, Key(code, value))
      ensures keepGoing <==> OutcomeOf(start, Key(code, value)) == Continue
    {
      dev := start;
      keepGoing := true;
      var gamepadModified := false;
      if code < KEY_CODES {
        var modifier: Option<Modifier> := None;
        if code == KEY_LEFTSHIFT || code == KEY_RIGHTSHIFT {
          modifier := Some(Shift);
        } else if code == KEY_LEFTALT || code == KEY_RIGHTALT {
          modifier := Some(Alt);
        } else if code == KEY_LEFTCTRL || code == KEY_RIGHTCTRL {
          modifier := Some(Ctrl);
        }
        if modifier.Some? {
          if value != 0 {
            dev := dev.(modifiers := dev.modifiers + {modifier.value});
          } else {
            dev := dev.(modifiers := dev.modifiers - {modifier.value});
          }
        }
        if QUIT_MODIFIERS <= dev.modifiers && code == KEY_Q && value != 0 {
          keepGoing := false;
          return;
        }
        wire := wire + [Keyboard(code, value != 0, dev.modifiers)];
      } else {
        var mouse: Option<MouseButton> := None;
        if code == BTN_LEFT {
          mouse := Some(LeftButton);
        } else if code == BTN_MIDDLE {
          mouse := Some(MiddleButton);
        } else if code == BTN_RIGHT {
          mouse := Some(RightButton);
        }
        if mouse.Some? {
          wire := wire + [MouseClick(mouse.value, value != 0)];
        } else {
          gamepadModified := true;
          var button := ButtonOf(dev.mapping, code);
          if button.Some? {
            dev := dev.(pad := WithButton(dev.pad, button.value, value != 0));
          } else if code == Number(dev.mapping, BtnTl2) {
            dev := dev.(pad := dev.pad.(leftTrigger := if value != 0 then UCHAR_MAX else 0));
          } else if code == Number(dev.mapping, BtnTr2) {
            dev := dev.(pad := dev.pad.(rightTrigger := if value != 0 then UCHAR_MAX else 0));
          } else {
            gamepadModified := false;
          }
        }
      }
      dev := dev.(gamepadModified := dev.gamepadModified || gamepadModified);
    }

    /** An absolute axis; scaling it may divide by zero, which ends the program. */
    method HandleAbs(start: Device, code: nat, value: int) returns (dev: Device, crashed: bool)
      ensures dev == Step(start, Abs(code, value))
      ensures crashed <==> OutcomeOf(start, Abs(code, value)) == Crash
    {
      dev, crashed := start, false;
      var pad, gamepadModified, trapped := MoveAxis(dev.pad, dev.mapping, dev.cal, code, value);
      if trapped { return start, true; }
      dev := dev.(pad := pad);
      dev := dev.(gamepadModified := dev.gamepadModified || gamepadModified);
    }

    /** The chain of comparisons with the axes of the mapping. */
    method MoveAxis(start: Pad, m: Mapping, cal: Calibration, code: nat, value: int)
      returns (pad: Pad, gamepadModified: bool, trapped: bool)
      ensures trapped <==> PadAxis(m, cal, start, code, value).Trap?
      ensures !trapped ==> (gamepadModified <==> PadAxis(m, cal, start, code, value).Changed?)
      ensures !trapped ==> pad == Applied(start, PadAxis(m, cal, start, code, value))
    {
      pad, gamepadModified, trapped := start, true, false;
      match AxisOf(m, code) {
        case None => gamepadModified := false;
        case Some(LeftTrigger) =>
          var r := ConvertByte(value, cal.z);
          if r.None? { return start, true, true; }
          pad := pad.(leftTrigger := r.value);
        case Some(RightTrigger) =>
          var r := ConvertByte(value, cal.rz);
          if r.None? { return start, true, true; }
          pad := pad.(rightTrigger := r.value);
        case Some(DpadX) =>
          pad := SetDirection(pad, Right, Left, ConvertDirection(value, cal.dpadX, Reversed(m, ReverseDpadX)));
        case Some(DpadY) =>
          pad := SetDirection(pad, Down, Up, ConvertDirection(value, cal.dpadY, Reversed(m, ReverseDpadY)));
        case Some(stick) =>
          pad, trapped := MoveStick(pad, m, cal, stick, value);
      }
    }

    /** A stick axis moves, or divides by zero. */
    method MoveStick(start: Pad, m: Mapping, cal: Calibration, axis: Control, value: int)
      returns (pad: Pad, trapped: bool)
      requires IsStick(axis)
      ensures trapped <==> StickReading(m, cal, axis, value).None?
      ensures !trapped ==> pad == WithStick(start, axis, StickReading(m, cal, axis, value).value)
    {
      pad, trapped := start, false;
      match axis {
        case LeftX =>
          var r := ConvertValue(value, cal.x, Reversed(m, ReverseX));
          if r.None? { return start, true; }
          pad := pad.(leftStickX := r.value);
        case LeftY =>
          var r := ConvertValue(value, cal.y, Reversed(m, ReverseY));
          if r.None? { return start, true; }
          pad := pad.(leftStickY := r.value);
        case RightX =>
          var r := ConvertValue(value, cal.rx, Reversed(m, ReverseRx));
          if r.None? { return start, true; }
          pad := pad.(rightStickX := r.value);
        case RightY =>
          var r := ConvertValue(value, cal.ry, Reversed(m, ReverseRy));
          if r.None? { return start, true; }
          pad := pad.(rightStickY := r.value);
      }
    }

    /** The two flags of a d-pad axis. */
    method SetDirection(start: Pad, forth: Button, back: Button, dir: int) returns (pad: Pad)
      requires forth != back
      ensures pad == WithDirection(start, forth, back, dir)
    {
      pad := start;
      if dir == 1 {
        pad := pad.(buttons := pad.buttons + {forth} - {back});
      } else if dir == 0 {
        pad := pad.(buttons := pad.buttons - {forth} - {back});
      } else {
        pad := pad.(buttons := pad.buttons - {forth} + {back});
      }
    }

    /** The handler's dispatch on the type of an event, for one entry of the table. */
    method Dispatch(start: Device, ev: Event) returns (dev: Device, outcome: Outcome)
      modifies this`wire, this`assignedControllerIds
      ensures var (mask, id) := if Commits(start, ev)
                then AssignId(old(assignedControllerIds), start.controllerId)
                else (old(assignedControllerIds), start.controllerId);
        && assignedControllerIds == mask
        && dev == Step(start.(controllerId := id), ev)
        && wire == old(wire) + Packets(start.(controllerId := id), ev)
      ensures outcome == OutcomeOf(start, ev)
    {
      dev, outcome := start, Continue;
      match ev {
        case Syn =>
          dev := HandleSyn(start);
        case Key(code, value) =>
          var keepGoing;
          dev, keepGoing := HandleKey(start, code, value);
          outcome := if keepGoing then Continue else Quit;
        case Rel(code, value) =>
          if code == REL_X {
            dev := dev.(mouseDeltaX := value);
          } else if code == REL_Y {
            dev := dev.(mouseDeltaY := value);
          } else if code == REL_WHEEL {
            dev := dev.(mouseScroll := value);
          }
        case Abs(code, value) =>
          var crashed;
          dev, crashed := HandleAbs(start, code, value);
          outcome := if crashed then Crash else Continue;
        case OtherType =>
      }
    }

    method HandleEvent(index: nat, ev: Event) returns (outcome: Outcome)
      requires Valid() && index < numDevices
      modifies this, devices
      ensures Valid() && Took(old(actions), Input(index, ev))
      ensures outcome == OutcomeOf(old(devices[index]), ev)
      ensures devices == old(devices)
      ensures wire == old(wire)
        + Packets(old(devices[index]).(controllerId := devices[index].controllerId), ev)
    {
      ghost var w := Run(actions);
      var dev;
      dev, outcome := Dispatch(devices[index], ev);
      devices[index] := dev;
      FeedStep(w.mask, w.table[index], ev);
      assert Shows(Apply(w, Input(index, ev)), old(wire) + SentBy(w, Input(index, ev)));
      TakeStep(Input(index, ev));
    }
  }

  /** The parts of one fed event: the device it leaves is the step of the device under its committed id. */
  lemma FeedStep(mask: set<nat>, t: Tracked, ev: Event)
    ensures var (after, id) := if Commits(t.dev, ev) then AssignId(mask, t.dev.controllerId)
                                else (mask, t.dev.controllerId);
      && Feed(mask, t, ev).0 == after
      && Feed(mask, t, ev).1.dev == Step(t.dev.(controllerId := id), ev)
      && Feed(mask, t, ev).1.dev.controllerId == id
  {
    FeedId(mask, t, ev);
  }
}
