/**
 What the event handler (src/input/evdev.c) does, in the codes of the Linux input subsystem and the
 calibration of the device: which packets an event sends after any others, where a stick rests, which
 direction a d-pad axis gives, and which readings end the program.
 */
module HandlerLaws {
  import opened AxisScaling
  import opened CTypes
  import opened Evdev
  import opened Folding
  import opened GamepadMapping
  import opened Limelight
  import opened Options

  // ---- packets ----

  /** A key below 121 sends itself with the modifiers as it leaves them, unless it completes the quit combination. */
  lemma KeySends(m: Mapping, cal: Calibration, log: seq<Event>, code: nat, value: int)
    requires code < 121
    ensures Packets(After(m, cal, log), Event.Key(code, value))
         == if code == 16 && value != 0 && AllHeldDown(log) then []
            else [Keyboard(code, value != 0, After(m, cal, log + [Event.Key(code, value)]).modifiers)]
  {
    ModifierIsHistory(m, cal, log);
    FoldExtend(Step, Fresh(m, cal), log, Event.Key(code, value));
  }

  /** Three button codes are the mouse's; all others from 121 on send nothing by themselves. */
  lemma ButtonSends(d: Device, code: nat, value: int)
    requires code >= 121
    ensures Packets(d, Event.Key(code, value))
         == if code == 272 then [MouseClick(LeftButton, value != 0)]
            else if code == 273 then [MouseClick(RightButton, value != 0)]
            else if code == 274 then [MouseClick(MiddleButton, value != 0)]
            else []
  {
  }

  /** Motion and axis events are held back. */
  lemma MotionSendsNothing(d: Device, ev: Event)
    requires !ev.Key? && ev != Syn
    ensures Packets(d, ev) == []
  {
  }

  /**
   A synchronisation sends the motion of its frame, the scrolling of its frame, and the pad if it was
   touched since the last synchronisation, each in one packet and only if there is something to send.
   */
  lemma SynSends(m: Mapping, cal: Calibration, log: seq<Event>, id: int)
    ensures var x, y, wheel := OpenFrame(0, log), OpenFrame(1, log), OpenFrame(8, log);
      Packets(After(m, cal, log).(controllerId := id), Syn)
      == (if x == 0 && y == 0 then [] else [MouseMove(x, y)])
       + (if wheel == 0 then [] else [Scroll(wheel)])
       + if MappedSinceSyn(m, cal, log) then [Controller(id, After(m, cal, log).pad)] else []
  {
    MotionIsOpenFrame(m, cal, log);
    PendingExactly(m, cal, log);
  }

  /** The keyboard and the mouse leave the pad alone; every other key is looked up in the mapping. */
  lemma PadKeysExactly(d: Device, code: nat, value: int)
    ensures IsPadKey(code) <==> code >= 121 && code != 272 && code != 273 && code != 274
    ensures !IsPadKey(code) ==>
      var after := Step(d, Event.Key(code, value));
      after.pad == d.pad && after.gamepadModified == d.gamepadModified
  {
  }

  // ---- sticks ----

  function StickParms(cal: Calibration, axis: Control): AbsParms
    requires IsStick(axis)
  {
    match axis
    case LeftX => cal.x
    case LeftY => cal.y
    case RightX => cal.rx
    case RightY => cal.ry
  }

  function StickReversal(axis: Control): (f: Field)
    requires IsStick(axis)
    ensures IsFlag(f)
  {
    match axis
    case LeftX => ReverseX
    case LeftY => ReverseY
    case RightX => ReverseRx
    case RightY => ReverseRy
  }

  /** After any events, a stick holds the scaled value of its last reading. */
  lemma StickHoldsReading(m: Mapping, cal: Calibration, log: seq<Event>, axis: Control, code: nat, v: int)
    requires IsStick(axis) && AxisOf(m, code) == Some(axis)
    ensures var r := ConvertValue(v, StickParms(cal, axis), m[StickReversal(axis)].on);
      r.Some? ==> StickOf(After(m, cal, log + [Abs(code, v)]).pad, axis) == r.value
  {
    StickIsHistory(m, cal, log + [Abs(code, v)], axis);
    assert (log + [Abs(code, v)])[|log|] == Abs(code, v);
  }

  /** A stick is at rest exactly where the reading is in the dead zone, or scales to 0 outside it. */
  lemma StickRestsExactly(m: Mapping, cal: Calibration, log: seq<Event>, axis: Control, code: nat, v: int)
    requires IsStick(axis) && AxisOf(m, code) == Some(axis) && Initialised(StickParms(cal, axis))
    requires ConvertValue(v, StickParms(cal, axis), m[StickReversal(axis)].on).Some?
    ensures var p, reverse := StickParms(cal, axis), m[StickReversal(axis)].on;
      StickOf(After(m, cal, log + [Abs(code, v)]).pad, axis) == 0
      <==> || p.avg - p.flat < v < p.avg + p.flat
           || (p.min <= v <= p.max && 32768 * Width(p) <= 65535 * Numerator(v, p, reverse) < 32769 * Width(p))
  {
    StickHoldsReading(m, cal, log, axis, code, v);
    ReadsZeroExactly(v, StickParms(cal, axis), m[StickReversal(axis)].on);
  }

  /** So a stick that is let go, with its reading less than the dead zone from the centre, reads 0. */
  lemma StickRestsInDeadZone(m: Mapping, cal: Calibration, log: seq<Event>, axis: Control, code: nat, v: int)
    requires IsStick(axis) && AxisOf(m, code) == Some(axis)
    requires var p := StickParms(cal, axis); p.avg - p.flat < v < p.avg + p.flat
    ensures StickOf(After(m, cal, log + [Abs(code, v)]).pad, axis) == 0
  {
    StickHoldsReading(m, cal, log, axis, code, v);
  }

  // ---- triggers ----

  /** After any events, a trigger holds the scaled value of its last reading. */
  lemma TriggerHoldsReading(m: Mapping, cal: Calibration, log: seq<Event>, code: nat, v: int)
    ensures AxisOf(m, code) == Some(LeftTrigger) && ConvertByte(v, cal.z).Some? ==>
      After(m, cal, log + [Abs(code, v)]).pad.leftTrigger == ConvertByte(v, cal.z).value
    ensures AxisOf(m, code) == Some(RightTrigger) && ConvertByte(v, cal.rz).Some? ==>
      After(m, cal, log + [Abs(code, v)]).pad.rightTrigger == ConvertByte(v, cal.rz).value
  {
    TriggersAreHistory(m, cal, log + [Abs(code, v)]);
    assert (log + [Abs(code, v)])[|log|] == Abs(code, v);
  }

  /** And after a key that only it has, full or nothing. */
  lemma TriggerHoldsKey(m: Mapping, cal: Calibration, log: seq<Event>, code: nat, value: int)
    requires IsPadKey(code) && ButtonOf(m, code).None?
    ensures m[BtnTl2].n == code ==>
      After(m, cal, log + [Event.Key(code, value)]).pad.leftTrigger == if value != 0 then 255 else 0
    ensures m[BtnTr2].n == code && m[BtnTl2].n != code ==>
      After(m, cal, log + [Event.Key(code, value)]).pad.rightTrigger == if value != 0 then 255 else 0
  {
    TriggersAreHistory(m, cal, log + [Event.Key(code, value)]);
    assert (log + [Event.Key(code, value)])[|log|] == Event.Key(code, value);
  }

  // ---- the d-pad ----

  /** The side that an axis is on: past a quarter of its half range from the centre, turned over if reversed. */
  function Side(v: int, p: AbsParms, reverse: bool): int {
    if -p.range <= 4 * (v - p.avg) <= p.range then 0
    else if (v > p.avg) == reverse then -1
    else 1
  }

  lemma SideIsDirection(v: int, p: AbsParms, reverse: bool)
    requires Initialised(p)
    ensures ConvertDirection(v, p, reverse) == Side(v, p, reverse)
  {
    DirectionExactly(v, p.min, p.max, p.flat);
  }

  /** After a reading of a d-pad axis, exactly the button of its side is down: right is the positive one. */
  lemma DpadFollowsX(m: Mapping, cal: Calibration, log: seq<Event>, code: nat, v: int)
    requires AxisOf(m, code) == Some(DpadX) && Initialised(cal.dpadX)
    ensures var buttons := After(m, cal, log + [Abs(code, v)]).pad.buttons;
      var side := Side(v, cal.dpadX, m[ReverseDpadX].on);
      (Right in buttons <==> side == 1) && (Left in buttons <==> side == -1)
  {
    ButtonIsHistory(m, cal, log + [Abs(code, v)], Right);
    ButtonIsHistory(m, cal, log + [Abs(code, v)], Left);
    SideIsDirection(v, cal.dpadX, m[ReverseDpadX].on);
    assert (log + [Abs(code, v)])[|log|] == Abs(code, v);
  }

  /** And down is. */
  lemma DpadFollowsY(m: Mapping, cal: Calibration, log: seq<Event>, code: nat, v: int)
    requires AxisOf(m, code) == Some(DpadY) && Initialised(cal.dpadY)
    ensures var buttons := After(m, cal, log + [Abs(code, v)]).pad.buttons;
      var side := Side(v, cal.dpadY, m[ReverseDpadY].on);
      (Down in buttons <==> side == 1) && (Up in buttons <==> side == -1)
  {
    ButtonIsHistory(m, cal, log + [Abs(code, v)], Down);
    ButtonIsHistory(m, cal, log + [Abs(code, v)], Up);
    SideIsDirection(v, cal.dpadY, m[ReverseDpadY].on);
    assert (log + [Abs(code, v)])[|log|] == Abs(code, v);
  }

  // ---- readings that end the program ----

  /**
   The program ends by a division by zero exactly on a reading of a stick whose dead zone fills its range,
   at an end of that, or of a trigger whose dead zone is as wide as its range, at the maximum or a dead
   zone below the minimum.
   */
  lemma CrashesExactly(d: Device, ev: Event)
    requires Initialised(d.cal.x) && Initialised(d.cal.y) && Initialised(d.cal.rx) && Initialised(d.cal.ry)
    requires Initialised(d.cal.z) && Initialised(d.cal.rz)
    ensures OutcomeOf(d, ev).Crash?
       <==> ev.Abs? && AxisOf(d.mapping, ev.code).Some?
            && match AxisOf(d.mapping, ev.code).value
               case DpadX => false
               case DpadY => false
               case LeftTrigger => TriggerTraps(ev.value, d.cal.z)
               case RightTrigger => TriggerTraps(ev.value, d.cal.rz)
               case stick => StickTraps(ev.value, StickParms(d.cal, stick))
  {
    if ev.Abs? && AxisOf(d.mapping, ev.code).Some? {
      match AxisOf(d.mapping, ev.code).value
      case DpadX =>
      case DpadY =>
      case LeftTrigger => TriggerTrapsExactly(ev.value, d.cal.z.min, d.cal.z.max, d.cal.z.flat);
      case RightTrigger => TriggerTrapsExactly(ev.value, d.cal.rz.min, d.cal.rz.max, d.cal.rz.flat);
      case stick =>
        var p := StickParms(d.cal, stick);
        TrapsExactly(ev.value, p.min, p.max, p.flat, d.mapping[StickReversal(stick)].on);
    }
  }

  predicate StickTraps(v: int, p: AbsParms) {
    p.max - p.min == 2 * p.flat && (v == p.min || v == p.max)
  }

  predicate TriggerTraps(v: int, p: AbsParms) {
    p.max - p.min == p.flat && (v == p.max || v <= p.min - p.flat)
  }
}
