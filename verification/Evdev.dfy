/**
 One evdev device: what an input event does to its state and which packets it sends
 (src/input/evdev.c), and what its state is after any run of events.
 */
module Evdev {
  import opened AxisScaling
  import opened CTypes
  import opened Folding
  import opened GamepadMapping
  import opened Limelight
  import opened Options

  // Codes of the Linux input subsystem.
  const KEY_Q := 16
  const KEY_LEFTCTRL := 29
  const KEY_LEFTSHIFT := 42
  const KEY_RIGHTSHIFT := 54
  const KEY_LEFTALT := 56
  const KEY_RIGHTCTRL := 97
  const KEY_RIGHTALT := 100
  const BTN_LEFT := 0x110
  const BTN_RIGHT := 0x111
  const BTN_MIDDLE := 0x112
  const REL_X := 0
  const REL_Y := 1
  const REL_WHEEL := 8

  /** The size of the key code table; key codes from here on are buttons. */
  const KEY_CODES := 121

  datatype Event =
    | Syn
    | Key(code: nat, value: int)
    | Rel(code: nat, value: int)
    | Abs(code: nat, value: int)
    | OtherType

  datatype Calibration = Calibration(
    x: AbsParms, y: AbsParms, z: AbsParms, rx: AbsParms, ry: AbsParms, rz: AbsParms,
    dpadX: AbsParms, dpadY: AbsParms)

  /** What a device reports about its absolute axes, by code. */
  datatype AxisRange = AxisRange(min: int, max: int, flat: int)

  type AxisInfo = int -> AxisRange

  function ParmsFor(info: AxisInfo, code: int): AbsParms {
    InitParms(info(code).min, info(code).max, info(code).flat)
  }

  /** The calibration of a device for the axes that its mapping names. */
  function CalibrationFor(m: Mapping, info: AxisInfo): Calibration {
    Calibration(
      ParmsFor(info, Number(m, AbsX)), ParmsFor(info, Number(m, AbsY)), ParmsFor(info, Number(m, AbsZ)),
      ParmsFor(info, Number(m, AbsRx)), ParmsFor(info, Number(m, AbsRy)), ParmsFor(info, Number(m, AbsRz)),
      ParmsFor(info, Number(m, AbsDpadX)), ParmsFor(info, Number(m, AbsDpadY)))
  }

  datatype Device = Device(
    mapping: Mapping, cal: Calibration, modifiers: set<Modifier>,
    mouseDeltaX: int, mouseDeltaY: int, mouseScroll: int,
    controllerId: int, pad: Pad, gamepadModified: bool)

  /** A device as it is created: zeroed, without a controller id. */
  function Fresh(mapping: Mapping, cal: Calibration): Device {
    Device(mapping, cal, {}, 0, 0, 0, -1, ZERO_PAD, false)
  }

  const QUIT_MODIFIERS := {Shift, Alt, Ctrl}

  function Number(m: Mapping, f: Field): short
    requires !IsFlag(f)
  {
    m[f].n
  }

  function Reversed(m: Mapping, f: Field): bool
    requires IsFlag(f)
  {
    m[f].on
  }

  function ModifierOf(code: nat): Option<Modifier> {
    if code == KEY_LEFTSHIFT || code == KEY_RIGHTSHIFT then Some(Shift)
    else if code == KEY_LEFTALT || code == KEY_RIGHTALT then Some(Alt)
    else if code == KEY_LEFTCTRL || code == KEY_RIGHTCTRL then Some(Ctrl)
    else None
  }

  function MouseButtonOf(code: nat): Option<MouseButton> {
    if code == BTN_LEFT then Some(LeftButton)
    else if code == BTN_MIDDLE then Some(MiddleButton)
    else if code == BTN_RIGHT then Some(RightButton)
    else None
  }

  datatype Control =
    | LeftX | LeftY | RightX | RightY | LeftTrigger | RightTrigger | DpadX | DpadY

  predicate IsStick(axis: Control) {
    axis.LeftX? || axis.LeftY? || axis.RightX? || axis.RightY?
  }

  /** The member of the mapping that holds a button's code. */
  function ButtonField(b: Button): (f: Field)
    ensures !IsFlag(f)
  {
    match b
    case A => BtnSouth
    case B => BtnEast
    case X => BtnWest
    case Y => BtnNorth
    case Up => BtnDpadUp
    case Down => BtnDpadDown
    case Left => BtnDpadLeft
    case Right => BtnDpadRight
    case Play => BtnStart
    case Back => BtnSelect
    case LeftStick => BtnThumbl
    case RightStick => BtnThumbr
    case LeftShoulder => BtnTl
    case RightShoulder => BtnTr
    case Special => BtnMode
  }

  function AxisField(axis: Control): (f: Field)
    ensures !IsFlag(f)
  {
    match axis
    case LeftX => AbsX
    case LeftY => AbsY
    case RightX => AbsRx
    case RightY => AbsRy
    case LeftTrigger => AbsZ
    case RightTrigger => AbsRz
    case DpadX => AbsDpadX
    case DpadY => AbsDpadY
  }

  /** The order in which the handler compares a code with the buttons of the mapping. */
  function ButtonAt(k: nat): Button
    requires k < 15
  {
    if k == 0 then A
    else if k == 1 then X
    else if k == 2 then Y
    else if k == 3 then B
    else if k == 4 then Up
    else if k == 5 then Down
    else if k == 6 then Right
    else if k == 7 then Left
    else if k == 8 then LeftStick
    else if k == 9 then RightStick
    else if k == 10 then LeftShoulder
    else if k == 11 then RightShoulder
    else if k == 12 then Play
    else if k == 13 then Back
    else Special
  }

  function AxisAt(k: nat): Control
    requires k < 8
  {
    if k == 0 then LeftX
    else if k == 1 then LeftY
    else if k == 2 then RightX
    else if k == 3 then RightY
    else if k == 4 then LeftTrigger
    else if k == 5 then RightTrigger
    else if k == 6 then DpadX
    else DpadY
  }

  /** The first button, from place `k` on, whose code in the mapping is the given one. */
  function FirstButton(m: Mapping, code: nat, k: nat): Option<Button>
    requires k <= 15
    decreases 15 - k
  {
    if k == 15 then None
    else if code == Number(m, ButtonField(ButtonAt(k))) then Some(ButtonAt(k))
    else FirstButton(m, code, k + 1)
  }

  function FirstAxis(m: Mapping, code: nat, k: nat): Option<Control>
    requires k <= 8
    decreases 8 - k
  {
    if k == 8 then None
    else if code == Number(m, AxisField(AxisAt(k))) then Some(AxisAt(k))
    else FirstAxis(m, code, k + 1)
  }

  /** The gamepad button a code stands for. */
  function ButtonOf(m: Mapping, code: nat): Option<Button> {
    FirstButton(m, code, 0)
  }

  /** The control an absolute axis stands for. */
  function AxisOf(m: Mapping, code: nat): Option<Control> {
    FirstAxis(m, code, 0)
  }

  /** Every button has its place in the comparisons. */
  function PlaceOf(b: Button): (k: nat)
    ensures k < 15 && ButtonAt(k) == b
  {
    match b
    case A => 0
    case X => 1
    case Y => 2
    case B => 3
    case Up => 4
    case Down => 5
    case Right => 6
    case Left => 7
    case LeftStick => 8
    case RightStick => 9
    case LeftShoulder => 10
    case RightShoulder => 11
    case Play => 12
    case Back => 13
    case Special => 14
  }

  /** A code stands for a button that the mapping gives it to, unless it is also that of one compared earlier. */
  lemma {:induction false} UnclaimedButton(m: Mapping, code: nat, b: Button, k: nat)
    requires k <= PlaceOf(b) && Number(m, ButtonField(b)) == code
    requires forall c :: PlaceOf(c) < PlaceOf(b) ==> Number(m, ButtonField(c)) != code
    ensures FirstButton(m, code, k) == Some(b)
    decreases 15 - k
  {
    if k < PlaceOf(b) {
      assert PlaceOf(ButtonAt(k)) == k;
      UnclaimedButton(m, code, b, k + 1);
    }
  }

  function AxisPlace(axis: Control): (k: nat)
    ensures k < 8 && AxisAt(k) == axis
  {
    match axis
    case LeftX => 0
    case LeftY => 1
    case RightX => 2
    case RightY => 3
    case LeftTrigger => 4
    case RightTrigger => 5
    case DpadX => 6
    case DpadY => 7
  }

  lemma {:induction false} UnclaimedAxis(m: Mapping, code: nat, axis: Control, k: nat)
    requires k <= AxisPlace(axis) && Number(m, AxisField(axis)) == code
    requires forall c :: AxisPlace(c) < AxisPlace(axis) ==> Number(m, AxisField(c)) != code
    ensures FirstAxis(m, code, k) == Some(axis)
    decreases 8 - k
  {
    if k < AxisPlace(axis) {
      assert AxisPlace(AxisAt(k)) == k;
      UnclaimedAxis(m, code, axis, k + 1);
    }
  }

  // ---- one event ----

  function WithButton(pad: Pad, b: Button, on: bool): Pad {
    pad.(buttons := if on then pad.buttons + {b} else pad.buttons - {b})
  }

  /** The two buttons of a d-pad axis, of which at most one is left down. */
  function WithDirection(pad: Pad, forth: Button, back: Button, dir: int): (r: Pad)
    requires forth != back
    ensures r == pad.(buttons := r.buttons)
    ensures forall b :: b in r.buttons <==>
      if b == forth then dir == 1 else if b == back then dir != 1 && dir != 0 else b in pad.buttons
  {
    if dir == 1 then WithButton(WithButton(pad, forth, true), back, false)
    else if dir == 0 then WithButton(WithButton(pad, forth, false), back, false)
    else WithButton(WithButton(pad, forth, false), back, true)
  }

  function Applied(pad: Pad, effect: PadEffect): Pad {
    match effect case Changed(p) => p case _ => pad
  }

  /** What an event does to the pad. */
  datatype PadEffect = Unmapped | Changed(pad: Pad) | Trap

  /** A button event that is neither a keyboard key nor a mouse button. */
  function PadButton(m: Mapping, pad: Pad, code: nat, value: int): PadEffect {
    match ButtonOf(m, code)
    case Some(b) => Changed(WithButton(pad, b, value != 0))
    case None =>
      if code == Number(m, BtnTl2) then Changed(pad.(leftTrigger := if value != 0 then UCHAR_MAX else 0))
      else if code == Number(m, BtnTr2) then Changed(pad.(rightTrigger := if value != 0 then UCHAR_MAX else 0))
      else Unmapped
  }

  /** The scaled reading of a stick axis. */
  function StickReading(m: Mapping, cal: Calibration, axis: Control, value: int): Option<short>
    requires IsStick(axis)
  {
    match axis
    case LeftX => ConvertValue(value, cal.x, Reversed(m, ReverseX))
    case LeftY => ConvertValue(value, cal.y, Reversed(m, ReverseY))
    case RightX => ConvertValue(value, cal.rx, Reversed(m, ReverseRx))
    case RightY => ConvertValue(value, cal.ry, Reversed(m, ReverseRy))
  }

  function WithStick(pad: Pad, axis: Control, v: short): Pad
    requires IsStick(axis)
  {
    match axis
    case LeftX => pad.(leftStickX := v)
    case LeftY => pad.(leftStickY := v)
    case RightX => pad.(rightStickX := v)
    case RightY => pad.(rightStickY := v)
  }

  function DpadXDirection(m: Mapping, cal: Calibration, value: int): int {
    ConvertDirection(value, cal.dpadX, Reversed(m, ReverseDpadX))
  }

  function DpadYDirection(m: Mapping, cal: Calibration, value: int): int {
    ConvertDirection(value, cal.dpadY, Reversed(m, ReverseDpadY))
  }

  function PadAxis(m: Mapping, cal: Calibration, pad: Pad, code: nat, value: int): PadEffect {
    match AxisOf(m, code)
    case None => Unmapped
    case Some(LeftTrigger) =>
      var r := ConvertByte(value, cal.z);
      if r.None? then Trap else Changed(pad.(leftTrigger := r.value))
    case Some(RightTrigger) =>
      var r := ConvertByte(value, cal.rz);
      if r.None? then Trap else Changed(pad.(rightTrigger := r.value))
    case Some(DpadX) =>
      Changed(WithDirection(pad, Right, Left, DpadXDirection(m, cal, value)))
    case Some(DpadY) =>
      Changed(WithDirection(pad, Down, Up, DpadYDirection(m, cal, value)))
    case Some(axis) =>
      var r := StickReading(m, cal, axis, value);
      if r.None? then Trap else Changed(WithStick(pad, axis, r.value))
  }

  predicate IsPadKey(code: nat) {
    code >= KEY_CODES && MouseButtonOf(code).None?
  }

  function EffectOnPad(d: Device, ev: Event): PadEffect {
    match ev
    case Key(code, value) => if IsPadKey(code) then PadButton(d.mapping, d.pad, code, value) else Unmapped
    case Abs(code, value) => PadAxis(d.mapping, d.cal, d.pad, code, value)
    case _ => Unmapped
  }

  function WithModifier(modifiers: set<Modifier>, code: nat, value: int): set<Modifier> {
    match ModifierOf(code)
    case None => modifiers
    case Some(k) => if value != 0 then modifiers + {k} else modifiers - {k}
  }

  /** The device after an event, but for its controller id. */
  function Step(d: Device, ev: Event): Device {
    match ev
    case Syn => d.(mouseDeltaX := 0, mouseDeltaY := 0, mouseScroll := 0, gamepadModified := false)
    case Rel(code, value) =>
      if code == REL_X then d.(mouseDeltaX := value)
      else if code == REL_Y then d.(mouseDeltaY := value)
      else if code == REL_WHEEL then d.(mouseScroll := value)
      else d
    case OtherType => d
    case _ =>
      var keyed := if ev.Key? && ev.code < KEY_CODES
                   then d.(modifiers := WithModifier(d.modifiers, ev.code, ev.value)) else d;
      match EffectOnPad(d, ev)
      case Changed(pad) => keyed.(pad := pad, gamepadModified := true)
      case _ => keyed
  }

  datatype Outcome = Continue | Quit | Crash

  /** The quit combination: all three modifiers are down and Q is pressed. */
  predicate QuitPressed(d: Device, ev: Event) {
    ev.Key? && ev.code == KEY_Q && ev.value != 0 && QUIT_MODIFIERS <= d.modifiers
  }

  function OutcomeOf(d: Device, ev: Event): Outcome {
    if EffectOnPad(d, ev).Trap? then Crash
    else if QuitPressed(d, ev) then Quit
    else Continue
  }

  function MovePackets(d: Device): (r: seq<Packet>)
    ensures |r| <= 1
  {
    if d.mouseDeltaX != 0 || d.mouseDeltaY != 0 then [MouseMove(d.mouseDeltaX, d.mouseDeltaY)] else []
  }

  function ScrollPackets(d: Device): (r: seq<Packet>)
    ensures |r| <= 1
  {
    if d.mouseScroll != 0 then [Scroll(d.mouseScroll)] else []
  }

  function PadPackets(d: Device): (r: seq<Packet>)
    ensures |r| <= 1
  {
    if d.gamepadModified then [Controller(d.controllerId, d.pad)] else []
  }

  /** The packets an event sends, for a device that already has the controller id it will send them under. */
  function Packets(d: Device, ev: Event): seq<Packet> {
    match ev
    case Syn => MovePackets(d) + ScrollPackets(d) + PadPackets(d)
    case Key(code, value) =>
      if code < KEY_CODES then
        if QuitPressed(d, ev) then []
        else [Keyboard(code, value != 0, WithModifier(d.modifiers, code, value))]
      else if MouseButtonOf(code).Some? then [MouseClick(MouseButtonOf(code).value, value != 0)]
      else []
    case _ => []
  }

  // ---- the state is a function of the history ----

  /** An event that addresses the gamepad, through a button or an axis of the mapping. */
  predicate IsMapped(m: Mapping, cal: Calibration, ev: Event) {
    match ev
    case Key(code, _) =>
      IsPadKey(code) && (ButtonOf(m, code).Some? || code == Number(m, BtnTl2) || code == Number(m, BtnTr2))
    case Abs(code, value) => AxisOf(m, code).Some? && PadAxis(m, cal, ZERO_PAD, code, value) != Trap
    case _ => false
  }

  /** What an event sets a modifier to. */
  function ModifierWrite(k: Modifier, ev: Event): Option<bool> {
    if ev.Key? && ev.code < KEY_CODES && ModifierOf(ev.code) == Some(k) then Some(ev.value != 0) else None
  }

  /** What an event sets a button flag to: the button mapped to it, or the direction of its d-pad axis. */
  function ButtonWrite(m: Mapping, cal: Calibration, b: Button, ev: Event): Option<bool> {
    match ev
    case Key(code, value) =>
      if IsPadKey(code) && ButtonOf(m, code) == Some(b) then Some(value != 0) else None
    case Abs(code, value) =>
      if AxisOf(m, code) == Some(DpadX) && (b == Right || b == Left) then
        Some(DpadXDirection(m, cal, value) == if b == Right then 1 else -1)
      else if AxisOf(m, code) == Some(DpadY) && (b == Down || b == Up) then
        Some(DpadYDirection(m, cal, value) == if b == Down then 1 else -1)
      else None
    case _ => None
  }

  /** What an event sets a trigger to: all or nothing from its button, or the reading of its axis. */
  function TriggerWrite(m: Mapping, cal: Calibration, left: bool, ev: Event): Option<byte> {
    match ev
    case Key(code, value) =>
      if IsPadKey(code) && ButtonOf(m, code).None? && code == Number(m, if left then BtnTl2 else BtnTr2)
         && (left || code != Number(m, BtnTl2))
      then Some(if value != 0 then UCHAR_MAX else 0)
      else None
    case Abs(code, value) =>
      if AxisOf(m, code) == Some(if left then LeftTrigger else RightTrigger)
      then ConvertByte(value, if left then cal.z else cal.rz)
      else None
    case _ => None
  }

  /** What an event sets a stick axis to: its scaled reading. */
  function StickWrite(m: Mapping, cal: Calibration, axis: Control, ev: Event): Option<short>
    requires IsStick(axis)
  {
    if ev.Abs? && AxisOf(m, ev.code) == Some(axis) then StickReading(m, cal, axis, ev.value) else None
  }

  function StickOf(pad: Pad, axis: Control): short
    requires IsStick(axis)
  {
    match axis
    case LeftX => pad.leftStickX
    case LeftY => pad.leftStickY
    case RightX => pad.rightStickX
    case RightY => pad.rightStickY
  }

  lemma StepWritesModifier(d: Device, ev: Event, k: Modifier)
    ensures (k in Step(d, ev).modifiers) == match ModifierWrite(k, ev) case Some(on) => on case None => k in d.modifiers
  {
  }

  lemma PadButtonWritesButton(m: Mapping, cal: Calibration, pad: Pad, code: nat, value: int, b: Button)
    requires IsPadKey(code)
    ensures (b in Applied(pad, PadButton(m, pad, code, value)).buttons)
         == match ButtonWrite(m, cal, b, Key(code, value)) case Some(on) => on case None => b in pad.buttons
  {
  }

  lemma PadAxisWritesButton(m: Mapping, cal: Calibration, pad: Pad, code: nat, value: int, b: Button)
    ensures (b in Applied(pad, PadAxis(m, cal, pad, code, value)).buttons)
         == match ButtonWrite(m, cal, b, Abs(code, value)) case Some(on) => on case None => b in pad.buttons
  {
    if AxisOf(m, code) == Some(DpadX) {
      DpadXWritesButton(m, cal, pad, code, value, b);
    } else if AxisOf(m, code) == Some(DpadY) {
      DpadYWritesButton(m, cal, pad, code, value, b);
    } else {
      OtherAxesKeepButtons(m, cal, pad, code, value);
    }
  }

  lemma DpadXWritesButton(m: Mapping, cal: Calibration, pad: Pad, code: nat, value: int, b: Button)
    requires AxisOf(m, code) == Some(DpadX)
    ensures (b in Applied(pad, PadAxis(m, cal, pad, code, value)).buttons)
         == match ButtonWrite(m, cal, b, Abs(code, value)) case Some(on) => on case None => b in pad.buttons
  {
  }

  lemma DpadYWritesButton(m: Mapping, cal: Calibration, pad: Pad, code: nat, value: int, b: Button)
    requires AxisOf(m, code) == Some(DpadY)
    ensures (b in Applied(pad, PadAxis(m, cal, pad, code, value)).buttons)
         == match ButtonWrite(m, cal, b, Abs(code, value)) case Some(on) => on case None => b in pad.buttons
  {
  }

  lemma OtherAxesKeepButtons(m: Mapping, cal: Calibration, pad: Pad, code: nat, value: int)
    requires AxisOf(m, code) != Some(DpadX) && AxisOf(m, code) != Some(DpadY)
    ensures Applied(pad, PadAxis(m, cal, pad, code, value)).buttons == pad.buttons
  {
  }

  lemma StepWritesButton(d: Device, ev: Event, b: Button)
    ensures (b in Step(d, ev).pad.buttons)
         == match ButtonWrite(d.mapping, d.cal, b, ev) case Some(on) => on case None => b in d.pad.buttons
  {
    match ev
    case Key(code, value) =>
      if IsPadKey(code) { PadButtonWritesButton(d.mapping, d.cal, d.pad, code, value, b); }
    case Abs(code, value) => PadAxisWritesButton(d.mapping, d.cal, d.pad, code, value, b);
    case _ =>
  }

  lemma StepWritesTriggers(d: Device, ev: Event)
    ensures Step(d, ev).pad.leftTrigger
         == match TriggerWrite(d.mapping, d.cal, true, ev) case Some(v) => v case None => d.pad.leftTrigger
    ensures Step(d, ev).pad.rightTrigger
         == match TriggerWrite(d.mapping, d.cal, false, ev) case Some(v) => v case None => d.pad.rightTrigger
  {
  }

  lemma StepWritesStick(d: Device, ev: Event, axis: Control)
    requires IsStick(axis)
    ensures StickOf(Step(d, ev).pad, axis)
         == match StickWrite(d.mapping, d.cal, axis, ev) case Some(v) => v case None => StickOf(d.pad, axis)
  {
  }

  // ---- runs of one device ----

  /** The device, but for its controller id, after the events of `log`. */
  function After(m: Mapping, cal: Calibration, log: seq<Event>): Device {
    Fold(Step, Fresh(m, cal), log)
  }

  predicate Configured(m: Mapping, cal: Calibration, d: Device) {
    d.mapping == m && d.cal == cal
  }

  lemma AfterIsConfigured(m: Mapping, cal: Calibration, log: seq<Event>)
    ensures Configured(m, cal, After(m, cal, log)) && After(m, cal, log).controllerId == -1
  {
    FoldKeeps(d => Configured(m, cal, d) && d.controllerId == -1, Step, Fresh(m, cal), log);
  }

  /** What an event says of two keys with the same meaning. */
  function Press(left: nat, right: nat, ev: Event): Option<bool> {
    if ev.Key? && (ev.code == left || ev.code == right) then Some(ev.value != 0) else None
  }

  /** The last event of either key was a press. */
  predicate HeldDown(left: nat, right: nat, log: seq<Event>) {
    LastWrite(ev => Press(left, right, ev), false, log)
  }

  lemma ModifierIsLastWrite(m: Mapping, cal: Calibration, log: seq<Event>, k: Modifier, left: nat, right: nat)
    requires forall ev :: ModifierWrite(k, ev) == Press(left, right, ev)
    ensures k in After(m, cal, log).modifiers <==> HeldDown(left, right, log)
  {
    forall d, ev
      ensures (k in Step(d, ev).modifiers)
           == match Press(left, right, ev) case Some(on) => on case None => k in d.modifiers
    {
      StepWritesModifier(d, ev, k);
      assert ModifierWrite(k, ev) == Press(left, right, ev);
    }
    LastWriteDecides(
      _ => true, Step, (d: Device) => k in d.modifiers, ev => Press(left, right, ev), Fresh(m, cal), log);
  }

  /** A modifier is down exactly when the last event of either of its two keys was a press. */
  lemma ModifierIsHistory(m: Mapping, cal: Calibration, log: seq<Event>)
    ensures Shift in After(m, cal, log).modifiers <==> HeldDown(42, 54, log)
    ensures Alt in After(m, cal, log).modifiers <==> HeldDown(56, 100, log)
    ensures Ctrl in After(m, cal, log).modifiers <==> HeldDown(29, 97, log)
  {
    ModifierIsLastWrite(m, cal, log, Shift, 42, 54);
    ModifierIsLastWrite(m, cal, log, Alt, 56, 100);
    ModifierIsLastWrite(m, cal, log, Ctrl, 29, 97);
  }

  /** A button flag is what the last event that addresses it set it to. */
  lemma ButtonIsHistory(m: Mapping, cal: Calibration, log: seq<Event>, b: Button)
    ensures (b in After(m, cal, log).pad.buttons) == LastWrite(ev => ButtonWrite(m, cal, b, ev), false, log)
  {
    forall d, ev | Configured(m, cal, d)
      ensures (b in Step(d, ev).pad.buttons)
           == match ButtonWrite(m, cal, b, ev) case Some(on) => on case None => b in d.pad.buttons
    {
      StepWritesButton(d, ev, b);
    }
    LastWriteDecides(
      d => Configured(m, cal, d), Step, (d: Device) => b in d.pad.buttons, ev => ButtonWrite(m, cal, b, ev),
      Fresh(m, cal), log);
  }

  /** A trigger holds what the last event of its button or axis set it to. */
  lemma TriggersAreHistory(m: Mapping, cal: Calibration, log: seq<Event>)
    ensures After(m, cal, log).pad.leftTrigger == LastWrite(ev => TriggerWrite(m, cal, true, ev), 0, log)
    ensures After(m, cal, log).pad.rightTrigger == LastWrite(ev => TriggerWrite(m, cal, false, ev), 0, log)
  {
    forall d, ev | Configured(m, cal, d)
      ensures Step(d, ev).pad.leftTrigger
           == match TriggerWrite(m, cal, true, ev) case Some(v) => v case None => d.pad.leftTrigger
      ensures Step(d, ev).pad.rightTrigger
           == match TriggerWrite(m, cal, false, ev) case Some(v) => v case None => d.pad.rightTrigger
    {
      StepWritesTriggers(d, ev);
    }
    LastWriteDecides(
      d => Configured(m, cal, d), Step, (d: Device) => d.pad.leftTrigger, ev => TriggerWrite(m, cal, true, ev),
      Fresh(m, cal), log);
    LastWriteDecides(
      d => Configured(m, cal, d), Step, (d: Device) => d.pad.rightTrigger, ev => TriggerWrite(m, cal, false, ev),
      Fresh(m, cal), log);
  }

  /** A stick axis holds its last scaled reading. */
  lemma StickIsHistory(m: Mapping, cal: Calibration, log: seq<Event>, axis: Control)
    requires IsStick(axis)
    ensures StickOf(After(m, cal, log).pad, axis) == LastWrite(ev => StickWrite(m, cal, axis, ev), 0, log)
  {
    forall d, ev | Configured(m, cal, d)
      ensures StickOf(Step(d, ev).pad, axis)
           == match StickWrite(m, cal, axis, ev) case Some(v) => v case None => StickOf(d.pad, axis)
    {
      StepWritesStick(d, ev, axis);
    }
    LastWriteDecides(
      d => Configured(m, cal, d), Step, (d: Device) => StickOf(d.pad, axis), ev => StickWrite(m, cal, axis, ev),
      Fresh(m, cal), log);
  }

  /** All six keys count: shift is 42 or 54, alt 56 or 100, control 29 or 97. */
  predicate AllHeldDown(log: seq<Event>) {
    HeldDown(42, 54, log) && HeldDown(56, 100, log) && HeldDown(29, 97, log)
  }

  /** The handler stops the stream exactly on a press of Q, key 16, while all three modifiers are held down. */
  lemma QuitExactly(m: Mapping, cal: Calibration, log: seq<Event>, ev: Event)
    ensures OutcomeOf(After(m, cal, log), ev).Quit? <==> ev.Key? && ev.code == 16 && ev.value != 0 && AllHeldDown(log)
  {
    ModifierIsHistory(m, cal, log);
  }

  /** A mapped event came after the last synchronisation. */
  ghost predicate MappedSinceSyn(m: Mapping, cal: Calibration, log: seq<Event>) {
    exists k :: 0 <= k < |log| && IsMapped(m, cal, log[k]) && forall j :: k < j < |log| ==> log[j] != Syn
  }

  lemma MappedSinceSynExtend(m: Mapping, cal: Calibration, front: seq<Event>, last: Event)
    ensures MappedSinceSyn(m, cal, front + [last])
       <==> last != Syn && (IsMapped(m, cal, last) || MappedSinceSyn(m, cal, front))
  {
    var log := front + [last];
    assert log[|front|] == last;
    if last != Syn && IsMapped(m, cal, last) {
      assert IsMapped(m, cal, log[|front|]);
    } else if last != Syn && MappedSinceSyn(m, cal, front) {
      var k :| 0 <= k < |front| && IsMapped(m, cal, front[k]) && forall j :: k < j < |front| ==> front[j] != Syn;
      assert IsMapped(m, cal, log[k]);
    }
    if MappedSinceSyn(m, cal, log) {
      var k :| 0 <= k < |log| && IsMapped(m, cal, log[k]) && forall j :: k < j < |log| ==> log[j] != Syn;
      if k < |front| {
        assert IsMapped(m, cal, front[k]);
        assert forall j :: k < j < |front| ==> front[j] == log[j];
      }
    }
  }

  /** A gamepad update is pending exactly when some mapped event came after the last synchronisation. */
  lemma {:induction false} PendingExactly(m: Mapping, cal: Calibration, log: seq<Event>)
    ensures After(m, cal, log).gamepadModified <==> MappedSinceSyn(m, cal, log)
  {
    if log != [] {
      var front, last := log[..|log| - 1], log[|log| - 1];
      PendingExactly(m, cal, front);
      AfterIsConfigured(m, cal, front);
      StepPends(After(m, cal, front), last);
      MappedSinceSynExtend(m, cal, front, last);
      assert log == front + [last];
    }
  }

  lemma StepPends(d: Device, ev: Event)
    ensures Step(d, ev).gamepadModified <==> ev != Syn && (IsMapped(d.mapping, d.cal, ev) || d.gamepadModified)
  {
    EffectIsMapped(d, ev);
  }

  lemma EffectIsMapped(d: Device, ev: Event)
    ensures EffectOnPad(d, ev).Changed? <==> IsMapped(d.mapping, d.cal, ev)
  {
  }

  /** Unless the mapping gives the d-pad buttons of their own, opposite directions are never held together. */
  lemma OppositeDirectionsExclude(m: Mapping, cal: Calibration, log: seq<Event>)
    requires Number(m, BtnDpadUp) < 0 && Number(m, BtnDpadDown) < 0
    requires Number(m, BtnDpadLeft) < 0 && Number(m, BtnDpadRight) < 0
    ensures !Opposite(After(m, cal, log))
  {
    forall d, ev | Configured(m, cal, d) && !Opposite(d) ensures !Opposite(Step(d, ev)) {
      StepKeepsDirections(d, ev);
    }
    FoldKeeps(d => Configured(m, cal, d) && !Opposite(d), Step, Fresh(m, cal), log);
  }

  predicate Opposite(d: Device) {
    var buttons := d.pad.buttons;
    (Left in buttons && Right in buttons) || (Up in buttons && Down in buttons)
  }

  lemma StepKeepsDirections(d: Device, ev: Event)
    requires Number(d.mapping, BtnDpadUp) < 0 && Number(d.mapping, BtnDpadDown) < 0
    requires Number(d.mapping, BtnDpadLeft) < 0 && Number(d.mapping, BtnDpadRight) < 0
    requires !Opposite(d)
    ensures !Opposite(Step(d, ev))
  {
    StepWritesButton(d, ev, Left);
    StepWritesButton(d, ev, Right);
    StepWritesButton(d, ev, Up);
    StepWritesButton(d, ev, Down);
    if ev.Key? {
      MatchedButton(d.mapping, ev.code, 0);
    }
  }

  lemma {:induction false} MatchedButton(m: Mapping, code: nat, k: nat)
    requires k <= 15
    ensures FirstButton(m, code, k).Some? ==> code == Number(m, ButtonField(FirstButton(m, code, k).value))
    decreases 15 - k
  {
    if k < 15 && code != Number(m, ButtonField(ButtonAt(k))) {
      MatchedButton(m, code, k + 1);
    }
  }

  // ---- mouse motion ----

  /** What a frame of events leaves of a relative axis: the last value since the last synchronisation. */
  function RelWrite(code: nat, ev: Event): Option<int> {
    if ev == Syn then Some(0)
    else if ev.Rel? && ev.code == code then Some(ev.value)
    else None
  }

  function OpenFrame(code: nat, log: seq<Event>): int {
    LastWrite(ev => RelWrite(code, ev), 0, log)
  }

  /** The sum, over the frames that a synchronisation closed, of the last value in each. */
  function ClosedFrames(code: nat, log: seq<Event>): int {
    if log == [] then 0
    else
      var front, last := log[..|log| - 1], log[|log| - 1];
      ClosedFrames(code, front) + if last == Syn then OpenFrame(code, front) else 0
  }

  /** The relative motion held back is that of the frame in progress: codes 0 and 1 for the axes, 8 for the wheel. */
  lemma MotionIsOpenFrame(m: Mapping, cal: Calibration, log: seq<Event>)
    ensures After(m, cal, log).mouseDeltaX == OpenFrame(0, log)
    ensures After(m, cal, log).mouseDeltaY == OpenFrame(1, log)
    ensures After(m, cal, log).mouseScroll == OpenFrame(8, log)
  {
    forall d, ev
      ensures Step(d, ev).mouseDeltaX == match RelWrite(REL_X, ev) case Some(v) => v case None => d.mouseDeltaX
      ensures Step(d, ev).mouseDeltaY == match RelWrite(REL_Y, ev) case Some(v) => v case None => d.mouseDeltaY
      ensures Step(d, ev).mouseScroll == match RelWrite(REL_WHEEL, ev) case Some(v) => v case None => d.mouseScroll
    {
      StepWritesMotion(d, ev);
    }
    LastWriteDecides(_ => true, Step, (d: Device) => d.mouseDeltaX, ev => RelWrite(REL_X, ev), Fresh(m, cal), log);
    LastWriteDecides(_ => true, Step, (d: Device) => d.mouseDeltaY, ev => RelWrite(REL_Y, ev), Fresh(m, cal), log);
    LastWriteDecides(_ => true, Step, (d: Device) => d.mouseScroll, ev => RelWrite(REL_WHEEL, ev), Fresh(m, cal), log);
  }

  lemma StepWritesMotion(d: Device, ev: Event)
    ensures Step(d, ev).mouseDeltaX == match RelWrite(REL_X, ev) case Some(v) => v case None => d.mouseDeltaX
    ensures Step(d, ev).mouseDeltaY == match RelWrite(REL_Y, ev) case Some(v) => v case None => d.mouseDeltaY
    ensures Step(d, ev).mouseScroll == match RelWrite(REL_WHEEL, ev) case Some(v) => v case None => d.mouseScroll
  {
  }
}
