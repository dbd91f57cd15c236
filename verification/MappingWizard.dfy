/**
 The wizard that records a mapping from what the user presses and moves (src/input/evdev.c), and its
 agreement with the input handler that uses the mapping later.
 */
module MappingWizard {
  import opened AxisScaling
  import opened CTypes
  import opened Evdev
  import opened Folding
  import opened GamepadMapping
  import opened Limelight
  import opened Options
  import opened SettingsFile
  import opened Text

  /** The members that are being recorded: a key, an axis with its reversal, or both. */
  datatype Recording = Recording(wantsKey: bool, wantsAbs: bool, key: short, axis: short, reverse: bool)

  /** What an event records for the axis. */
  function AbsWrite(info: AxisInfo, ev: Event): Option<(short, bool)> {
    if !ev.Abs? then None
    else
      match WizardReverse(ev.value, ParmsFor(info, ev.code))
      case None => None
      case Some(reverse) => Some((ToShort(ev.code), reverse))
  }

  function Record(info: AxisInfo, r: Recording, ev: Event): Recording {
    if ev.Key? && r.wantsKey && ev.value != 0 then r.(key := ToShort(ev.code))
    else if r.wantsAbs && AbsWrite(info, ev).Some? then
      r.(axis := AbsWrite(info, ev).value.0, reverse := AbsWrite(info, ev).value.1)
    else r
  }

  /** The recorded control has been let go. */
  predicate Finished(info: AxisInfo, r: Recording, ev: Event) {
    || (ev.Key? && r.wantsKey && ev.value == 0 && ev.code == r.key)
    || (ev.Abs? && r.wantsAbs && AbsWrite(info, ev).None? && ev.code == r.axis)
  }

  /** The wizard's targets as members, updated by the event handler. */
  class Wizard {
    var r: Recording

    /** Recording an axis leaves the old reversal in place until a reading is accepted. */
    constructor ForAbs(reverse: bool)
      ensures r == Recording(false, true, -1, -1, reverse)
    {
      r := Recording(false, true, -1, -1, reverse);
    }

    constructor ForKey()
      ensures r == Recording(true, false, -1, -1, false)
    {
      r := Recording(true, false, -1, -1, false);
    }

    constructor ForAbsOrKey()
      ensures r == Recording(true, true, -1, -1, false)
    {
      r := Recording(true, true, -1, -1, false);
    }

    method HandleMappingEvent(info: AxisInfo, ev: Event) returns (keepGoing: bool)
      modifies this
      ensures r == Record(info, old(r), ev)
      ensures keepGoing <==> !Finished(info, old(r), ev)
    {
      keepGoing := true;
      match ev {
        case Key(code, value) =>
          if r.wantsKey {
            if value != 0 {
              r := r.(key := ToShort(code));
            } else if code == r.key {
              keepGoing := false;
            }
          }
        case Abs(code, value) =>
          if r.wantsAbs {
            var parms := ParmsFor(info, code);
            if value > parms.avg + TruncDiv(parms.range, 2) {
              r := r.(axis := ToShort(code), reverse := false);
            } else if value < parms.avg - TruncDiv(parms.range, 2) {
              r := r.(axis := ToShort(code), reverse := true);
            } else if code == r.axis {
              keepGoing := false;
            }
          }
        case _ =>
      }
    }
  }

  function Recorded(info: AxisInfo, start: Recording, log: seq<Event>): Recording {
    Fold((r, ev) => Record(info, r, ev), start, log)
  }

  /** The wizard records the code and reversal of the last reading it accepts. */
  lemma LastAcceptedIsRecorded(info: AxisInfo, start: Recording, log: seq<Event>)
    requires start.wantsAbs
    ensures var r := Recorded(info, start, log);
      (r.axis, r.reverse) == LastWrite(ev => AbsWrite(info, ev), (start.axis, start.reverse), log)
  {
    LastWriteDecides(
      (r: Recording) => r.wantsAbs, (r, ev) => Record(info, r, ev), (r: Recording) => (r.axis, r.reverse),
      ev => AbsWrite(info, ev), start, log);
  }

  function KeyWrite(ev: Event): Option<short> {
    if ev.Key? && ev.value != 0 then Some(ToShort(ev.code)) else None
  }

  /** While it wants a key, the code of the last key that was pressed. */
  lemma LastPressedIsRecorded(info: AxisInfo, start: Recording, log: seq<Event>)
    requires start.wantsKey
    ensures Recorded(info, start, log).key
         == LastWrite(KeyWrite, start.key, log)
  {
    LastWriteDecides(
      (r: Recording) => r.wantsKey, (r, ev) => Record(info, r, ev), (r: Recording) => r.key,
      KeyWrite, start, log);
  }

  /**
   It goes on until what it recorded last is let go: the key that was pressed last is released, or the axis
   that was accepted last gives a reading within half its half range.
   */
  lemma StopsExactly(info: AxisInfo, start: Recording, log: seq<Event>, ev: Event)
    ensures var r, p := Recorded(info, start, log), ParmsFor(info, if ev.Abs? then ev.code else 0);
      Finished(info, r, ev)
      <==> || (ev.Key? && start.wantsKey && ev.value == 0 && ev.code == r.key)
           || (ev.Abs? && start.wantsAbs && ev.code == r.axis
               && !(ev.value > p.avg + TruncDiv(p.range, 2)) && !(ev.value < p.avg - TruncDiv(p.range, 2)))
  {
    FoldKeeps(
      (r: Recording) => r.wantsKey == start.wantsKey && r.wantsAbs == start.wantsAbs, (r, ev) => Record(info, r, ev),
      start, log);
  }

  /**
   When the wizard stops on an axis that is let go, the axis is one of the readings it has seen, the
   last one it accepted, with the reversal under which that reading counts as positive.
   */
  lemma {:induction false} StopsOnAcceptedAxis(info: AxisInfo, start: Recording, log: seq<Event>, ev: Event)
    requires start.wantsAbs && start.axis == -1
    requires ev.Abs? && Finished(info, Recorded(info, start, log), ev)
    ensures var r := Recorded(info, start, log);
      exists k :: 0 <= k < |log| && AbsWrite(info, log[k]) == Some((r.axis, r.reverse))
               && forall j :: k < j < |log| ==> AbsWrite(info, log[j]).None?
  {
    var r := Recorded(info, start, log);
    FoldKeeps((r: Recording) => r.wantsAbs == start.wantsAbs, (r, ev) => Record(info, r, ev), start, log);
    LastAcceptedIsRecorded(info, start, log);
    LastWriteFound(ev => AbsWrite(info, ev), (start.axis, start.reverse), log);
  }

  // ---- what is recorded works ----

  /** The member that the wizard fills in when it asks for an axis. */
  function AskedAxis(axis: Control): (f: Field)
    ensures !IsFlag(f)
  {
    match axis
    case LeftX => AbsX
    case LeftY => AbsY
    case RightX => AbsRx
    case RightY => AbsRy
    case DpadX => AbsDpadX
    case DpadY => AbsDpadY
    case LeftTrigger => AbsZ
    case RightTrigger => AbsRz
  }

  /** No axis that the handler compares earlier was recorded with the same code. */
  ghost predicate AxisUnclaimed(m: Mapping, axis: Control, code: nat) {
    forall c :: AxisPlace(c) < AxisPlace(axis) ==> m[AskedAxis(c)].n != code
  }

  function AskedReverse(axis: Control): (f: Field)
    requires IsStick(axis)
    ensures IsFlag(f)
  {
    match axis
    case LeftX => ReverseX
    case LeftY => ReverseY
    case RightX => ReverseRx
    case RightY => ReverseRy
  }

  /** The member that the wizard fills in when it asks for a button, by the name it asks with. */
  function AskedButton(b: Button): (f: Field)
    ensures !IsFlag(f)
  {
    match b
    case LeftStick => BtnThumbl
    case RightStick => BtnThumbr
    case Right => BtnDpadRight
    case Left => BtnDpadLeft
    case Down => BtnDpadDown
    case Up => BtnDpadUp
    case X => BtnWest
    case A => BtnSouth
    case B => BtnEast
    case Y => BtnNorth
    case Back => BtnSelect
    case Play => BtnStart
    case Special => BtnMode
    case LeftShoulder => BtnTl
    case RightShoulder => BtnTr
  }

  /** The mapping as the handler loads it again over any other. */
  ghost function Reloaded(m: Mapping, before: Mapping): (loaded: Mapping)
    ensures loaded == m
  {
    MappingRoundTrip(m, before);
    LoadLines(FORMAT, before, Lines(SaveText(m)))
  }

  lemma RecordedAxisIsFound(m: Mapping, axis: Control, code: nat)
    requires m[AskedAxis(axis)].n == code && AxisUnclaimed(m, axis, code)
    ensures AxisOf(m, code) == Some(axis)
  {
    forall c | AxisPlace(c) < AxisPlace(axis) ensures Number(m, AxisField(c)) != code {
      assert m[AskedAxis(c)].n != code;
    }
    UnclaimedAxis(m, code, axis, 0);
  }

  /**
   End to end: record a stick axis, save the mapping, load it over any other, and use it on the same
   device after any events. Where the dead zone fits, and unless the axis was also recorded for one
   that is compared earlier, the reading that the wizard accepted moves the stick to at least a third
   of its positive range.
   */
  lemma RecordedAxisWorks(
    info: AxisInfo, m: Mapping, before: Mapping, axis: Control, reading: Event, log: seq<Event>)
    requires IsStick(axis) && reading.Abs? && reading.code <= SHRT_MAX
    requires AbsWrite(info, reading) == Some((m[AskedAxis(axis)].n, m[AskedReverse(axis)].on))
    requires AxisUnclaimed(m, axis, reading.code)
    requires Initialised(ParmsFor(info, reading.code)) && DeadZoneFits(ParmsFor(info, reading.code))
    ensures var loaded := Reloaded(m, before);
      StickOf(After(loaded, CalibrationFor(loaded, info), log + [reading]).pad, axis) >= 10922
  {
    var cal := CalibrationFor(m, info);
    FittingDeadZoneDeflects(reading.value, ParmsFor(info, reading.code));
    RecordedAxisIsFound(m, axis, reading.code);
    StickIsHistory(m, cal, log + [reading], axis);
    assert StickWrite(m, cal, axis, reading)
        == ConvertValue(reading.value, ParmsFor(info, reading.code), m[AskedReverse(axis)].on);
    assert (log + [reading])[|log|] == reading;
  }

  ghost predicate DpadRecorded(info: AxisInfo, m: Mapping, horizontal: bool, reading: Event) {
    var axis := if horizontal then DpadX else DpadY;
    && reading.Abs? && reading.code <= SHRT_MAX
    && AbsWrite(info, reading)
       == Some((m[AskedAxis(axis)].n, m[if horizontal then ReverseDpadX else ReverseDpadY].on))
    && AxisUnclaimed(m, axis, reading.code)
    && info(reading.code).min <= info(reading.code).max
  }

  lemma RecordedDpadIsWritten(info: AxisInfo, m: Mapping, horizontal: bool, reading: Event)
    requires DpadRecorded(info, m, horizontal, reading)
    ensures ButtonWrite(m, CalibrationFor(m, info), if horizontal then Right else Down, reading) == Some(true)
  {
    var r := info(reading.code);
    WizardAgreesWithDirection(reading.value, r.min, r.max, r.flat);
    RecordedAxisIsFound(m, if horizontal then DpadX else DpadY, reading.code);
  }

  /** The same for the d-pad: the direction that the wizard asked for is the one that goes down. */
  lemma RecordedDpadWorks(
    info: AxisInfo, m: Mapping, before: Mapping, horizontal: bool, reading: Event, log: seq<Event>)
    requires DpadRecorded(info, m, horizontal, reading)
    ensures var loaded := Reloaded(m, before);
      (if horizontal then Right else Down) in After(loaded, CalibrationFor(loaded, info), log + [reading]).pad.buttons
  {
    RecordedDpadIsWritten(info, m, horizontal, reading);
    ButtonIsHistory(m, CalibrationFor(m, info), log + [reading], if horizontal then Right else Down);
    assert (log + [reading])[|log|] == reading;
  }

  /**
   And for the buttons: a code that was not recorded for a button compared earlier sets its flag when
   pressed and clears it when released.
   */
  lemma RecordedButtonWorks(
    m: Mapping, before: Mapping, b: Button, code: nat, value: int, cal: Calibration, log: seq<Event>)
    requires IsPadKey(code) && m[AskedButton(b)].n == code
    requires forall c :: PlaceOf(c) < PlaceOf(b) ==> m[AskedButton(c)].n != code
    ensures b in After(Reloaded(m, before), cal, log + [Key(code, value)]).pad.buttons <==> value != 0
  {
    forall c | PlaceOf(c) < PlaceOf(b) ensures Number(m, ButtonField(c)) != code {
      assert m[AskedButton(c)].n != code;
    }
    UnclaimedButton(m, code, b, 0);
    ButtonIsHistory(m, cal, log + [Key(code, value)], b);
    assert (log + [Key(code, value)])[|log|] == Key(code, value);
  }

  // ---- triggers ----

  function TriggerOf(pad: Pad, left: bool): byte {
    if left then pad.leftTrigger else pad.rightTrigger
  }

  lemma TriggerIsHistory(m: Mapping, cal: Calibration, log: seq<Event>, left: bool)
    ensures TriggerOf(After(m, cal, log).pad, left) == LastWrite(ev => TriggerWrite(m, cal, left, ev), 0, log)
  {
    TriggersAreHistory(m, cal, log);
  }

  ghost predicate TriggerRecorded(info: AxisInfo, m: Mapping, left: bool, reading: Event) {
    var axis := if left then LeftTrigger else RightTrigger;
    && reading.Abs? && reading.code <= SHRT_MAX
    && AbsWrite(info, reading).Some? && AbsWrite(info, reading).value.0 == m[AskedAxis(axis)].n
    && AxisUnclaimed(m, axis, reading.code)
  }

  /** The side on which the wizard accepted a reading. */
  predicate Upper(info: AxisInfo, reading: Event)
    requires AbsWrite(info, reading).Some?
  {
    !AbsWrite(info, reading).value.1
  }

  /** What the trigger makes of the reading by which it was recorded, after any events and a reload. */
  lemma RecordedTriggerReads(
    info: AxisInfo, m: Mapping, left: bool, reading: Event, log: seq<Event>)
    requires TriggerRecorded(info, m, left, reading)
    requires ConvertByte(reading.value, ParmsFor(info, reading.code)).Some?
    ensures TriggerOf(After(m, CalibrationFor(m, info), log + [reading]).pad, left)
         == ConvertByte(reading.value, ParmsFor(info, reading.code)).value
  {
    var cal := CalibrationFor(m, info);
    RecordedAxisIsFound(m, if left then LeftTrigger else RightTrigger, reading.code);
    TriggerIsHistory(m, cal, log + [reading], left);
    assert (log + [reading])[|log|] == reading;
  }

  lemma AcceptedTriggerPulls(info: AxisInfo, reading: Event)
    requires AbsWrite(info, reading).Some?
    requires Initialised(ParmsFor(info, reading.code)) && TriggerFits(ParmsFor(info, reading.code))
    ensures var p := ParmsFor(info, reading.code);
      Pulled(reading.value, p) <==> Upper(info, reading) || WrapsPastHalf(reading.value, p)
  {
    var p := ParmsFor(info, reading.code);
    if Upper(info, reading) {
      HighSidePulls(reading.value, p);
    } else {
      LowSidePullsExactly(reading.value, p);
    }
  }

  /**
   For a trigger the wizard drops the reversal, and scaling has none: an accepted reading, unless it
   divides by zero, pulls the trigger past half exactly when it was accepted on the upper side or wraps.
   */
  lemma RecordedTriggerWorks(
    info: AxisInfo, m: Mapping, before: Mapping, left: bool, reading: Event, log: seq<Event>)
    requires TriggerRecorded(info, m, left, reading)
    requires Initialised(ParmsFor(info, reading.code)) && TriggerFits(ParmsFor(info, reading.code))
    requires ConvertByte(reading.value, ParmsFor(info, reading.code)).Some?
    ensures var loaded := Reloaded(m, before);
      TriggerOf(After(loaded, CalibrationFor(loaded, info), log + [reading]).pad, left) >= 128
      <==> Upper(info, reading) || WrapsPastHalf(reading.value, ParmsFor(info, reading.code))
  {
    AcceptedTriggerPulls(info, reading);
    RecordedTriggerReads(info, m, left, reading, log);
  }

  /** A trigger recorded as a key that is no button, nor for the right one the left trigger, is all or nothing. */
  lemma RecordedTriggerKeyWorks(
    m: Mapping, before: Mapping, left: bool, code: nat, value: int, cal: Calibration, log: seq<Event>)
    requires IsPadKey(code) && m[if left then BtnTl2 else BtnTr2].n == code
    requires (forall c :: m[AskedButton(c)].n != code) && (left || m[BtnTl2].n != code)
    ensures TriggerOf(After(Reloaded(m, before), cal, log + [Key(code, value)]).pad, left)
         == if value != 0 then UCHAR_MAX else 0
  {
    forall c ensures Number(m, ButtonField(c)) != code {
      assert m[AskedButton(c)].n != code;
    }
    MatchedButton(m, code, 0);
    TriggerIsHistory(m, cal, log + [Key(code, value)], left);
    assert (log + [Key(code, value)])[|log|] == Key(code, value);
  }
}
