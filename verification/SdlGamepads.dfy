/**
 The gamepads of the SDL input code (src/input/sdlinput.c): four slots that are handed out to the
 controllers in the order in which they are first heard of.
 */
module SdlGamepads {
  import opened CTypes
  import opened Folding
  import opened Limelight
  import opened Options

  const SLOTS := 4

  datatype Axis = StickLX | StickLY | StickRX | StickRY | TriggerL | TriggerR | OtherAxis

  /** A controller event; a button that the code does not know is `None`. */
  datatype Event =
    | AxisMotion(which: int, axis: Axis, value: short)
    | ButtonChange(which: int, button: Option<Button>, down: bool)

  datatype Slot = Slot(pad: Pad, sdlId: int, id: short, initialized: bool)

  const ZERO_SLOT := Slot(ZERO_PAD, 0, 0, false)

  function TriggerByte(value: short): byte {
    ToByte(value / 256 + 127)
  }

  /** The control of an event is one that the code handles. */
  predicate Known(e: Event) {
    match e
    case AxisMotion(_, axis, _) => axis != OtherAxis
    case ButtonChange(_, button, _) => button.Some?
  }

  /** The code's `-value - 1`: SDL's downward axis turned upward, within a short. */
  function Inverted(value: short): short {
    -1 - (value as int)
  }

  function PadStep(pad: Pad, e: Event): Pad {
    match e
    case AxisMotion(_, StickLX, v) => pad.(leftStickX := v)
    case AxisMotion(_, StickLY, v) => pad.(leftStickY := Inverted(v))
    case AxisMotion(_, StickRX, v) => pad.(rightStickX := v)
    case AxisMotion(_, StickRY, v) => pad.(rightStickY := Inverted(v))
    case AxisMotion(_, TriggerL, v) => pad.(leftTrigger := TriggerByte(v))
    case AxisMotion(_, TriggerR, v) => pad.(rightTrigger := TriggerByte(v))
    case AxisMotion(_, OtherAxis, _) => pad
    case ButtonChange(_, None, _) => pad
    case ButtonChange(_, Some(b), down) => pad.(buttons := if down then pad.buttons + {b} else pad.buttons - {b})
  }

  // ---- what the slots hold, as a function of the events so far ----

  /** The first four distinct controllers, in the order of their first events. */
  function Assigned(log: seq<Event>): (ids: seq<int>)
    ensures |ids| <= SLOTS
  {
    if log == [] then []
    else
      var ids, id := Assigned(log[..|log| - 1]), log[|log| - 1].which;
      if id in ids || |ids| == SLOTS then ids else ids + [id]
  }

  function IndexOf(ids: seq<int>, id: int): (i: nat)
    requires id in ids
    ensures i < |ids| && ids[i] == id
  {
    if ids[0] == id then 0 else 1 + IndexOf(ids[1..], id)
  }

  /** The slot of a controller: its place among the first four, and slot 0 for all others. */
  function SlotFor(ids: seq<int>, id: int): nat {
    if id in ids then IndexOf(ids, id) else 0
  }

  /** The events that belong to a slot. */
  function EventsFor(log: seq<Event>, slot: nat): seq<Event> {
    Filter((e: Event) => SlotFor(Assigned(log), e.which) == slot, log)
  }

  /** The state of a slot: assigned in order, under its own number, with the pad that its events add up to. */
  ghost predicate SlotHolds(slot: Slot, log: seq<Event>, i: nat) {
    && slot.pad == Fold(PadStep, ZERO_PAD, EventsFor(log, i))
    && NumberedBy(slot, Assigned(log), i)
  }

  ghost predicate NumberedBy(slot: Slot, ids: seq<int>, i: nat) {
    && (slot.initialized <==> i < |ids|)
    && (slot.initialized ==> slot.sdlId == ids[i] && slot.id == i)
  }

  ghost predicate Distinct(ids: seq<int>) {
    forall i, j :: 0 <= i < j < |ids| ==> ids[i] != ids[j]
  }

  /** A slot after a controller has been looked up: the first free one is claimed for one not heard of before. */
  function Claim(slot: Slot, ids: seq<int>, id: int, i: short): Slot {
    if id !in ids && |ids| < SLOTS && i == |ids| then slot.(sdlId := id, id := i, initialized := true) else slot
  }

  /** A slot after an event. */
  function SlotStep(slot: Slot, log: seq<Event>, e: Event, i: short): Slot {
    var claimed := Claim(slot, Assigned(log), e.which, i);
    if i == SlotFor(Assigned(log + [e]), e.which) then claimed.(pad := PadStep(claimed.pad, e)) else claimed
  }

  class Gamepads {
    var gamepads: array<Slot>
    ghost var log: seq<Event>

    ghost predicate Valid()
      reads this, gamepads
    {
      gamepads.Length == SLOTS && forall i :: 0 <= i < SLOTS ==> SlotHolds(gamepads[i], log, i)
    }

    constructor ()
      ensures Valid() && log == [] && fresh(gamepads)
    {
      gamepads := new Slot[SLOTS](_ => ZERO_SLOT);
      log := [];
    }

    /** The slot of a controller; the first free one is taken for a controller not heard of before. */
    method GetGamepad(sdlId: int, ghost ids: seq<int>) returns (slot: nat)
      requires gamepads.Length == SLOTS && |ids| <= SLOTS
      requires Distinct(ids) && forall i :: 0 <= i < SLOTS ==> NumberedBy(gamepads[i], ids, i)
      modifies gamepads
      ensures slot < SLOTS
      ensures slot == if sdlId !in ids && |ids| < SLOTS then |ids| else SlotFor(ids, sdlId)
      ensures forall i :: 0 <= i < SLOTS ==> gamepads[i] == Claim(old(gamepads[i]), ids, sdlId, i)
    {
      for i := 0 to 4
        invariant gamepads[..] == old(gamepads[..])
        invariant i <= |ids| && forall k :: 0 <= k < i ==> ids[k] != sdlId
      {
        assert NumberedBy(gamepads[i], ids, i);
        if !gamepads[i].initialized {
          gamepads[i] := gamepads[i].(sdlId := sdlId, id := i, initialized := true);
          return i;
        } else if gamepads[i].sdlId == sdlId {
          IndexOfUnique(ids, sdlId, i);
          return i;
        }
      }
      slot := 0;
    }

    /** The member of the pad that an event addresses. */
    method UpdatePad(start: Pad, e: Event) returns (pad: Pad)
      ensures pad == PadStep(start, e)
    {
      pad := start;
      match e {
        case AxisMotion(_, axis, value) =>
          match axis {
            case StickLX => pad := pad.(leftStickX := value);
            case StickLY => pad := pad.(leftStickY := Inverted(value));
            case StickRX => pad := pad.(rightStickX := value);
            case StickRY => pad := pad.(rightStickY := Inverted(value));
            case TriggerL => pad := pad.(leftTrigger := TriggerByte(value));
            case TriggerR => pad := pad.(rightTrigger := TriggerByte(value));
            case OtherAxis =>
          }
        case ButtonChange(_, button, down) =>
          if button.Some? {
            if down {
              pad := pad.(buttons := pad.buttons + {button.value});
            } else {
              pad := pad.(buttons := pad.buttons - {button.value});
            }
          }
      }
    }

    /** A controller event: the slot it falls to, and the packet it sends if its control is known. */
    method HandleEvent(e: Event) returns (slot: nat, packet: Option<Packet>)
      requires Valid()
      modifies this, gamepads
      ensures Valid() && log == old(log) + [e] && gamepads == old(gamepads)
      ensures slot == SlotFor(Assigned(log), e.which) < SLOTS
      ensures packet == if Known(e) then Some(Controller(gamepads[slot].id, gamepads[slot].pad)) else None
      ensures Known(e) ==> gamepads[slot].id == slot
    {
      ghost var before := gamepads[..];
      AssignedDistinct(log);
      slot := GetGamepad(e.which, Assigned(log));
      SlotOfLatest(log, e);
      packet := None;
      if Known(e) {
        var pad := UpdatePad(gamepads[slot].pad, e);
        gamepads[slot] := gamepads[slot].(pad := pad);
        packet := Some(Controller(gamepads[slot].id, gamepads[slot].pad));
      } else {
        UnknownChangesNothing(gamepads[slot].pad, e);
      }
      forall i | 0 <= i < SLOTS ensures SlotHolds(gamepads[i], log + [e], i) {
        assert gamepads[i] == SlotStep(before[i], log, e, i);
        SlotExtend(before[i], log, e, i);
      }
      log := log + [e];
    }
  }

  lemma {:induction false} AssignedDistinct(log: seq<Event>)
    ensures Distinct(Assigned(log))
  {
    if log != [] {
      AssignedDistinct(log[..|log| - 1]);
    }
  }

  lemma AssignedExtend(log: seq<Event>, e: Event)
    ensures var ids := Assigned(log);
      Assigned(log + [e]) == if e.which in ids || |ids| == SLOTS then ids else ids + [e.which]
  {
    assert (log + [e])[..|log|] == log;
  }

  lemma {:induction false} IndexOfUnique(ids: seq<int>, id: int, i: nat)
    requires i < |ids| && ids[i] == id
    requires Distinct(ids)
    ensures IndexOf(ids, id) == i
  {
    if i > 0 {
      assert ids[0] != ids[i];
      IndexOfUnique(ids[1..], id, i - 1);
    }
  }

  /** A controller keeps its slot: what comes later does not change where it is routed. */
  lemma SlotIsKept(log: seq<Event>, e: Event, id: int)
    requires id in Assigned(log) || |Assigned(log)| == SLOTS
    ensures SlotFor(Assigned(log + [e]), id) == SlotFor(Assigned(log), id)
  {
    AssignedExtend(log, e);
    AssignedDistinct(log + [e]);
    var ids := Assigned(log);
    if id in ids {
      var i := IndexOf(ids, id);
      assert Assigned(log + [e])[i] == id;
      IndexOfUnique(Assigned(log + [e]), id, i);
    }
  }

  /** Every controller heard of has its slot, or all slots are taken. */
  lemma {:induction false} HeardOfIsRouted(log: seq<Event>, k: nat)
    requires k < |log|
    ensures log[k].which in Assigned(log) || |Assigned(log)| == SLOTS
  {
    var front := log[..|log| - 1];
    if k < |front| {
      HeardOfIsRouted(front, k);
    }
  }

  lemma {:induction false} FilterAgrees<E>(p: E -> bool, q: E -> bool, es: seq<E>)
    requires forall e :: e in es ==> p(e) == q(e)
    ensures Filter(p, es) == Filter(q, es)
  {
    if es != [] {
      FilterAgrees(p, q, es[..|es| - 1]);
    }
  }

  lemma EventsForExtend(log: seq<Event>, e: Event, slot: nat)
    ensures EventsFor(log + [e], slot)
         == EventsFor(log, slot) + if SlotFor(Assigned(log + [e]), e.which) == slot then [e] else []
  {
    var p := (x: Event) => SlotFor(Assigned(log), x.which) == slot;
    var q := (x: Event) => SlotFor(Assigned(log + [e]), x.which) == slot;
    forall x | x in log ensures p(x) == q(x) {
      var k :| 0 <= k < |log| && log[k] == x;
      HeardOfIsRouted(log, k);
      SlotIsKept(log, e, x.which);
    }
    FilterAgrees(p, q, log);
    assert (log + [e])[..|log|] == log;
  }

  lemma UnknownChangesNothing(pad: Pad, e: Event)
    requires !Known(e)
    ensures PadStep(pad, e) == pad
  {
  }

  /** The slot of the controller that has just been heard. */
  lemma SlotOfLatest(log: seq<Event>, e: Event)
    ensures var ids := Assigned(log);
      SlotFor(Assigned(log + [e]), e.which)
      == if e.which !in ids && |ids| < SLOTS then |ids| else SlotFor(ids, e.which)
    ensures SlotFor(Assigned(log + [e]), e.which) < |Assigned(log + [e])|
  {
    AssignedExtend(log, e);
    if e.which !in Assigned(log) && |Assigned(log)| < SLOTS {
      AssignedDistinct(log + [e]);
      IndexOfUnique(Assigned(log + [e]), e.which, |Assigned(log)|);
    }
  }

  // ---- the pads as history ----

  function AxisValue(pad: Pad, axis: Axis): int
    requires axis != OtherAxis
  {
    match axis
    case StickLX => pad.leftStickX
    case StickLY => pad.leftStickY
    case StickRX => pad.rightStickX
    case StickRY => pad.rightStickY
    case TriggerL => pad.leftTrigger
    case TriggerR => pad.rightTrigger
  }

  /** What a reading of an axis means to the host: vertical axes turned over, triggers in the high byte alone. */
  function AxisWrite(axis: Axis, e: Event): Option<int> {
    if !e.AxisMotion? || e.axis != axis then None
    else if axis in {StickLY, StickRY} then Some(-1 - e.value)
    else if axis in {TriggerL, TriggerR} then Some(TriggerByte(e.value))
    else Some(e.value)
  }

  function ButtonWrite(b: Button, e: Event): Option<bool> {
    if e.ButtonChange? && e.button == Some(b) then Some(e.down) else None
  }

  /** A button is down exactly when the last event about it that fell to the slot pressed it. */
  lemma SlotButtonIsHistory(slot: Slot, log: seq<Event>, i: nat, b: Button)
    requires SlotHolds(slot, log, i)
    ensures b in slot.pad.buttons <==> LastWrite(e => ButtonWrite(b, e), false, EventsFor(log, i))
  {
    LastWriteDecides(
      (pad: Pad) => true, PadStep, (pad: Pad) => b in pad.buttons, e => ButtonWrite(b, e),
      ZERO_PAD, EventsFor(log, i));
  }

  /**
   From -32512 upwards a trigger counts steps of 256, of which 127 are below 0: one that is released,
   which reads 0, sends 127, and only readings about the lower end of the axis send 0. The very lowest
   wrap to fully pulled, which no other reading gives.
   */
  lemma TriggerBytesExactly(v: short)
    ensures v >= -32512 ==> 256 * (TriggerByte(v) - 127) <= v < 256 * (TriggerByte(v) - 126)
    ensures TriggerByte(v) == 0 <==> -32512 <= v <= -32257
    ensures TriggerByte(v) == UCHAR_MAX <==> v < -32512
    ensures TriggerByte(v) == 127 <==> 0 <= v <= 255
    ensures forall w: short :: -32512 <= v <= w ==> TriggerByte(v) <= TriggerByte(w)
  {
  }

  /** And each axis holds its last reading. */
  lemma SlotAxisIsHistory(slot: Slot, log: seq<Event>, i: nat, axis: Axis)
    requires SlotHolds(slot, log, i) && axis != OtherAxis
    ensures AxisValue(slot.pad, axis) == LastWrite(e => AxisWrite(axis, e), 0, EventsFor(log, i))
  {
    LastWriteDecides(
      (pad: Pad) => true, PadStep, (pad: Pad) => AxisValue(pad, axis), e => AxisWrite(axis, e),
      ZERO_PAD, EventsFor(log, i));
  }

  lemma ClaimKeepsNumbers(before: Slot, log: seq<Event>, e: Event, i: short)
    requires 0 <= i < SLOTS && NumberedBy(before, Assigned(log), i)
    ensures NumberedBy(Claim(before, Assigned(log), e.which, i), Assigned(log + [e]), i)
  {
    AssignedExtend(log, e);
  }

  lemma SlotExtend(before: Slot, log: seq<Event>, e: Event, i: short)
    requires 0 <= i < SLOTS && SlotHolds(before, log, i)
    ensures SlotHolds(SlotStep(before, log, e, i), log + [e], i)
  {
    ClaimKeepsNumbers(before, log, e, i);
    EventsForExtend(log, e, i);
    FoldExtend(PadStep, ZERO_PAD, EventsFor(log, i), e);
    assert EventsFor(log, i) + [] == EventsFor(log, i);
  }

  /**
   Routing over a whole run: at every point, the slot that a controller's event fell to is the one it
   has at the end; two of the first four controllers never share a slot, and every other one falls
   to slot 0.
   */
  lemma {:induction false} RoutingIsStable(log: seq<Event>, k: nat)
    requires k < |log|
    ensures SlotFor(Assigned(log[..k + 1]), log[k].which) == SlotFor(Assigned(log), log[k].which)
    decreases |log|
  {
    if k + 1 == |log| {
      assert log[..k + 1] == log;
    } else {
      var front, last := log[..|log| - 1], log[|log| - 1];
      RoutingIsStable(front, k);
      assert front[..k + 1] == log[..k + 1] && front + [last] == log;
      HeardOfIsRouted(front, k);
      SlotIsKept(front, last, log[k].which);
    }
  }

  lemma FirstFourAreApart(log: seq<Event>, a: int, b: int)
    requires a in Assigned(log) && a != b
    ensures b in Assigned(log) ==> SlotFor(Assigned(log), a) != SlotFor(Assigned(log), b)
    ensures b !in Assigned(log) ==> SlotFor(Assigned(log), b) == 0
  {
  }

  /** The controllers heard of in a run. */
  function Heard(log: seq<Event>): set<int> {
    set e | e in log :: e.which
  }

  lemma HeardExtend(log: seq<Event>, e: Event)
    ensures Heard(log + [e]) == Heard(log) + {e.which}
  {
  }

  /** While no more than four controllers have been heard of, each has a slot of its own; then all four are taken. */
  lemma {:induction false} FirstFourAreAssigned(log: seq<Event>)
    ensures |Assigned(log)| == if |Heard(log)| < 4 then |Heard(log)| else 4
    ensures |Heard(log)| <= 4 ==> forall id :: id in Heard(log) <==> id in Assigned(log)
    ensures forall id :: id in Assigned(log) ==> id in Heard(log)
  {
    if log != [] {
      var front, last := log[..|log| - 1], log[|log| - 1];
      FirstFourAreAssigned(front);
      assert log == front + [last];
      AssignedExtend(front, last);
      HeardExtend(front, last);
      if last.which in Heard(front) {
        assert Heard(log) == Heard(front);
      } else {
        assert |Heard(log)| == |Heard(front)| + 1;
      }
    }
  }
}
