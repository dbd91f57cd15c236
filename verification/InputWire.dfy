/**
 What the host receives from all devices together (src/input/evdev.c): one sequence of packets, in which
 the controller packets of a device are told apart by its controller id alone.
 */
module InputWire {
  import opened Evdev
  import opened Folding
  import opened GamepadMapping
  import opened InputTable
  import opened Limelight
  import opened Options

  /** The packets that one action of a run sends. */
  function SentBy(w: World, a: Action): seq<Packet> {
    match a
    case Input(i, ev) => if i < |w.table| then EventSends(w.mask, w.table[i], ev) else []
    case _ => []
  }

  function EventSends(mask: set<nat>, t: Tracked, ev: Event): seq<Packet> {
    Packets(t.dev.(controllerId := Feed(mask, t, ev).1.dev.controllerId), ev)
  }

  /** All packets of a run. */
  function Wire(actions: seq<Action>): seq<Packet> {
    if actions == [] then []
    else
      var front := actions[..|actions| - 1];
      Wire(front) + SentBy(Run(front), actions[|actions| - 1])
  }

  lemma RunExtend(actions: seq<Action>, a: Action)
    ensures Run(actions + [a]) == Apply(Run(actions), a)
    ensures Wire(actions + [a]) == Wire(actions) + SentBy(Run(actions), a)
  {
    assert (actions + [a])[..|actions|] == actions;
  }

  function PadFor(id: int, p: Packet): Option<Pad> {
    match p
    case Controller(of, pad) => if of == id then Some(pad) else None
    case _ => None
  }

  /** The pad that the host has seen last under a controller id. */
  function LastFor(id: int, wire: seq<Packet>): Pad {
    LastWrite(p => PadFor(id, p), ZERO_PAD, wire)
  }

  lemma LastForMany(id: int, wire: seq<Packet>, more: seq<Packet>)
    requires |more| <= 1
    ensures LastFor(id, wire + more)
         == if more != [] && PadFor(id, more[0]).Some? then PadFor(id, more[0]).value else LastFor(id, wire)
  {
    if more == [] {
      assert wire + more == wire;
    } else {
      assert (wire + more)[..|wire|] == wire;
    }
  }

  /** An event puts on the wire, under an id, at most the pad of the device that holds it. */
  lemma LastForPackets(id: int, wire: seq<Packet>, d: Device, ev: Event)
    ensures LastFor(id, wire + Packets(d, ev))
         == if Commits(d, ev) && d.controllerId == id then d.pad else LastFor(id, wire)
  {
    if ev == Syn {
      var move, scroll, pad := MovePackets(d), ScrollPackets(d), PadPackets(d);
      assert wire + Packets(d, Syn) == wire + move + scroll + pad;
      LastForMany(id, wire, move);
      LastForMany(id, wire + move, scroll);
      LastForMany(id, wire + move + scroll, pad);
    } else {
      LastForMany(id, wire, Packets(d, ev));
    }
  }

  // ---- under ids that are not shared the host sees every pad ----

  /** Under every id held from `least` on, the host has seen last what the holder sent last. */
  ghost predicate ShowsHolders(wire: seq<Packet>, table: seq<Tracked>, least: nat) {
    forall t :: t in table && t.dev.controllerId >= least
      ==> LastFor(t.dev.controllerId, wire) == LastPad(t.sent)
  }

  /** The ids from `least` on are not shared. */
  ghost predicate DistinctFrom(ids: seq<int>, least: nat) {
    forall j, k :: 0 <= j < k < |ids| && ids[j] >= least ==> ids[j] != ids[k]
  }

  lemma InputShowsHolders(wire: seq<Packet>, w: World, i: nat, ev: Event, least: nat)
    requires ShowsHolders(wire, w.table, least) && i < |w.table|
    requires DistinctFrom(Ids(Apply(w, Input(i, ev))), least)
    ensures ShowsHolders(wire + SentBy(w, Input(i, ev)), Apply(w, Input(i, ev)).table, least)
  {
    var before, after := w.table[i], Apply(w, Input(i, ev)).table;
    var d := before.dev.(controllerId := after[i].dev.controllerId);
    FeedId(w.mask, before, ev);
    SentPackets(before.sent, d, ev);
    forall k | 0 <= k < |after| && after[k].dev.controllerId >= least
      ensures LastFor(after[k].dev.controllerId, wire + SentBy(w, Input(i, ev))) == LastPad(after[k].sent)
    {
      LastForPackets(after[k].dev.controllerId, wire, d, ev);
      if k == i {
        assert before in w.table;
      } else {
        assert w.table[k] in w.table;
        assert Ids(Apply(w, Input(i, ev)))[k] != Ids(Apply(w, Input(i, ev)))[i];
      }
    }
  }

  lemma ActionShowsHolders(wire: seq<Packet>, w: World, a: Action, least: nat)
    requires ShowsHolders(wire, w.table, least) && DistinctFrom(Ids(Apply(w, a)), least)
    ensures ShowsHolders(wire + SentBy(w, a), Apply(w, a).table, least)
  {
    match a
    case Input(i, ev) =>
      if i < |w.table| { InputShowsHolders(wire, w, i, ev, least); } else { assert wire + [] == wire; }
    case _ => assert wire + [] == wire;
  }

  lemma {:induction false} ShowsHoldersUpTo(actions: seq<Action>, n: nat, least: nat)
    requires n <= |actions|
    requires forall k :: 0 <= k <= |actions| ==> DistinctFrom(Ids(Run(actions[..k])), least)
    ensures ShowsHolders(Wire(actions[..n]), Run(actions[..n]).table, least)
  {
    if n > 0 {
      ShowsHoldersUpTo(actions, n - 1, least);
      assert actions[..n] == actions[..n - 1] + [actions[n - 1]];
      ShowsHoldersExtends(actions[..n - 1], actions[n - 1], least);
    }
  }

  lemma ShowsHoldersExtends(front: seq<Action>, last: Action, least: nat)
    requires ShowsHolders(Wire(front), Run(front).table, least)
    requires DistinctFrom(Ids(Run(front + [last])), least)
    ensures ShowsHolders(Wire(front + [last]), Run(front + [last]).table, least)
  {
    RunExtend(front, last);
    ActionShowsHolders(Wire(front), Run(front), last, least);
  }

  /** The device has an id and no update pending: the host should know its pad. */
  predicate Settled(d: Device) {
    d.controllerId >= 0 && !d.gamepadModified
  }

  lemma ShownWhereDistinct(actions: seq<Action>, i: nat, least: nat)
    requires forall k :: 0 <= k <= |actions| ==> DistinctFrom(Ids(Run(actions[..k])), least)
    requires i < |Run(actions).table| && Settled(Run(actions).table[i].dev)
    requires Run(actions).table[i].dev.controllerId >= least
    ensures LastFor(Run(actions).table[i].dev.controllerId, Wire(actions)) == Run(actions).table[i].dev.pad
  {
    assert actions[..|actions|] == actions;
    ShowsHoldersUpTo(actions, |actions|, least);
    DevicesOverRuns(actions);
    assert Run(actions).table[i] in Run(actions).table;
  }

  /**
   In every run, whatever the number of gamepads, the host has seen last, under the id of a settled
   device with an id other than 0, the current pad of the device, whoever held the id before.
   */
  lemma HostSeesPadsAboveZero(actions: seq<Action>, i: nat)
    requires i < |Run(actions).table| && Settled(Run(actions).table[i].dev)
    requires Run(actions).table[i].dev.controllerId >= 1
    ensures LastFor(Run(actions).table[i].dev.controllerId, Wire(actions)) == Run(actions).table[i].dev.pad
  {
    forall k | 0 <= k <= |actions| ensures DistinctFrom(Ids(Run(actions[..k])), 1) {
      MaskOverRuns(actions[..k]);
    }
    ShownWhereDistinct(actions, i, 1);
  }

  /** While never more than four devices hold ids, that is so of every id. */
  lemma HostSeesPads(actions: seq<Action>, i: nat)
    requires forall k :: 0 <= k <= |actions| ==> AtMostFourAfter(actions, k)
    requires i < |Run(actions).table| && Settled(Run(actions).table[i].dev)
    ensures LastFor(Run(actions).table[i].dev.controllerId, Wire(actions)) == Run(actions).table[i].dev.pad
  {
    forall k | 0 <= k <= |actions| ensures DistinctFrom(Ids(Run(actions[..k])), 0) {
      ExactUpTo(actions, k);
    }
    ShownWhereDistinct(actions, i, 0);
  }

  // ---- exactly when it does not ----

  /** The host has seen the current pad of every settled device. */
  ghost predicate SeesAll(wire: seq<Packet>, table: seq<Tracked>) {
    forall k :: 0 <= k < |table| && Settled(table[k].dev)
      ==> LastFor(table[k].dev.controllerId, wire) == table[k].dev.pad
  }

  /** The action sends the pad of a device under an id that a settled device with a different pad holds. */
  ghost predicate Hides(w: World, a: Action) {
    && a.Input? && a.device < |w.table| && Commits(w.table[a.device].dev, a.ev)
    && exists j :: 0 <= j < |w.table| && HiddenBy(w, a.device, j)
  }

  predicate HiddenBy(w: World, i: nat, j: nat)
    requires i < |w.table| && j < |w.table|
  {
    && j != i && Settled(w.table[j].dev)
    && w.table[j].dev.controllerId == AssignId(w.mask, w.table[i].dev.controllerId).1
    && w.table[j].dev.pad != w.table[i].dev.pad
  }

  /** What an event does to what the host sees of its own device, and of any other. */
  lemma InputOnSight(wire: seq<Packet>, w: World, i: nat, ev: Event, k: nat)
    requires i < |w.table| && k < |w.table|
    ensures var now := Apply(w, Input(i, ev)).table[k].dev;
      var sight := LastFor(now.controllerId, wire + SentBy(w, Input(i, ev)));
      if k == i then
        if Commits(w.table[i].dev, ev) then Settled(now) && sight == now.pad
        else Settled(now) ==> Settled(w.table[i].dev) && now.pad == w.table[i].dev.pad
                              && sight == LastFor(w.table[i].dev.controllerId, wire)
      else
        && now == w.table[k].dev
        && sight == if Commits(w.table[i].dev, ev)
                       && AssignId(w.mask, w.table[i].dev.controllerId).1 == now.controllerId
                    then w.table[i].dev.pad else LastFor(now.controllerId, wire)
  {
    var d := w.table[i].dev.(controllerId := Feed(w.mask, w.table[i], ev).1.dev.controllerId);
    FeedId(w.mask, w.table[i], ev);
    LastForPackets(Apply(w, Input(i, ev)).table[k].dev.controllerId, wire, d, ev);
    if k == i && !Step(d, ev).gamepadModified { QuietStep(d, ev); }
  }

  lemma HiddenPadIsNotSeen(wire: seq<Packet>, w: World, i: nat, j: nat)
    requires i < |w.table| && j < |w.table| && w.table[i].dev.gamepadModified && HiddenBy(w, i, j)
    ensures !SeesAll(wire + SentBy(w, Input(i, Syn)), Apply(w, Input(i, Syn)).table)
  {
    InputOnSight(wire, w, i, Syn, j);
    assert Settled(Apply(w, Input(i, Syn)).table[j].dev);
  }

  /** Where the host sees all settled devices, it still does after an action exactly if that does not hide one. */
  lemma SightExactly(wire: seq<Packet>, w: World, a: Action)
    requires SeesAll(wire, w.table)
    ensures SeesAll(wire + SentBy(w, a), Apply(w, a).table) <==> !Hides(w, a)
  {
    match a
    case Input(i, ev) =>
      if Hides(w, a) {
        var j :| 0 <= j < |w.table| && HiddenBy(w, i, j);
        HiddenPadIsNotSeen(wire, w, i, j);
      } else if i < |w.table| {
        forall k | 0 <= k < |w.table| && Settled(Apply(w, a).table[k].dev)
          ensures LastFor(Apply(w, a).table[k].dev.controllerId, wire + SentBy(w, a)) == Apply(w, a).table[k].dev.pad
        {
          InputOnSight(wire, w, i, ev, k);
          assert !Commits(w.table[i].dev, ev) || !HiddenBy(w, i, k);
        }
      } else {
        assert wire + [] == wire;
      }
    case _ => assert wire + [] == wire;
  }

  ghost predicate SeesAllAfter(actions: seq<Action>, n: nat)
    requires n <= |actions|
  {
    SeesAll(Wire(actions[..n]), Run(actions[..n]).table)
  }

  ghost predicate HidesAt(actions: seq<Action>, n: nat)
    requires n < |actions|
  {
    Hides(Run(actions[..n]), actions[n])
  }

  lemma SightExtends(actions: seq<Action>, n: nat)
    requires n < |actions| && SeesAllAfter(actions, n)
    ensures SeesAllAfter(actions, n + 1) <==> !HidesAt(actions, n)
  {
    assert actions[..n + 1] == actions[..n] + [actions[n]];
    RunExtend(actions[..n], actions[n]);
    SightExactly(Wire(actions[..n]), Run(actions[..n]), actions[n]);
  }

  lemma {:induction false} SightUpTo(actions: seq<Action>, n: nat)
    requires n <= |actions| && forall k :: 0 <= k < |actions| ==> !HidesAt(actions, k)
    ensures SeesAllAfter(actions, n)
  {
    if n > 0 {
      SightUpTo(actions, n - 1);
      SightExtends(actions, n - 1);
    }
  }

  /** Throughout a run the host sees the pads of all settled devices if and only if no action of it hides one. */
  lemma HostSeesAllExactly(actions: seq<Action>)
    ensures (forall n :: 0 <= n <= |actions| ==> SeesAllAfter(actions, n))
       <==> (forall n :: 0 <= n < |actions| ==> !HidesAt(actions, n))
  {
    if forall n :: 0 <= n <= |actions| ==> SeesAllAfter(actions, n) {
      forall n | 0 <= n < |actions| ensures !HidesAt(actions, n) {
        assert SeesAllAfter(actions, n) && SeesAllAfter(actions, n + 1);
        SightExtends(actions, n);
      }
    }
    if forall n :: 0 <= n < |actions| ==> !HidesAt(actions, n) {
      forall n | 0 <= n <= |actions| ensures SeesAllAfter(actions, n) {
        SightUpTo(actions, n);
      }
    }
  }

  // ---- a run that does not ----

  /** A gamepad is connected, an event reaches it, and with the synchronisation its first update is sent. */
  function Connected(m: Mapping, cal: Calibration, ev: Event, n: nat): seq<Action> {
    if n == 0 then [] else Connected(m, cal, ev, n - 1) + [Add(m, cal)] + [Input(n - 1, ev)] + [Input(n - 1, Syn)]
  }

  /** The pad of a fresh device after its first event. */
  function PadAfter(m: Mapping, cal: Calibration, ev: Event): Pad {
    Step(Fresh(m, cal), ev).pad
  }

  /** An event that changes the pad of a fresh device, or sets it again. */
  predicate Touches(m: Mapping, cal: Calibration, ev: Event) {
    ev != Syn && Step(Fresh(m, cal), ev).gamepadModified
  }

  /** The first `n` devices of the table are settled, with the ids in order and this pad. */
  ghost predicate Seated(w: World, n: nat, pad: Pad) {
    && n <= 4 && n <= |w.table|
    && (forall i: nat :: i in w.mask <==> i < n)
    && (forall k: nat :: k < n ==> SeatedAt(w.table[k].dev, k, pad))
  }

  predicate SeatedAt(d: Device, k: nat, pad: Pad) {
    d.controllerId == k && !d.gamepadModified && d.pad == pad
  }

  /** One more device has been touched, but not synchronised. */
  ghost predicate Touched(w: World, n: nat, d: Device) {
    |w.table| == n + 1 && w.table[n].dev == d
  }

  lemma TouchNext(m: Mapping, cal: Calibration, ev: Event, actions: seq<Action>, n: nat, pad: Pad)
    requires Seated(Run(actions), n, pad) && |Run(actions).table| == n && Touches(m, cal, ev)
    ensures var w := Run(actions + [Add(m, cal)] + [Input(n, ev)]);
      Seated(w, n, pad) && Touched(w, n, Step(Fresh(m, cal), ev))
  {
    RunExtend(actions, Add(m, cal));
    RunExtend(actions + [Add(m, cal)], Input(n, ev));
    TouchStep(m, cal, ev, Run(actions), n, pad);
  }

  lemma TouchStep(m: Mapping, cal: Calibration, ev: Event, w: World, n: nat, pad: Pad)
    requires Seated(w, n, pad) && |w.table| == n && Touches(m, cal, ev)
    ensures var touched := Apply(Apply(w, Add(m, cal)), Input(n, ev));
      Seated(touched, n, pad) && Touched(touched, n, Step(Fresh(m, cal), ev))
  {
    var added := Apply(w, Add(m, cal));
    FeedId(added.mask, added.table[n], ev);
    assert Fresh(m, cal).(controllerId := -1) == Fresh(m, cal);
  }

  lemma SeatNext(w: World, n: nat, d: Device)
    requires n < 4 && Seated(w, n, d.pad) && Touched(w, n, d) && d.controllerId < 0 && d.gamepadModified
    ensures Seated(Apply(w, Input(n, Syn)), n + 1, d.pad) && |Apply(w, Input(n, Syn)).table| == n + 1
  {
    FeedId(w.mask, w.table[n], Syn);
    var after := Apply(w, Input(n, Syn));
    forall k: nat | k < n + 1 ensures SeatedAt(after.table[k].dev, k, d.pad) {
      assert k < n ==> after.table[k] == w.table[k];
    }
  }

  lemma {:induction false} ConnectedAreSeated(m: Mapping, cal: Calibration, ev: Event, n: nat)
    requires n <= 4 && Touches(m, cal, ev)
    ensures Seated(Run(Connected(m, cal, ev, n)), n, PadAfter(m, cal, ev))
    ensures |Run(Connected(m, cal, ev, n)).table| == n
  {
    if n > 0 {
      var front := Connected(m, cal, ev, n - 1);
      ConnectedAreSeated(m, cal, ev, n - 1);
      TouchNext(m, cal, ev, front, n - 1, PadAfter(m, cal, ev));
      RunExtend(front + [Add(m, cal)] + [Input(n - 1, ev)], Input(n - 1, Syn));
      StepKeepsId(Fresh(m, cal), ev);
      SeatNext(Run(front + [Add(m, cal)] + [Input(n - 1, ev)]), n - 1, Step(Fresh(m, cal), ev));
    }
  }

  lemma StepKeepsId(d: Device, ev: Event)
    ensures Step(d, ev).controllerId == d.controllerId
  {
    StepIgnoresId(d, d.controllerId, ev);
    assert d.(controllerId := d.controllerId) == d;
  }

  /** Four gamepads have been used, and a fifth touched: what is said of a fifth gamepad is met by a run. */
  lemma FifthGamepadIsReached(m: Mapping, cal: Calibration, ev: Event, last: Event)
    requires Touches(m, cal, ev) && Touches(m, cal, last)
    ensures var w := Run(Connected(m, cal, ev, 4) + [Add(m, cal)] + [Input(4, last)]);
      && MaskInv(w.mask, Ids(w)) && {0, 1, 2, 3} <= w.mask
      && Seated(w, 4, PadAfter(m, cal, ev)) && Touched(w, 4, Step(Fresh(m, cal), last))
      && w.table[4].dev.controllerId < 0 && w.table[4].dev.gamepadModified
  {
    ConnectedAreSeated(m, cal, ev, 4);
    TouchNext(m, cal, last, Connected(m, cal, ev, 4), 4, PadAfter(m, cal, ev));
    StepKeepsId(Fresh(m, cal), last);
    MaskOverRuns(Connected(m, cal, ev, 4) + [Add(m, cal)] + [Input(4, last)]);
  }

  /** If the two events left the pads in different states, the first update of the fifth hides the pad of the first. */
  lemma FifthGamepadHidesPad(m: Mapping, cal: Calibration, ev: Event, last: Event)
    requires Touches(m, cal, ev) && Touches(m, cal, last)
    requires PadAfter(m, cal, ev) != PadAfter(m, cal, last)
    ensures Hides(Run(Connected(m, cal, ev, 4) + [Add(m, cal)] + [Input(4, last)]), Input(4, Syn))
  {
    var w := Run(Connected(m, cal, ev, 4) + [Add(m, cal)] + [Input(4, last)]);
    FifthGamepadIsReached(m, cal, ev, last);
    assert SeatedAt(w.table[0].dev, 0, PadAfter(m, cal, ev));
    assert HiddenBy(w, 4, 0);
  }

  /** Every mapping that has a button has such events: its press and its release. */
  lemma PressAndReleaseDiffer(m: Mapping, cal: Calibration, code: nat)
    requires IsPadKey(code) && ButtonOf(m, code).Some?
    ensures Touches(m, cal, Key(code, 1)) && Touches(m, cal, Key(code, 0))
    ensures PadAfter(m, cal, Key(code, 1)) != PadAfter(m, cal, Key(code, 0))
  {
    var b := ButtonOf(m, code).value;
    StepWritesButton(Fresh(m, cal), Key(code, 1), b);
    StepWritesButton(Fresh(m, cal), Key(code, 0), b);
  }
}
