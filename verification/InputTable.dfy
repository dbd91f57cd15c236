/**
 The table of input devices: growth, swap-removal, and the allocation of controller ids
 (src/input/evdev.c), over every run of additions, events and removals.
 */
module InputTable {
  import opened AxisScaling
  import opened Counting
  import opened Evdev
  import opened Folding
  import opened GamepadMapping
  import opened Limelight
  import opened Options

  // ---- runs ----

  /**
   A device of the table with the events it has handled and the packets it has sent. An event that ends
   the program leaves the device as it was; nothing that is proved of a run depends on what follows it.
   */
  datatype Tracked = Tracked(dev: Device, log: seq<Event>, sent: seq<Packet>)

  /** `mask` holds the ids whose bit is set in the assigned-ids mask. */
  datatype World = World(mask: set<nat>, table: seq<Tracked>)

  const EMPTY := World({}, [])

  datatype Action =
    | Add(mapping: Mapping, cal: Calibration)
    | Input(device: nat, ev: Event)
    | Remove(device: nat)

  /** The lowest id that is free, or 0 when all four are taken: that one without a mark in the mask. */
  function AssignId(mask: set<nat>, id: int): (r: (set<nat>, int))
    ensures id >= 0 ==> r == (mask, id)
    ensures id < 0 && {0, 1, 2, 3} <= mask ==> r == (mask, 0)
    ensures id < 0 && !({0, 1, 2, 3} <= mask) ==>
      0 <= r.1 < 4 && r.1 !in mask && r.0 == mask + {r.1} && forall i :: 0 <= i < r.1 ==> i in mask
  {
    if id >= 0 then (mask, id)
    else if 0 !in mask then (mask + {0}, 0)
    else if 1 !in mask then (mask + {1}, 1)
    else if 2 !in mask then (mask + {2}, 2)
    else if 3 !in mask then (mask + {3}, 3)
    else (mask, 0)
  }

  function Commits(d: Device, ev: Event): bool {
    ev == Syn && d.gamepadModified
  }

  function Feed(mask: set<nat>, t: Tracked, ev: Event): (set<nat>, Tracked) {
    var (after, id) := if Commits(t.dev, ev) then AssignId(mask, t.dev.controllerId) else (mask, t.dev.controllerId);
    var d := t.dev.(controllerId := id);
    (after, Tracked(Step(d, ev), t.log + [ev], t.sent + Packets(d, ev)))
  }

  /** The table without one entry, whose place the last one takes. */
  function SwapRemove<T>(table: seq<T>, i: nat): (r: seq<T>)
    requires i < |table|
    ensures |r| == |table| - 1
  {
    table[i := table[|table| - 1]][..|table| - 1]
  }

  function Release(mask: set<nat>, id: int): set<nat> {
    if id >= 0 then mask - {id} else mask
  }

  function Apply(w: World, a: Action): World {
    match a
    case Add(mapping, cal) => w.(table := w.table + [Tracked(Fresh(mapping, cal), [], [])])
    case Input(i, ev) =>
      if i < |w.table| then
        var (mask, t) := Feed(w.mask, w.table[i], ev);
        World(mask, w.table[i := t])
      else w
    case Remove(i) =>
      if i < |w.table| then World(Release(w.mask, w.table[i].dev.controllerId), SwapRemove(w.table, i)) else w
  }

  /** Swap-removal keeps exactly the other entries, and moves none but the last. */
  lemma SwapRemoveKeepsOthers<T>(table: seq<T>, i: nat)
    requires i < |table|
    ensures multiset(SwapRemove(table, i)) == multiset(table) - multiset{table[i]}
    ensures forall k :: 0 <= k < |table| - 1 && k != i ==> SwapRemove(table, i)[k] == table[k]
  {
    var last := |table| - 1;
    assert table == table[..last] + [table[last]];
    if i < last {
      assert table[..last] == table[..i] + [table[i]] + table[i + 1..last];
      assert SwapRemove(table, i) == table[..i] + [table[last]] + table[i + 1..last];
    } else {
      assert SwapRemove(table, i) == table[..last];
    }
  }

  // ---- every device, over every run ----

  function SentX(sent: seq<Packet>): int {
    if sent == [] then 0
    else SentX(sent[..|sent| - 1]) + match sent[|sent| - 1] case MouseMove(dx, _) => dx case _ => 0
  }

  function SentY(sent: seq<Packet>): int {
    if sent == [] then 0
    else SentY(sent[..|sent| - 1]) + match sent[|sent| - 1] case MouseMove(_, dy) => dy case _ => 0
  }

  function SentScroll(sent: seq<Packet>): int {
    if sent == [] then 0
    else SentScroll(sent[..|sent| - 1]) + match sent[|sent| - 1] case Scroll(n) => n case _ => 0
  }

  /** The number of controller packets. */
  function Updates(sent: seq<Packet>): nat {
    if sent == [] then 0
    else Updates(sent[..|sent| - 1]) + if sent[|sent| - 1].Controller? then 1 else 0
  }

  /** The pad in the last controller packet among those sent; `InputWire` says what the receiver makes of it. */
  function LastPad(sent: seq<Packet>): Pad {
    LastWrite((p: Packet) => match p case Controller(_, pad) => Some(pad) case _ => None, ZERO_PAD, sent)
  }

  lemma SentAppend(sent: seq<Packet>, p: Packet)
    ensures SentX(sent + [p]) == SentX(sent) + match p case MouseMove(dx, _) => dx case _ => 0
    ensures SentY(sent + [p]) == SentY(sent) + match p case MouseMove(_, dy) => dy case _ => 0
    ensures SentScroll(sent + [p]) == SentScroll(sent) + match p case Scroll(n) => n case _ => 0
    ensures Updates(sent + [p]) == Updates(sent) + if p.Controller? then 1 else 0
    ensures LastPad(sent + [p]) == match p case Controller(_, pad) => pad case _ => LastPad(sent)
  {
    assert (sent + [p])[..|sent|] == sent;
  }

  lemma SentMany(sent: seq<Packet>, more: seq<Packet>)
    requires |more| <= 1
    ensures SentX(sent + more) == SentX(sent) + SentX(more)
    ensures SentY(sent + more) == SentY(sent) + SentY(more)
    ensures SentScroll(sent + more) == SentScroll(sent) + SentScroll(more)
    ensures Updates(sent + more) == Updates(sent) + Updates(more)
    ensures LastPad(sent + more) == if more != [] && more[0].Controller? then more[0].pad else LastPad(sent)
  {
    if more == [] {
      assert sent + more == sent;
    } else {
      assert more == [] + [more[0]];
      SentAppend(sent, more[0]);
      SentAppend([], more[0]);
    }
  }

  lemma SentPackets(sent: seq<Packet>, d: Device, ev: Event)
    ensures SentX(sent + Packets(d, ev)) == SentX(sent) + if ev == Syn then d.mouseDeltaX else 0
    ensures SentY(sent + Packets(d, ev)) == SentY(sent) + if ev == Syn then d.mouseDeltaY else 0
    ensures SentScroll(sent + Packets(d, ev)) == SentScroll(sent) + if ev == Syn then d.mouseScroll else 0
    ensures Updates(sent + Packets(d, ev)) == Updates(sent) + if Commits(d, ev) then 1 else 0
    ensures LastPad(sent + Packets(d, ev)) == if Commits(d, ev) then d.pad else LastPad(sent)
  {
    if ev == Syn {
      SentSyn(sent, d);
    } else {
      SentMany(sent, Packets(d, ev));
    }
  }

  lemma SentSyn(sent: seq<Packet>, d: Device)
    ensures SentX(sent + Packets(d, Syn)) == SentX(sent) + d.mouseDeltaX
    ensures SentY(sent + Packets(d, Syn)) == SentY(sent) + d.mouseDeltaY
    ensures SentScroll(sent + Packets(d, Syn)) == SentScroll(sent) + d.mouseScroll
    ensures Updates(sent + Packets(d, Syn)) == Updates(sent) + if d.gamepadModified then 1 else 0
    ensures LastPad(sent + Packets(d, Syn)) == if d.gamepadModified then d.pad else LastPad(sent)
  {
    var move, scroll, pad := MovePackets(d), ScrollPackets(d), PadPackets(d);
    assert sent + Packets(d, Syn) == sent + move + scroll + pad;
    SentMany(sent, move);
    SentMany(sent + move, scroll);
    SentMany(sent + move + scroll, pad);
  }

  /** The state of a device is a function of the events it has handled. */
  ghost predicate History(t: Tracked) {
    t.dev.(controllerId := -1) == After(t.dev.mapping, t.dev.cal, t.log)
  }

  ghost predicate Traffic(t: Tracked) {
    // the motion sent is that of the closed frames, the last reading of each
    && SentX(t.sent) == ClosedFrames(0, t.log)
    && SentY(t.sent) == ClosedFrames(1, t.log)
    && SentScroll(t.sent) == ClosedFrames(8, t.log)
    // no gamepad update is lost: without a pending one the last that the device sent holds the current pad
    && (!t.dev.gamepadModified ==> LastPad(t.sent) == t.dev.pad)
  }

  /** What holds of every device in every reachable state. */
  ghost predicate DeviceInv(t: Tracked) {
    History(t) && Traffic(t)
  }

  lemma StepIgnoresId(d: Device, id: int, ev: Event)
    ensures Step(d.(controllerId := id), ev) == Step(d, ev).(controllerId := id)
  {
  }

  /** An event that leaves no update pending left the pad alone, and only a synchronisation takes one away. */
  lemma QuietStep(d: Device, ev: Event)
    requires !Step(d, ev).gamepadModified
    ensures Step(d, ev).pad == d.pad
    ensures ev != Syn ==> !d.gamepadModified
  {
  }

  lemma FeedKeepsHistory(t: Tracked, id: int, ev: Event, sent: seq<Packet>)
    requires History(t)
    ensures History(Tracked(Step(t.dev.(controllerId := id), ev), t.log + [ev], sent))
  {
    StepIgnoresId(t.dev, id, ev);
    StepIgnoresId(t.dev, -1, ev);
    FoldExtend(Step, Fresh(t.dev.mapping, t.dev.cal), t.log, ev);
    AfterIsConfigured(t.dev.mapping, t.dev.cal, t.log + [ev]);
  }

  lemma PacketsKeepTraffic(t: Tracked, id: int, ev: Event, next: Device)
    requires Traffic(t)
    requires t.dev.mouseDeltaX == OpenFrame(0, t.log)
    requires t.dev.mouseDeltaY == OpenFrame(1, t.log)
    requires t.dev.mouseScroll == OpenFrame(8, t.log)
    requires !next.gamepadModified ==> next.pad == t.dev.pad && (ev != Syn ==> !t.dev.gamepadModified)
    ensures Traffic(Tracked(next, t.log + [ev], t.sent + Packets(t.dev.(controllerId := id), ev)))
  {
    assert (t.log + [ev])[..|t.log|] == t.log;
    SentPackets(t.sent, t.dev.(controllerId := id), ev);
  }

  lemma FeedKeepsDeviceInv(mask: set<nat>, t: Tracked, ev: Event)
    requires DeviceInv(t)
    ensures DeviceInv(Feed(mask, t, ev).1)
  {
    var id := if Commits(t.dev, ev) then AssignId(mask, t.dev.controllerId).1 else t.dev.controllerId;
    var d := t.dev.(controllerId := id);
    FeedKeepsHistory(t, id, ev, t.sent + Packets(d, ev));
    MotionIsOpenFrame(t.dev.mapping, t.dev.cal, t.log);
    if !Step(d, ev).gamepadModified { QuietStep(d, ev); }
    PacketsKeepTraffic(t, id, ev, Step(d, ev));
  }

  ghost predicate AllDevices(w: World) {
    forall t :: t in w.table ==> DeviceInv(t)
  }

  lemma ApplyKeepsDevices(w: World, a: Action)
    requires AllDevices(w)
    ensures AllDevices(Apply(w, a))
  {
    match a
    case Add(_, _) =>
    case Input(i, ev) => if i < |w.table| { FeedKeepsDeviceInv(w.mask, w.table[i], ev); }
    case Remove(i) =>
  }

  function Run(actions: seq<Action>): World {
    Fold(Apply, EMPTY, actions)
  }

  lemma DevicesOverRuns(actions: seq<Action>)
    ensures AllDevices(Run(actions))
  {
    forall w, a | AllDevices(w) ensures AllDevices(Apply(w, a)) {
      ApplyKeepsDevices(w, a);
    }
    FoldKeeps(w => AllDevices(w), Apply, EMPTY, actions);
  }

  /** The relative motion that a device has sent is, in every reachable state, that of the frames closed so far. */
  lemma MotionIsConserved(actions: seq<Action>, i: nat)
    requires i < |Run(actions).table|
    ensures var t := Run(actions).table[i];
      && SentX(t.sent) == ClosedFrames(0, t.log)
      && SentY(t.sent) == ClosedFrames(1, t.log)
      && SentScroll(t.sent) == ClosedFrames(8, t.log)
  {
    DevicesOverRuns(actions);
    assert Run(actions).table[i] in Run(actions).table;
  }

  /** The device has handled a mapped event since its last synchronisation. */
  ghost predicate HasNews(t: Tracked) {
    MappedSinceSyn(t.dev.mapping, t.dev.cal, t.log)
  }

  lemma PendingIsMapped(t: Tracked)
    requires History(t)
    ensures t.dev.gamepadModified <==> HasNews(t)
  {
    PendingExactly(t.dev.mapping, t.dev.cal, t.log);
    assert t.dev.gamepadModified == After(t.dev.mapping, t.dev.cal, t.log).gamepadModified;
  }

  lemma FeedSends(mask: set<nat>, t: Tracked, ev: Event)
    ensures Updates(Feed(mask, t, ev).1.sent) == Updates(t.sent) + if Commits(t.dev, ev) then 1 else 0
  {
    var id := if Commits(t.dev, ev) then AssignId(mask, t.dev.controllerId).1 else t.dev.controllerId;
    SentPackets(t.sent, t.dev.(controllerId := id), ev);
  }

  /**
   In every reachable state an event sends one controller packet if it is a synchronisation and a
   mapped event came since the previous one, and none otherwise.
   */
  lemma UpdatesExactly(actions: seq<Action>, i: nat, ev: Event)
    requires i < |Run(actions).table|
    ensures Updates(Feed(Run(actions).mask, Run(actions).table[i], ev).1.sent)
         == Updates(Run(actions).table[i].sent) + if ev == Syn && HasNews(Run(actions).table[i]) then 1 else 0
  {
    DevicesOverRuns(actions);
    assert Run(actions).table[i] in Run(actions).table;
    FeedSends(Run(actions).mask, Run(actions).table[i], ev);
    PendingIsMapped(Run(actions).table[i]);
  }

  /** Right after a synchronisation nothing is pending and the last pad that the device sent is the current one. */
  lemma SynFlushes(actions: seq<Action>, i: nat)
    requires i < |Run(actions).table|
    ensures var u := Feed(Run(actions).mask, Run(actions).table[i], Syn).1;
      && LastPad(u.sent) == u.dev.pad == Run(actions).table[i].dev.pad
      && u.dev.mouseDeltaX == 0 && u.dev.mouseDeltaY == 0 && u.dev.mouseScroll == 0 && !u.dev.gamepadModified
  {
    DevicesOverRuns(actions);
    FeedKeepsDeviceInv(Run(actions).mask, Run(actions).table[i], Syn);
  }

  // ---- controller ids, over every run ----

  function Ids(w: World): (ids: seq<int>)
    ensures |ids| == |w.table|
  {
    seq(|w.table|, i requires 0 <= i < |w.table| => w.table[i].dev.controllerId)
  }

  /**
   What the mask says in every reachable state: bits 1 to 3 are exact and their ids unshared; bit 0,
   if set, has a holder, but id 0 can be shared, and can be held while its bit is clear.
   */
  ghost predicate MaskInv(mask: set<nat>, ids: seq<int>) {
    && (forall i :: i in mask ==> i < 4)
    && (forall k :: 0 <= k < |ids| ==> -1 <= ids[k] < 4)
    && (forall k :: 0 <= k < |ids| && ids[k] >= 1 ==> ids[k] in mask)
    && (forall i :: i in mask ==> i in ids)
    && (forall j, k :: 0 <= j < k < |ids| && ids[j] == ids[k] ==> ids[j] <= 0)
  }

  /** The step that a device takes in the allocator when it commits its first update. */
  lemma AssignKeepsMask(mask: set<nat>, ids: seq<int>, i: nat)
    requires MaskInv(mask, ids) && i < |ids|
    ensures var (after, id) := AssignId(mask, ids[i]); MaskInv(after, ids[i := id])
  {
    var (after, id) := AssignId(mask, ids[i]);
    forall k | k in after ensures k in ids[i := id] {
      if k in mask {
        assert k in ids;
        var j :| 0 <= j < |ids| && ids[j] == k;
        assert ids[i := id][j] == k;
      } else {
        assert ids[i := id][i] == k;
      }
    }
    if ids[i] < 0 {
      assert id in mask ==> id == 0;
    }
  }

  lemma RemoveKeepsMask(mask: set<nat>, ids: seq<int>, i: nat)
    requires MaskInv(mask, ids) && i < |ids|
    ensures MaskInv(Release(mask, ids[i]), SwapRemove(ids, i))
  {
    var rest := SwapRemove(ids, i);
    forall k | k in Release(mask, ids[i]) ensures k in rest {
      assert k in ids;
      var j :| 0 <= j < |ids| && ids[j] == k;
      assert j != i;
      assert rest[if j == |ids| - 1 then i else j] == k;
    }
  }

  lemma ApplyOnIds(w: World, a: Action)
    ensures Ids(Apply(w, a)) == match a
      case Add(_, _) => Ids(w) + [-1]
      case Input(i, ev) =>
        if i < |w.table| && Commits(w.table[i].dev, ev) then Ids(w)[i := AssignId(w.mask, Ids(w)[i]).1] else Ids(w)
      case Remove(i) => if i < |w.table| then SwapRemove(Ids(w), i) else Ids(w)
    ensures Apply(w, a).mask == match a
      case Add(_, _) => w.mask
      case Input(i, ev) =>
        if i < |w.table| && Commits(w.table[i].dev, ev) then AssignId(w.mask, Ids(w)[i]).0 else w.mask
      case Remove(i) => if i < |w.table| then Release(w.mask, Ids(w)[i]) else w.mask
  {
    match a
    case Input(i, ev) => if i < |w.table| { FeedId(w.mask, w.table[i], ev); }
    case _ =>
  }

  lemma FeedId(mask: set<nat>, t: Tracked, ev: Event)
    ensures Feed(mask, t, ev).1.dev.controllerId
         == if Commits(t.dev, ev) then AssignId(mask, t.dev.controllerId).1 else t.dev.controllerId
  {
    var id := if Commits(t.dev, ev) then AssignId(mask, t.dev.controllerId).1 else t.dev.controllerId;
    StepIgnoresId(t.dev, id, ev);
  }

  lemma ApplyKeepsMask(w: World, a: Action)
    requires MaskInv(w.mask, Ids(w))
    ensures MaskInv(Apply(w, a).mask, Ids(Apply(w, a)))
  {
    ApplyOnIds(w, a);
    match a
    case Add(_, _) =>
      forall k | k in w.mask ensures k in Ids(w) + [-1] { assert k in Ids(w); }
    case Input(i, ev) => if i < |w.table| { AssignKeepsMask(w.mask, Ids(w), i); }
    case Remove(i) => if i < |w.table| { RemoveKeepsMask(w.mask, Ids(w), i); }
  }

  lemma MaskOverRuns(actions: seq<Action>)
    ensures MaskInv(Run(actions).mask, Ids(Run(actions)))
  {
    forall w: World, a | MaskInv(w.mask, Ids(w)) ensures MaskInv(Apply(w, a).mask, Ids(Apply(w, a))) {
      ApplyKeepsMask(w, a);
    }
    FoldKeeps((w: World) => MaskInv(w.mask, Ids(w)), Apply, EMPTY, actions);
  }

  // ---- with four gamepads or fewer the ids are distinct ----

  ghost predicate Distinct(ids: seq<int>) {
    forall j, k :: 0 <= j < k < |ids| && ids[j] >= 0 ==> ids[j] != ids[k]
  }

  /** All ids held are distinct, and the mask holds exactly them. */
  ghost predicate Exact(mask: set<nat>, ids: seq<int>) {
    Distinct(ids) && forall i: nat :: i in mask <==> i in ids
  }

  function Held(ids: seq<int>): set<int> {
    set id | id in ids && id >= 0
  }

  /** How many devices hold an id. */
  function Holders(ids: seq<int>): nat {
    if ids == [] then 0
    else Holders(ids[..|ids| - 1]) + if ids[|ids| - 1] >= 0 then 1 else 0
  }

  lemma {:induction false} DistinctHolders(ids: seq<int>)
    ensures |Held(ids)| <= Holders(ids)
    ensures |Held(ids)| == Holders(ids) <==> Distinct(ids)
  {
    if ids != [] {
      var front, last := ids[..|ids| - 1], ids[|ids| - 1];
      DistinctHolders(front);
      DistinctExtend(front, last);
      assert ids == front + [last];
      if last < 0 || last in front {
        assert Held(ids) == Held(front);
      } else {
        assert Held(ids) == Held(front) + {last};
      }
    }
  }

  lemma DistinctExtend(front: seq<int>, last: int)
    ensures Distinct(front + [last]) <==> Distinct(front) && (last < 0 || last !in front)
  {
    var ids := front + [last];
    if last >= 0 && last in front {
      var j :| 0 <= j < |front| && front[j] == last;
      assert ids[j] == ids[|front|];
    }
    if !Distinct(front) {
      var j, k :| 0 <= j < k < |front| && front[j] >= 0 && front[j] == front[k];
      assert ids[j] == ids[k];
    }
  }

  lemma AtMostFourIds(ids: seq<int>)
    requires forall k :: 0 <= k < |ids| ==> ids[k] < 4
    ensures |Held(ids)| <= 4
    ensures |Held(ids)| == 4 ==> Held(ids) == {0, 1, 2, 3}
  {
    assert Held(ids) <= {0, 1, 2, 3};
    SubsetSize(Held(ids), {0, 1, 2, 3});
  }

  lemma {:induction false} HoldersUpdate(ids: seq<int>, i: nat, id: int)
    requires i < |ids| && ids[i] < 0 <= id
    ensures Holders(ids[i := id]) == Holders(ids) + 1
  {
    var front := ids[..|ids| - 1];
    if i == |front| {
      assert ids[i := id][..|front|] == front;
    } else {
      assert ids[i := id][..|front|] == front[i := id];
      HoldersUpdate(front, i, id);
    }
  }

  lemma ExactHolders(mask: set<nat>, ids: seq<int>)
    requires MaskInv(mask, ids) && Exact(mask, ids)
    ensures Holders(ids) <= 4
    ensures {0, 1, 2, 3} <= mask ==> Holders(ids) == 4
  {
    DistinctHolders(ids);
    AtMostFourIds(ids);
    if {0, 1, 2, 3} <= mask {
      assert Held(ids) == {0, 1, 2, 3} by {
        assert 0 in ids && 1 in ids && 2 in ids && 3 in ids;
      }
    }
  }

  lemma AssignExactly(mask: set<nat>, ids: seq<int>, i: nat)
    requires MaskInv(mask, ids) && Exact(mask, ids) && i < |ids|
    ensures var (after, id) := AssignId(mask, ids[i]);
      Exact(after, ids[i := id]) <==> Holders(ids[i := id]) <= 4
  {
    var (after, id) := AssignId(mask, ids[i]);
    ExactHolders(mask, ids);
    AssignKeepsMask(mask, ids, i);
    if ids[i] >= 0 {
      assert ids[i := id] == ids;
    } else {
      HoldersUpdate(ids, i, id);
      if {0, 1, 2, 3} <= mask {
        if Exact(after, ids[i := id]) { ExactHolders(after, ids[i := id]); }
      } else {
        FreshIdKeepsExact(mask, ids, i, id);
        ExactHolders(after, ids[i := id]);
      }
    }
  }

  lemma FreshIdKeepsExact(mask: set<nat>, ids: seq<int>, i: nat, id: nat)
    requires Exact(mask, ids) && i < |ids| && ids[i] < 0 && id !in mask
    ensures Exact(mask + {id}, ids[i := id])
  {
    assert id !in ids;
    assert ids[i := id][i] == id;
    forall k: nat ensures k in mask + {id} <==> k in ids[i := id] {
      if k in ids {
        var j :| 0 <= j < |ids| && ids[j] == k;
        assert ids[i := id][j] == k;
      }
    }
  }

  lemma RemoveKeepsExact(mask: set<nat>, ids: seq<int>, i: nat)
    requires MaskInv(mask, ids) && Exact(mask, ids) && i < |ids|
    ensures Exact(Release(mask, ids[i]), SwapRemove(ids, i))
  {
    RemoveKeepsMask(mask, ids, i);
    var rest := SwapRemove(ids, i);
    forall k: nat | k in rest ensures k in Release(mask, ids[i]) {
      var j :| 0 <= j < |rest| && rest[j] == k;
      assert ids[if j == i then |ids| - 1 else j] == k;
    }
  }

  /** From a state with distinct ids a step leads to one exactly when no more than four devices hold ids after it. */
  lemma StepExactly(w: World, a: Action)
    requires MaskInv(w.mask, Ids(w)) && Exact(w.mask, Ids(w))
    ensures Exact(Apply(w, a).mask, Ids(Apply(w, a))) <==> Holders(Ids(Apply(w, a))) <= 4
  {
    ApplyOnIds(w, a);
    ApplyKeepsMask(w, a);
    var after := Apply(w, a);
    if Exact(after.mask, Ids(after)) {
      ExactHolders(after.mask, Ids(after));
    }
    match a
    case Add(_, _) => AddKeepsExact(w.mask, Ids(w));
    case Input(i, ev) =>
      if i < |w.table| && Commits(w.table[i].dev, ev) {
        AssignExactly(w.mask, Ids(w), i);
      }
    case Remove(i) => if i < |w.table| { RemoveKeepsExact(w.mask, Ids(w), i); }
  }

  lemma AddKeepsExact(mask: set<nat>, ids: seq<int>)
    requires Exact(mask, ids)
    ensures Exact(mask, ids + [-1])
  {
    forall i: nat ensures i in mask <==> i in ids + [-1] {
    }
  }

  ghost predicate ExactAfter(actions: seq<Action>, n: nat)
    requires n <= |actions|
  {
    Exact(Run(actions[..n]).mask, Ids(Run(actions[..n])))
  }

  ghost predicate AtMostFourAfter(actions: seq<Action>, n: nat)
    requires n <= |actions|
  {
    Holders(Ids(Run(actions[..n]))) <= 4
  }

  /**
   Throughout a run all ids are distinct and the mask is exact if and only if never more than four devices
   hold ids.
   */
  lemma {:induction false} IdsExactWhileAtMostFour(actions: seq<Action>)
    ensures (forall n :: 0 <= n <= |actions| ==> ExactAfter(actions, n))
       <==> (forall n :: 0 <= n <= |actions| ==> AtMostFourAfter(actions, n))
  {
    forall n | 0 <= n <= |actions| && ExactAfter(actions, n) ensures AtMostFourAfter(actions, n) {
      MaskOverRuns(actions[..n]);
      ExactHolders(Run(actions[..n]).mask, Ids(Run(actions[..n])));
    }
    if forall n :: 0 <= n <= |actions| ==> AtMostFourAfter(actions, n) {
      forall n | 0 <= n <= |actions| ensures ExactAfter(actions, n) {
        ExactUpTo(actions, n);
      }
    }
  }

  lemma {:induction false} ExactUpTo(actions: seq<Action>, n: nat)
    requires n <= |actions|
    requires forall k :: 0 <= k <= |actions| ==> AtMostFourAfter(actions, k)
    ensures ExactAfter(actions, n)
  {
    if n > 0 {
      ExactUpTo(actions, n - 1);
      MaskOverRuns(actions[..n - 1]);
      assert actions[..n] == actions[..n - 1] + [actions[n - 1]];
      FoldExtend(Apply, EMPTY, actions[..n - 1], actions[n - 1]);
      assert AtMostFourAfter(actions, n);
      StepExactly(Run(actions[..n - 1]), actions[n - 1]);
    }
  }

  lemma SharedZeroOnIds(mask: set<nat>, ids: seq<int>, i: nat)
    requires MaskInv(mask, ids) && {0, 1, 2, 3} <= mask && i < |ids| && ids[i] < 0
    ensures AssignId(mask, ids[i]) == (mask, 0)
    ensures 0 in SwapRemove(ids[i := 0], i)
  {
    assert 0 in ids;
    var j :| 0 <= j < |ids| && ids[j] == 0;
    assert SwapRemove(ids[i := 0], i)[if j == |ids| - 1 then i else j] == 0;
  }

  /**
   What goes wrong beyond four: the fifth gamepad shares id 0 with another one, and when it is
   removed the mask forgets the id that the other one still sends under.
   */
  lemma FifthGamepadSharesZero(w: World, i: nat)
    requires MaskInv(w.mask, Ids(w)) && {0, 1, 2, 3} <= w.mask
    requires i < |w.table| && w.table[i].dev.controllerId < 0 && w.table[i].dev.gamepadModified
    ensures var shared := Apply(w, Input(i, Syn));
      && Ids(shared)[i] == 0
      && 0 in SwapRemove(Ids(shared), i)
      && 0 in Ids(Apply(shared, Remove(i))) && 0 !in Apply(shared, Remove(i)).mask
  {
    ApplyOnIds(w, Input(i, Syn));
    ApplyOnIds(Apply(w, Input(i, Syn)), Remove(i));
    SharedZeroOnIds(w.mask, Ids(w), i);
  }
}
