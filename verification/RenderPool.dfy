/**
 The pool of render states behind the frames of the VDPAU decoder (src/video/ffmpeg_vdpau.c). A render
 state is named by the place of the pool it was created at.
 */
module RenderPool {
  import opened Counting
  import opened Folding
  import opened Options

  const MAX_RENDER_STATES := 32

  /** For every state created, whether it is in use. */
  type States = seq<bool>

  /** What the search for a state may return: the first free one, else a new one unless the pool is full. */
  ghost predicate FreeState(states: States, r: Option<nat>) {
    match r
    case Some(i) =>
      && i <= |states|
      && (forall k :: 0 <= k < i ==> states[k])
      && (if i == |states| then |states| != MAX_RENDER_STATES else !states[i])
    case None => |states| == MAX_RENDER_STATES && forall k :: 0 <= k < |states| ==> states[k]
  }

  /** The state in use, created if it is new. */
  function Taken(states: States, i: nat): States
    requires i <= |states|
  {
    if i == |states| then states + [true] else states[i := true]
  }

  class Pool {
    const inUse: array<bool>
    var count: nat

    ghost predicate Valid()
      reads this
    {
      inUse.Length == MAX_RENDER_STATES && count <= inUse.Length
    }

    ghost function States(): States
      requires Valid()
      reads this, inUse
    {
      inUse[..count]
    }

    constructor ()
      ensures Valid() && States() == []
    {
      inUse := new bool[MAX_RENDER_STATES](_ => false);
      count := 0;
    }

    /** A new state is created unused; the caller marks it. */
    method GetFreeRenderState() returns (r: Option<nat>)
      requires Valid()
      modifies this, inUse
      ensures Valid() && FreeState(old(States()), r)
      ensures States() == if r == Some(|old(States())|) then old(States()) + [false] else old(States())
    {
      for i := 0 to count
        invariant forall k :: 0 <= k < i ==> inUse[k]
        invariant count == old(count) && States() == old(States())
      {
        if !inUse[i] {
          return Some(i);
        }
      }
      if count == MAX_RENDER_STATES {
        return None;
      }
      inUse[count] := false;
      count := count + 1;
      r := Some(count - 1);
    }

    /** Without a free state the code goes on through a null pointer: `None` ends the run. */
    method GetBuffer() returns (r: Option<nat>)
      requires Valid()
      modifies this, inUse
      ensures Valid() && FreeState(old(States()), r)
      ensures r.Some? ==> States() == Taken(old(States()), r.value)
      ensures r.None? ==> States() == old(States())
    {
      r := GetFreeRenderState();
      if r.Some? {
        inUse[r.value] := true;
      }
    }

    method ReleaseBuffer(state: nat)
      requires Valid() && state < |States()|
      modifies inUse
      ensures Valid() && States() == old(States())[state := false]
    {
      inUse[state] := false;
    }
  }

  // ---- runs ----

  type Frame = nat

  /** The pool, the render state of every live frame, and the most frames that have been live at once. */
  datatype World = World(states: States, live: map<Frame, nat>, peak: nat)

  const EMPTY := World([], map[], 0)

  datatype Action = Get(frame: Frame) | Release(frame: Frame)

  function FindFree(states: States): (r: Option<nat>)
    ensures FreeState(states, r)
  {
    FirstFree(states, 0)
  }

  function FirstFree(states: States, from: nat): (r: Option<nat>)
    requires from <= |states| && forall i :: 0 <= i < from ==> states[i]
    ensures FreeState(states, r)
    decreases |states| - from
  {
    if from == |states| then (if |states| == MAX_RENDER_STATES then None else Some(|states|))
    else if !states[from] then Some(from)
    else FirstFree(states, from + 1)
  }

  /** The search has only one possible result, so the method finds what the function says. */
  lemma FreeStateUnique(states: States, r: Option<nat>)
    requires FreeState(states, r)
    ensures r == FindFree(states)
  {
  }

  function Max(a: nat, b: nat): nat {
    if a < b then b else a
  }

  /** One action; a frame is only got once and only released while it is live. */
  function Apply(w: World, a: Action): World {
    match a
    case Get(frame) =>
      var r := FindFree(w.states);
      if frame in w.live || r.None? then w
      else
        var live := w.live[frame := r.value];
        World(Taken(w.states, r.value), live, Max(w.peak, |live|))
    case Release(frame) =>
      if frame in w.live && w.live[frame] < |w.states|
      then World(w.states[w.live[frame] := false], w.live - {frame}, w.peak)
      else w
  }

  function Run(actions: seq<Action>): World {
    Fold(Apply, EMPTY, actions)
  }

  ghost predicate Inv(w: World) {
    && |w.states| <= MAX_RENDER_STATES
    // a state is in use exactly when some live frame owns it
    && (forall f :: f in w.live ==> w.live[f] < |w.states| && w.states[w.live[f]])
    && (forall i :: 0 <= i < |w.states| && w.states[i] ==> i in w.live.Values)
    // live frames own different states
    && (forall f, g :: f in w.live && g in w.live && f != g ==> w.live[f] != w.live[g])
    // as many states as the most frames that were live at once
    && |w.states| == w.peak
    && |w.live| <= w.peak
  }

  lemma {:induction false} DistinctOwnersCount(live: map<Frame, nat>)
    requires forall f, g :: f in live && g in live && f != g ==> live[f] != live[g]
    ensures |live.Values| == |live|
    decreases |live|
  {
    if live.Keys != {} {
      var f :| f in live.Keys;
      var rest := live - {f};
      assert live.Values == rest.Values + {live[f]} by {
        forall v | v in live.Values ensures v in rest.Values + {live[f]} {
          var g :| g in live && live[g] == v;
          if g != f { assert g in rest && rest[g] == v; }
        }
      }
      assert live[f] !in rest.Values;
      DistinctOwnersCount(rest);
      assert |rest| == |live| - 1;
    }
  }

  function UpTo(n: nat): (s: set<nat>)
    ensures |s| == n
    ensures forall i: nat :: i in s <==> i < n
  {
    if n == 0 then {} else UpTo(n - 1) + {n - 1}
  }

  /** When every state is in use there are as many live frames as states. */
  lemma AllInUse(w: World)
    requires Inv(w) && forall i :: 0 <= i < |w.states| ==> w.states[i]
    ensures |w.live| == |w.states|
  {
    DistinctOwnersCount(w.live);
    assert w.live.Values == UpTo(|w.states|);
  }

  lemma GetKeepsInv(w: World, frame: Frame)
    requires Inv(w)
    ensures Inv(Apply(w, Get(frame)))
  {
    var r := FindFree(w.states);
    if frame !in w.live && r.Some? {
      var after := Apply(w, Get(frame));
      FreeIsUnowned(w, r.value);
      if r.value == |w.states| { AllInUse(w); } else { LiveBelowStates(w, r.value); }
      assert |after.live| == |w.live| + 1;
      TakenIsOwned(w, frame, r.value);
    }
  }

  lemma FreeIsUnowned(w: World, i: nat)
    requires Inv(w) && (i >= |w.states| || !w.states[i])
    ensures i !in w.live.Values
  {
    forall f | f in w.live ensures w.live[f] != i {
    }
  }

  lemma TakenIsOwned(w: World, frame: Frame, i: nat)
    requires Inv(w) && frame !in w.live && i <= |w.states|
    ensures forall k :: 0 <= k < |Taken(w.states, i)| && Taken(w.states, i)[k] ==> k in w.live[frame := i].Values
  {
    var live := w.live[frame := i];
    forall k | 0 <= k < |Taken(w.states, i)| && Taken(w.states, i)[k] ensures k in live.Values {
      if k == i {
        assert live[frame] == k;
      } else {
        var f :| f in w.live && w.live[f] == k;
        assert live[f] == k;
      }
    }
  }

  /** A free state means that there are fewer live frames than states. */
  lemma LiveBelowStates(w: World, i: nat)
    requires Inv(w) && i < |w.states| && !w.states[i]
    ensures |w.live| < |w.states|
  {
    DistinctOwnersCount(w.live);
    FreeIsUnowned(w, i);
    assert w.live.Values <= UpTo(|w.states|) - {i};
    SubsetSize(w.live.Values, UpTo(|w.states|) - {i});
  }

  lemma ReleaseKeepsInv(w: World, frame: Frame)
    requires Inv(w)
    ensures Inv(Apply(w, Release(frame)))
  {
    if frame in w.live {
      var after := Apply(w, Release(frame));
      assert |after.live| == |w.live| - 1;
      forall k | 0 <= k < |after.states| && after.states[k] ensures k in after.live.Values {
        StillOwned(w, frame, k);
      }
    }
  }

  lemma StillOwned(w: World, frame: Frame, k: nat)
    requires Inv(w) && frame in w.live && k < |w.states| && w.states[k] && k != w.live[frame]
    ensures k in (w.live - {frame}).Values
  {
    var f :| f in w.live && w.live[f] == k;
    assert f in w.live - {frame} && (w.live - {frame})[f] == k;
  }

  lemma InvOverRuns(actions: seq<Action>)
    ensures Inv(Run(actions))
  {
    forall w, a | Inv(w) ensures Inv(Apply(w, a)) {
      match a
      case Get(frame) => GetKeepsInv(w, frame);
      case Release(frame) => ReleaseKeepsInv(w, frame);
    }
    FoldKeeps(w => Inv(w), Apply, EMPTY, actions);
  }

  /** The most frames live at once, over the states that a run passes through. */
  function PeakLive(actions: seq<Action>): nat {
    if actions == [] then 0
    else Max(PeakLive(actions[..|actions| - 1]), |Run(actions).live|)
  }

  lemma {:induction false} PeakIsTracked(actions: seq<Action>)
    ensures Run(actions).peak == PeakLive(actions)
  {
    if actions != [] {
      var front := actions[..|actions| - 1];
      PeakIsTracked(front);
      InvOverRuns(front);
    }
  }

  /** The pool never creates more states than frames have been live at once, and never fewer. */
  lemma StatesArePeak(actions: seq<Action>)
    ensures |Run(actions).states| == PeakLive(actions) <= 32
  {
    PeakIsTracked(actions);
    InvOverRuns(actions);
  }

  /**
   In every reachable state a frame can be given a render state exactly while fewer than 32 frames are
   live, and the one it is given is not that of any live frame.
   */
  lemma GetSucceedsExactly(actions: seq<Action>)
    ensures FindFree(Run(actions).states).Some? <==> |Run(actions).live| < 32
    ensures FindFree(Run(actions).states).Some? ==> FindFree(Run(actions).states).value !in Run(actions).live.Values
  {
    var w := Run(actions);
    InvOverRuns(actions);
    var r := FindFree(w.states);
    if r.None? {
      AllInUse(w);
    } else {
      FreeIsUnowned(w, r.value);
      if r.value == |w.states| { AllInUse(w); } else { LiveBelowStates(w, r.value); }
    }
  }
}
