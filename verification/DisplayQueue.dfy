/**
 The bookkeeping of decoded and displayed frames around the i.MX decoder (src/video/imx.c). The
 answers of the decoder and of the display driver are inputs; a failed call ends the program.
 */
module DisplayQueue {
  import opened Folding
  import opened Options

  const THRESHOLD := 2

  /** What the decoder and the display driver answer while one decode unit is submitted. */
  datatype Answers = Answers(
    registerOk: bool, startOk: bool, busyTooLong: bool, outputOk: bool, needsMoreData: bool,
    psBufferShort: bool, sliceBufferShort: bool, displayIndex: int,
    queryOk: bool, queueOk: bool, streamOnOk: bool, dequeueOk: bool)

  datatype Call = Register | StartFrame | Queue(index: int) | StreamOn | Dequeue | ClearFlag(index: int)

  datatype State = State(
    initialized: bool, decoding: bool, displaying: bool, queuedCount: int, dispClrIndex: int, calls: seq<Call>)

  const START := State(false, false, false, 0, 0, [])

  /** The frame that a submitted unit puts on the display, if it does. */
  function Shown(a: Answers): Option<int> {
    if !a.needsMoreData && a.displayIndex >= 0 then Some(a.displayIndex) else None
  }

  function ShownFrames(a: Answers): seq<int> {
    match Shown(a) case Some(i) => [i] case None => []
  }

  /** Nothing ends the program: all the calls made succeed. */
  predicate Survives(s: State, a: Answers) {
    && (!s.initialized ==> a.registerOk)
    && (!s.decoding ==> a.startOk)
    && !a.busyTooLong
    && a.outputOk
    && (!a.needsMoreData ==>
        && !a.psBufferShort && !a.sliceBufferShort && a.displayIndex != -1
        && (a.displayIndex >= 0 ==>
            && a.queryOk && a.queueOk && (!s.displaying ==> a.streamOnOk)
            && (s.queuedCount + 1 > THRESHOLD ==> a.dequeueOk)))
  }

  /** The calls that begin a surviving unit: the frame buffers are registered once, and each unit starts a frame. */
  function BeginCalls(s: State): seq<Call> {
    (if s.initialized then [] else [Register]) + (if s.decoding then [] else [StartFrame])
  }

  /** The calls that put a frame on the display. */
  function ShowCalls(s: State, i: int): seq<Call> {
    [Queue(i)]
    + (if s.displaying then [] else [StreamOn])
    + (if s.queuedCount + 1 > THRESHOLD then [Dequeue] else [])
    + (if s.dispClrIndex >= 0 then [ClearFlag(s.dispClrIndex)] else [])
  }

  function Step(s: State, a: Answers): State {
    var begun := State(true, false, s.displaying, s.queuedCount, s.dispClrIndex, s.calls + BeginCalls(s));
    match Shown(a)
    case None => begun
    case Some(i) => Show(begun, i)
  }

  function Show(s: State, i: int): State {
    State(s.initialized, s.decoding, true,
          if s.queuedCount + 1 > THRESHOLD then s.queuedCount else s.queuedCount + 1,
          i, s.calls + ShowCalls(s, i))
  }

  class Renderer {
    var initialized: bool
    var decoding: bool
    var displaying: bool
    var queuedCount: int
    var dispClrIndex: int
    var calls: seq<Call>

    function Now(): State
      reads this
    {
      State(initialized, decoding, displaying, queuedCount, dispClrIndex, calls)
    }

    constructor ()
      ensures Now() == START
    {
      initialized, decoding, displaying := false, false, false;
      queuedCount, dispClrIndex, calls := 0, 0, [];
    }

    /** Starting to decode what the buffer holds. */
    method Begin(a: Answers) returns (alive: bool)
      modifies this
      ensures alive <==>
        (!old(initialized) ==> a.registerOk) && (!old(decoding) ==> a.startOk) && !a.busyTooLong
      ensures alive ==> initialized && decoding && displaying == old(displaying)
      ensures alive ==> queuedCount == old(queuedCount) && dispClrIndex == old(dispClrIndex)
      ensures alive ==> calls == old(calls) + BeginCalls(old(Now()))
    {
      alive := false;
      if !initialized {
        initialized := true;
        calls := calls + [Register];
        if !a.registerOk { return; }
      }
      if !decoding {
        calls := calls + [StartFrame];
        if !a.startOk { return; }
        decoding := true;
      }
      alive := !a.busyTooLong;
    }

    /** The part of a submission that follows the copy of its data; the result is false if the program ends. */
    method Submit(a: Answers) returns (alive: bool)
      modifies this
      ensures alive <==> Survives(old(Now()), a)
      ensures alive ==> Now() == Step(old(Now()), a)
    {
      alive := Begin(a);
      if !alive { return; }
      decoding := false;
      if !a.outputOk { return false; }
      if a.needsMoreData {
        return true;
      } else if a.psBufferShort || a.sliceBufferShort {
        return false;
      }
      if a.displayIndex >= 0 {
        alive := ShowFrame(a);
      } else if a.displayIndex == -1 {
        return false;
      }
    }

    /** Queueing a decoded frame for display. */
    method ShowFrame(a: Answers) returns (alive: bool)
      requires a.displayIndex >= 0
      modifies this
      ensures alive <==>
        && a.queryOk && a.queueOk
        && (!old(displaying) ==> a.streamOnOk) && (old(queuedCount) + 1 > THRESHOLD ==> a.dequeueOk)
      ensures alive ==> Now() == Show(old(Now()), a.displayIndex)
    {
      alive := false;
      if !a.queryOk { return; }
      calls := calls + [Queue(a.displayIndex)];
      if !a.queueOk { return; }
      if !displaying {
        calls := calls + [StreamOn];
        if !a.streamOnOk { return; }
        displaying := true;
      }
      queuedCount := queuedCount + 1;
      if queuedCount > THRESHOLD {
        calls := calls + [Dequeue];
        if !a.dequeueOk { return; }
        queuedCount := queuedCount - 1;
      }
      if dispClrIndex >= 0 {
        calls := calls + [ClearFlag(dispClrIndex)];
      }
      dispClrIndex := a.displayIndex;
      alive := true;
    }
  }

  // ---- runs ----

  /** The state after units that all survive. */
  function Run(answers: seq<Answers>): State {
    Fold(Step, START, answers)
  }

  ghost predicate AllSurvive(answers: seq<Answers>) {
    forall k :: 0 <= k < |answers| ==> Survives(Run(answers[..k]), answers[k])
  }

  /** The frames put on the display, in order. */
  function Displayed(answers: seq<Answers>): seq<int> {
    if answers == [] then []
    else
      Displayed(answers[..|answers| - 1]) + ShownFrames(answers[|answers| - 1])
  }

  /**
   What a sequence of calls amounts to: the frames on the driver's queue, where queueing appends and
   dequeueing takes the oldest, the frames given back to the decoder in order, and how often the
   other calls were made.
   */
  datatype Tally = Tally(
    queue: seq<int>, cleared: seq<int>, dequeues: nat, streamOns: nat, registers: nat, starts: nat)

  function Observe(t: Tally, c: Call): Tally {
    match c
    case Register => t.(registers := t.registers + 1)
    case StartFrame => t.(starts := t.starts + 1)
    case Queue(i) => t.(queue := t.queue + [i])
    case StreamOn => t.(streamOns := t.streamOns + 1)
    case Dequeue => t.(queue := if t.queue == [] then [] else t.queue[1..], dequeues := t.dequeues + 1)
    case ClearFlag(i) => t.(cleared := t.cleared + [i])
  }

  function TallyOf(calls: seq<Call>): Tally {
    Fold(Observe, Tally([], [], 0, 0, 0, 0), calls)
  }

  lemma TallyExtend(calls: seq<Call>, more: seq<Call>)
    requires |more| <= 1
    ensures TallyOf(calls + more) == if more == [] then TallyOf(calls) else Observe(TallyOf(calls), more[0])
  {
    if more == [] {
      assert calls + more == calls;
    } else {
      assert more == [more[0]];
      FoldExtend(Observe, Tally([], [], 0, 0, 0, 0), calls, more[0]);
    }
  }

  /** The last `n` entries, or all when there are fewer. */
  function Last<T>(s: seq<T>, n: nat): seq<T> {
    if |s| <= n then s else s[|s| - n..]
  }

  /** The flags of a surviving run, in terms of the number of units and the frames displayed. */
  ghost predicate Flags(s: State, units: nat, shown: seq<int>) {
    && !s.decoding
    && s.initialized == (units > 0)
    && s.displaying == (shown != [])
    && s.queuedCount == (if |shown| < 2 then |shown| else 2)
    && s.dispClrIndex == (if shown == [] then 0 else shown[|shown| - 1])
  }

  /** And what its calls amount to. */
  ghost predicate Totals(t: Tally, units: nat, shown: seq<int>) {
    && t.queue == Last(shown, 2)
    && t.cleared == (if shown == [] then [] else [0] + shown[..|shown| - 1])
    && t.dequeues == (if |shown| < 2 then 0 else |shown| - 2)
    && t.streamOns == (if shown == [] then 0 else 1)
    && t.registers == (if units == 0 then 0 else 1)
    && t.starts == units
  }

  ghost predicate Bookkeeping(s: State, units: nat, shown: seq<int>) {
    Flags(s, units, shown) && Totals(TallyOf(s.calls), units, shown)
  }

  lemma {:induction false} DisplayedAreFrames(answers: seq<Answers>)
    ensures forall i :: i in Displayed(answers) ==> i >= 0
  {
    if answers != [] {
      DisplayedAreFrames(answers[..|answers| - 1]);
    }
  }

  lemma {:induction false} BookkeepingOverRuns(answers: seq<Answers>)
    requires AllSurvive(answers)
    ensures Bookkeeping(Run(answers), |answers|, Displayed(answers))
  {
    if answers != [] {
      var front, last := answers[..|answers| - 1], answers[|answers| - 1];
      forall k | 0 <= k < |front| ensures Survives(Run(front[..k]), front[k]) {
        assert front[..k] == answers[..k];
      }
      BookkeepingOverRuns(front);
      DisplayedAreFrames(front);
      StepKeepsBookkeeping(Run(front), |front|, Displayed(front), last);
    }
  }

  lemma StepKeepsBookkeeping(s: State, units: nat, shown: seq<int>, a: Answers)
    requires Bookkeeping(s, units, shown) && forall i :: i in shown ==> i >= 0
    ensures Bookkeeping(Step(s, a), units + 1, shown + ShownFrames(a))
  {
    BeginKeepsTotals(s, units, shown);
    var begun := State(true, false, s.displaying, s.queuedCount, s.dispClrIndex, s.calls + BeginCalls(s));
    match Shown(a)
    case None =>
      assert shown + [] == shown;
    case Some(i) =>
      ShowKeepsTotals(begun, units + 1, shown, i);
  }

  lemma BeginKeepsTotals(s: State, units: nat, shown: seq<int>)
    requires Bookkeeping(s, units, shown)
    ensures Totals(TallyOf(s.calls + BeginCalls(s)), units + 1, shown)
  {
    var register := if s.initialized then [] else [Register];
    TallyExtend(s.calls, register);
    TallyExtend(s.calls + register, [StartFrame]);
    assert s.calls + BeginCalls(s) == s.calls + register + [StartFrame];
  }

  /** The tally of the calls that show a frame, call by call. */
  lemma ShowTally(s: State, i: int)
    requires s.dispClrIndex >= 0
    ensures var t := TallyOf(s.calls);
      TallyOf(s.calls + ShowCalls(s, i)) == Tally(
        if s.queuedCount + 1 > THRESHOLD then (t.queue + [i])[1..] else t.queue + [i],
        t.cleared + [s.dispClrIndex],
        t.dequeues + (if s.queuedCount + 1 > THRESHOLD then 1 else 0),
        t.streamOns + (if s.displaying then 0 else 1),
        t.registers, t.starts)
  {
    var stream := if s.displaying then [] else [StreamOn];
    var dequeue := if s.queuedCount + 1 > THRESHOLD then [Dequeue] else [];
    var clear := [ClearFlag(s.dispClrIndex)];
    TallyExtend(s.calls, [Queue(i)]);
    TallyExtend(s.calls + [Queue(i)], stream);
    TallyExtend(s.calls + [Queue(i)] + stream, dequeue);
    TallyExtend(s.calls + [Queue(i)] + stream + dequeue, clear);
    assert ShowCalls(s, i) == [Queue(i)] + stream + dequeue + clear;
    assert s.calls + ([Queue(i)] + stream + dequeue + clear) == s.calls + [Queue(i)] + stream + dequeue + clear;
  }

  /** The two newest frames, after one more. */
  lemma LastExtend(shown: seq<int>, i: int)
    ensures Last(shown + [i], 2) == if |shown| < 2 then shown + [i] else (Last(shown, 2) + [i])[1..]
  {
  }

  /** The frames whose flags are cleared, after one more. */
  lemma ClearedExtend(shown: seq<int>)
    requires shown != []
    ensures [0] + shown[..|shown| - 1] + [shown[|shown| - 1]] == [0] + shown
  {
    assert shown[..|shown| - 1] + [shown[|shown| - 1]] == shown;
    assert [0] + (shown[..|shown| - 1] + [shown[|shown| - 1]])
        == [0] + shown[..|shown| - 1] + [shown[|shown| - 1]];
  }

  lemma ShowKeepsTotals(s: State, units: nat, shown: seq<int>, i: int)
    requires Bookkeeping(s, units, shown) && units > 0 && forall k :: k in shown ==> k >= 0
    ensures Bookkeeping(Show(s, i), units, shown + [i])
  {
    assert s.dispClrIndex >= 0 by {
      assert shown != [] ==> shown[|shown| - 1] in shown;
    }
    ShowTally(s, i);
    LastExtend(shown, i);
    assert (shown + [i])[..|shown|] == shown;
    if shown == [] {
      assert TallyOf(s.calls + ShowCalls(s, i)).cleared == [0] + shown;
    } else {
      ClearedExtend(shown);
    }
  }

  /** The frame last given back to the decoder is still on the display queue. */
  predicate ClearedTooEarly(t: Tally) {
    t.cleared != [] && t.cleared[|t.cleared| - 1] in t.queue
  }

  /**
   A frame should be off the display queue when it is given back to the decoder. The last one given
   back is still queued exactly once a second frame has been displayed, or when the only one displayed
   is frame 0, whose flag the first display clears.
   */
  lemma ClearedWhileQueued(answers: seq<Answers>)
    requires AllSurvive(answers)
    ensures ClearedTooEarly(TallyOf(Run(answers).calls)) <==> |Displayed(answers)| >= 2 || Displayed(answers) == [0]
  {
    BookkeepingOverRuns(answers);
    var shown := Displayed(answers);
    if |shown| >= 2 {
      assert shown[|shown| - 2] == Last(shown, 2)[0];
    } else if |shown| == 1 {
      assert shown == [shown[0]];
    }
  }

  /** From then on it is the older of the two frames on the queue. */
  lemma OlderQueuedIsCleared(answers: seq<Answers>)
    requires AllSurvive(answers) && |Displayed(answers)| >= 2
    ensures var t := TallyOf(Run(answers).calls);
      |t.cleared| > 0 && |t.queue| == 2 && t.cleared[|t.cleared| - 1] == t.queue[0]
  {
    BookkeepingOverRuns(answers);
  }

  /**
   Which unit ends the program, after any that did not: the first one needs its buffers registered, and
   every one has to start, not to be busy too long, and to be read out. A decoded one must have a buffer
   and an index, and one with a frame to display has to be found and queued, after turning the stream on
   if it is the first, and before one is dequeued from the third on.
   */
  lemma SurvivesExactly(answers: seq<Answers>, a: Answers)
    requires AllSurvive(answers)
    ensures var shown := |Displayed(answers)|;
      Survives(Run(answers), a)
      <==> && (answers == [] ==> a.registerOk) && a.startOk && !a.busyTooLong && a.outputOk
           && (a.needsMoreData
               || (!a.psBufferShort && !a.sliceBufferShort
                   && (a.displayIndex < -1
                       || (a.displayIndex >= 0 && a.queryOk && a.queueOk
                           && (shown == 0 ==> a.streamOnOk) && (shown >= 2 ==> a.dequeueOk)))))
  {
    BookkeepingOverRuns(answers);
  }

  /** A run survives as long as each of its units does. */
  lemma AllSurviveExactly(answers: seq<Answers>, a: Answers)
    ensures AllSurvive([])
    ensures AllSurvive(answers + [a]) <==> AllSurvive(answers) && Survives(Run(answers), a)
  {
    var all := answers + [a];
    assert all[..|answers|] == answers && all[|answers|] == a;
    forall k | 0 <= k < |answers| ensures all[..k] == answers[..k] && all[k] == answers[k] {
    }
    if AllSurvive(all) {
      assert Survives(Run(all[..|answers|]), all[|answers|]);
      forall k | 0 <= k < |answers| ensures Survives(Run(answers[..k]), answers[k]) {
        assert Survives(Run(all[..k]), all[k]);
      }
    }
  }

  /** And which frame a surviving unit displays. */
  lemma DisplaysExactly(answers: seq<Answers>, a: Answers)
    ensures Displayed(answers + [a])
         == if a.needsMoreData || a.displayIndex < 0 then Displayed(answers) else Displayed(answers) + [a.displayIndex]
  {
    assert (answers + [a])[..|answers|] == answers;
  }

  /** The calls of a unit that follows these many units and these frames. */
  function CallsOf(units: nat, shown: seq<int>, a: Answers): seq<Call> {
    (if units == 0 then [Register] else []) + [StartFrame]
    + if a.needsMoreData || a.displayIndex < 0 then [] else CallsToShow(shown, a.displayIndex)
  }

  function CallsToShow(shown: seq<int>, i: int): seq<Call> {
    [Queue(i)]
    + (if shown == [] then [StreamOn] else [])
    + (if |shown| >= 2 then [Dequeue] else [])
    + [ClearFlag(if shown == [] then 0 else shown[|shown| - 1])]
  }

  lemma StepCalls(s: State, units: nat, shown: seq<int>, a: Answers)
    requires Flags(s, units, shown) && forall i :: i in shown ==> i >= 0
    ensures Step(s, a).calls == s.calls + CallsOf(units, shown, a)
  {
    assert shown != [] ==> shown[|shown| - 1] in shown;
    if Shown(a).Some? {
      assert ShowCalls(State(true, false, s.displaying, s.queuedCount, s.dispClrIndex, []), a.displayIndex)
          == CallsToShow(shown, a.displayIndex);
      assert s.calls + BeginCalls(s) + CallsToShow(shown, a.displayIndex)
          == s.calls + (BeginCalls(s) + CallsToShow(shown, a.displayIndex));
    }
  }

  /** After any surviving units, the calls of the next one, in order. */
  lemma CallsExactly(answers: seq<Answers>, a: Answers)
    requires AllSurvive(answers)
    ensures Run(answers + [a]).calls == Run(answers).calls + CallsOf(|answers|, Displayed(answers), a)
  {
    BookkeepingOverRuns(answers);
    DisplayedAreFrames(answers);
    FoldExtend(Step, START, answers, a);
    StepCalls(Run(answers), |answers|, Displayed(answers), a);
  }
}
