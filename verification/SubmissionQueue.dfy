/** Graphics and compute submission queues over one runtime: admission, draining, and what
    every run of them keeps. */
module SubmissionQueue {
  import opened Words
  import opened GuestMemory
  import opened Pm4
  import opened CommandProcessor
  import opened DecoderBounds
  import SpinReference

  datatype Lane = Graphics | Compute(owner: u32)

  /** Draining visits graphics first, then compute owners in increasing order. */
  function Rank(lane: Lane): int {
    match lane
    case Graphics => -1
    case Compute(owner) => owner
  }

  datatype Submission = Submission(id: u64, rootDwords: u32, cursor: Cursor)

  datatype LaneQueue = LaneQueue(lane: Lane, items: seq<Submission>)

  datatype QueueLimits = QueueLimits(
    maxPendingSubmissions: u64, maxPendingRootDwords: u64, maxDrainPasses: u32, command: Limits)

  /** `lanes` starts with the graphics queue. An id of zero means that ids have run out. */
  datatype QueueState = QueueState(
    lanes: seq<LaneQueue>, limits: QueueLimits, nextId: u64, pendingSubmissions: nat, pendingRootDwords: nat)

  datatype Done = Done(lane: Lane, id: u64, rootDwords: u32, result: Result)

  // ----------------------------------------------------------------- draining

  ghost predicate ItemsOk(items: seq<Submission>) {
    forall i :: 0 <= i < |items| ==> ItemOk(items[i])
  }

  /** A queued cursor can still run; if it is parked, its result says where. */
  ghost predicate ItemOk(s: Submission) {
    && WellFormed(s.cursor) && !s.cursor.terminal
    && (s.cursor.pending.Some? ==>
          var wait := s.cursor.pending.value;
          s.cursor.result == Result(Blocked, wait.packetAddress, wait.opcode))
  }

  ghost predicate LanesOk(lanes: seq<LaneQueue>) {
    forall i :: 0 <= i < |lanes| ==> ItemsOk(lanes[i].items)
  }

  datatype QueueRun<S> = QueueRun(items: seq<Submission>, world: World<S>, progressed: bool, done: seq<Done>)

  lemma ResumeItem<S>(sink: Sink<S>, s: Submission, w: World<S>)
    requires ItemOk(s)
    ensures var (c, _) := Resume(sink, s.cursor, w);
      && WellFormed(c) && (c.terminal <==> c.result.status != Blocked)
      && (!c.terminal ==> ItemOk(s.(cursor := c)))
  {
    hide RunFrames, CheckWait, WaitAt, StackOk;
    ResumeWellFormed(sink, s.cursor, w);
  }

  /** Resumes the front submission again and again: a finished one leaves, a blocked one ends
      the turn of its queue. */
  ghost function ProcessQueue<S>(sink: Sink<S>, lane: Lane, items: seq<Submission>, w: World<S>): (r: QueueRun<S>)
    requires ItemsOk(items)
    ensures ItemsOk(r.items)
    decreases |items|
  {
    if items == [] then QueueRun([], w, false, [])
    else
      var s := items[0];
      ResumeItem(sink, s, w);
      var (c, w') := Resume(sink, s.cursor, w);
      if c.result.status == Blocked then
        QueueRun([s.(cursor := c)] + items[1..], w', |c.log| != |s.cursor.log|, [])
      else
        var rest := ProcessQueue(sink, lane, items[1..], w');
        rest.(progressed := true, done := [Done(lane, s.id, s.rootDwords, c.result)] + rest.done)
  }

  /** One round of a queue's turn. */
  lemma QueueStep<S>(sink: Sink<S>, lane: Lane, items: seq<Submission>, w: World<S>)
    requires ItemsOk(items) && items != []
    ensures Runnable(items[0].cursor) && ItemsOk(items[1..])
    ensures var (c, w') := Resume(sink, items[0].cursor, w);
      ProcessQueue(sink, lane, items, w) ==
      if c.result.status == Blocked then
        QueueRun([items[0].(cursor := c)] + items[1..], w', |c.log| != |items[0].cursor.log|, [])
      else
        var rest := ProcessQueue(sink, lane, items[1..], w');
        rest.(progressed := true, done := [Done(lane, items[0].id, items[0].rootDwords, c.result)] + rest.done)
  {
    hide Resume, WaitAt;
    assert ItemOk(items[0]);
  }

  lemma QueueEmpty<S>(sink: Sink<S>, lane: Lane, w: World<S>)
    ensures ItemsOk([]) && ProcessQueue(sink, lane, [], w) == QueueRun([], w, false, [])
  {
  }

  datatype PassRun<S> = PassRun(lanes: seq<LaneQueue>, world: World<S>, progressed: bool, done: seq<Done>)

  ghost function Pass<S>(sink: Sink<S>, lanes: seq<LaneQueue>, w: World<S>): (r: PassRun<S>)
    requires LanesOk(lanes)
    ensures LanesOk(r.lanes) && |r.lanes| == |lanes|
    ensures forall i :: 0 <= i < |lanes| ==> r.lanes[i].lane == lanes[i].lane
    decreases |lanes|
  {
    if lanes == [] then PassRun([], w, false, [])
    else
      var first := ProcessQueue(sink, lanes[0].lane, lanes[0].items, w);
      var rest := Pass(sink, lanes[1..], first.world);
      PassRun([lanes[0].(items := first.items)] + rest.lanes, rest.world,
              first.progressed || rest.progressed, first.done + rest.done)
  }

  datatype Drained<S> = Drained(lanes: seq<LaneQueue>, world: World<S>, settled: bool, done: seq<Done>)

  ghost function Passes<S>(sink: Sink<S>, lanes: seq<LaneQueue>, w: World<S>, limit: nat): (r: Drained<S>)
    requires LanesOk(lanes)
    ensures LanesOk(r.lanes) && |r.lanes| == |lanes|
    ensures forall i :: 0 <= i < |lanes| ==> r.lanes[i].lane == lanes[i].lane
    decreases limit
  {
    if limit == 0 then Drained(lanes, w, false, [])
    else
      var p := Pass(sink, lanes, w);
      if !p.progressed then Drained(p.lanes, p.world, true, p.done)
      else
        var rest := Passes(sink, p.lanes, p.world, limit - 1);
        rest.(done := p.done + rest.done)
  }

  // ------------------------------------------------------------- fixed point

  /** The front of a queue waits for guest memory that does not hold the value yet. */
  ghost predicate Stuck(items: seq<Submission>, m: Memory) {
    items != [] ==>
      && items[0].cursor.pending.Some?
      && CheckWait(items[0].cursor.frames, m, items[0].cursor.pending.value).StillBlocked?
  }

  /** With a sink that never blocks, a resume that blocks without submitting anything changed
      nothing at all. */
  lemma BlockedWithoutProgress<S(!new)>(sink: Sink<S>, s: Submission, w: World<S>)
    requires NeverBlocks(sink) && ItemOk(s)
    ensures var (c, w') := Resume(sink, s.cursor, w);
      c.result.status == Blocked && |c.log| == |s.cursor.log| ==>
        w' == w && c == s.cursor && Stuck([s], w.memory)
  {
    hide RunFrames, SizeAt, WaitAt;
    var c := s.cursor;
    var core := Core(w, c.processed, c.log);
    match c.pending {
      case None =>
        RunFramesBounded(sink, c.limits, c.frames, core);
        RunFramesNeverBlocked(sink, c.limits, c.frames, core);
      case Some(wait) =>
        var check := CheckWait(c.frames, w.memory, wait);
        if check.Released? {
          ResumeWellFormed(sink, c, w);
          ReleasedOk(c, w.memory);
          RunFramesBounded(sink, c.limits, check.frames, core);
          RunFramesNeverBlocked(sink, c.limits, check.frames, core);
        }
    }
  }

  lemma {:induction false} RunFramesNeverBlocked<S(!new)>(sink: Sink<S>, limits: Limits, frames: seq<Frame>, core: Core<S>)
    requires NeverBlocks(sink) && Bounded(limits, frames, core)
    ensures var stop := RunFrames(sink, limits, frames, core); stop.Halted? ==> stop.status != Blocked
    decreases limits.maxProcessedDwords - core.processed, |frames|
  {
    hide PacketStep, SizeAt;
    if frames != [] {
      var top, below := Top(frames), Below(frames);
      if top.offset == |top.words| {
        RunFramesNeverBlocked(sink, limits, below, core);
      } else {
        PacketStepFacts(sink, limits, top, |below|, core);
        SpinReference.PacketStepNeverBlocked(sink, limits, top, |below|, core);
        var s := PacketStep(sink, limits, top, |below|, core);
        if s.Go? && s.effect.Advance? {
          RunFramesNeverBlocked(sink, limits, below + [top.Skip(SizeAt(top))], s.core);
        } else if s.Go? && s.effect.Enter? {
          var o := OpenFrame(limits, frames, s.core.world.memory, s.effect.target, s.effect.dwords);
          if o.Opened? {
            RunFramesNeverBlocked(sink, limits, below + [top.Skip(SizeAt(top)), o.frame], s.core);
          }
        }
      }
    }
  }

  lemma QueueWithoutProgress<S(!new)>(sink: Sink<S>, lane: Lane, items: seq<Submission>, w: World<S>)
    requires NeverBlocks(sink) && ItemsOk(items)
    ensures var r := ProcessQueue(sink, lane, items, w);
      !r.progressed ==> r.items == items && r.world == w && r.done == [] && Stuck(items, w.memory)
  {
    hide Resume, CheckWait;
    if items != [] {
      BlockedWithoutProgress(sink, items[0], w);
      assert [items[0]] + items[1..] == items;
    }
  }

  lemma {:induction false} PassWithoutProgress<S(!new)>(sink: Sink<S>, lanes: seq<LaneQueue>, w: World<S>)
    requires NeverBlocks(sink) && LanesOk(lanes)
    ensures var p := Pass(sink, lanes, w);
      !p.progressed ==>
        p.lanes == lanes && p.world == w && p.done == []
        && forall i :: 0 <= i < |lanes| ==> Stuck(lanes[i].items, w.memory)
    decreases |lanes|
  {
    hide ProcessQueue, Stuck;
    if lanes != [] {
      QueueWithoutProgress(sink, lanes[0].lane, lanes[0].items, w);
      if !ProcessQueue(sink, lanes[0].lane, lanes[0].items, w).progressed {
        PassWithoutProgress(sink, lanes[1..], w);
        assert [lanes[0]] + lanes[1..] == lanes;
      }
    }
  }

  /** The converse: if every front is stuck, a pass changes nothing and reports no progress. */
  lemma {:induction false} StuckPass<S>(sink: Sink<S>, lanes: seq<LaneQueue>, w: World<S>)
    requires LanesOk(lanes) && forall i :: 0 <= i < |lanes| ==> Stuck(lanes[i].items, w.memory)
    ensures Pass(sink, lanes, w) == PassRun(lanes, w, false, [])
    decreases |lanes|
  {
    hide CheckWait, WaitAt;
    if lanes != [] {
      var items := lanes[0].items;
      if items != [] {
        assert ItemOk(items[0]);
        assert Resume(sink, items[0].cursor, w) == (items[0].cursor, w);
        assert [items[0]] + items[1..] == items;
      }
      assert ProcessQueue(sink, lanes[0].lane, items, w) == QueueRun(items, w, false, []);
      StuckPass(sink, lanes[1..], w);
      assert [lanes[0]] + lanes[1..] == lanes;
    }
  }

  /** Draining reaches a fixed point. If it settles, every queue that still holds work waits on
      a comparison that is false in the memory it left, and draining again without an outside
      write submits nothing, finishes nothing and moves no queue. */
  lemma {:induction false} DrainReachesFixedPoint<S(!new)>(sink: Sink<S>, lanes: seq<LaneQueue>, w: World<S>, limit: nat,
                                                           again: nat)
    requires NeverBlocks(sink) && LanesOk(lanes)
    ensures var d := Passes(sink, lanes, w, limit);
      d.settled ==>
        && (forall i :: 0 <= i < |d.lanes| ==> Stuck(d.lanes[i].items, d.world.memory))
        && (again > 0 ==> Passes(sink, d.lanes, d.world, again) == Drained(d.lanes, d.world, true, []))
    decreases limit
  {
    hide Pass, Stuck;
    if limit > 0 {
      var p := Pass(sink, lanes, w);
      PassWithoutProgress(sink, lanes, w);
      if p.progressed {
        DrainReachesFixedPoint(sink, p.lanes, p.world, limit - 1, again);
      } else if again > 0 {
        StuckPass(sink, lanes, w);
      }
    }
  }
}
