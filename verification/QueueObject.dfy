/** The submission queues as they run, against the specification of admission and draining. */
module QueueObject {
  import opened Words
  import GuestMemory
  import opened Pm4
  import opened CommandProcessor
  import opened DecoderBounds
  import opened SubmissionQueue
  import opened QueueAccounting

  datatype DrainResult = DrainResult(
    completed: nat, failed: nat, blockedQueues: nat, pending: nat, firstFailure: Option<Result>,
    passLimitReached: bool)

  function Completed(done: seq<Done>): nat {
    if done == [] then 0
    else Completed(done[..|done| - 1]) + if done[|done| - 1].result.status == Complete then 1 else 0
  }

  function FirstFailure(done: seq<Done>): Option<Result> {
    if done == [] then None
    else
      var earlier := FirstFailure(done[..|done| - 1]);
      var last := done[|done| - 1].result;
      if earlier.Some? || last.status == Complete then earlier else Some(last)
  }

  function Occupied(lanes: seq<LaneQueue>): nat {
    if lanes == [] then 0 else Occupied(lanes[1..]) + if lanes[0].items == [] then 0 else 1
  }

  class Queues<S> {
    const sink: Sink<S>
    var world: World<S>
    var graphics: seq<Submission>
    var compute: seq<LaneQueue>
    var limits: QueueLimits
    var nextId: u64
    var pendingSubmissions: nat
    var pendingRootDwords: nat

    constructor (sink: Sink<S>, world: World<S>, limits: QueueLimits)
      ensures this.sink == sink && this.world == world
      ensures State() == QueueState([LaneQueue(Graphics, [])], limits, 1, 0, 0) && Conserved(State())
    {
      this.sink, this.world, this.limits := sink, world, limits;
      graphics, compute := [], [];
      nextId, pendingSubmissions, pendingRootDwords := 1, 0, 0;
    }

    ghost function Lanes(): seq<LaneQueue>
      reads this
    {
      [LaneQueue(Graphics, graphics)] + compute
    }

    ghost function State(): QueueState
      reads this
    {
      QueueState(Lanes(), limits, nextId, pendingSubmissions, pendingRootDwords)
    }

    // ---------------------------------------------------------------- admission

    method SetLane(lane: Lane, items: seq<Submission>)
      modifies this`graphics, this`compute
      ensures Lanes() == Put(old(Lanes()), lane, items)
    {
      ghost var before := Lanes();
      match lane {
        case Graphics => graphics := items;
        case Compute(_) => compute := Put(compute, lane, items);
      }
      assert before[1..] == old(compute);
    }

    method LaneItems(lane: Lane) returns (items: seq<Submission>)
      ensures items == ItemsIn(Lanes(), lane)
    {
      assert Lanes()[1..] == compute;
      items := if lane == Graphics then graphics else ItemsIn(compute, lane);
    }

    method EnqueueOne(lane: Lane, b: Buffer, requested: QueueLimits) returns (a: Admission)
      requires Conserved(State())
      modifies this
      ensures (State(), a) == Enqueue(old(State()), world.memory, lane, b, requested)
      ensures world == old(world) && Conserved(State())
    {
      hide Put, ItemsIn, Begin;
      EnqueueConserves(State(), world.memory, lane, b, requested);
      if requested.maxPendingSubmissions == 0 || requested.maxPendingRootDwords == 0 ||
         requested.maxDrainPasses == 0 || pendingSubmissions >= requested.maxPendingSubmissions {
        return Rejected(Limit);
      }
      var used := if pendingRootDwords < requested.maxPendingRootDwords then pendingRootDwords
                  else requested.maxPendingRootDwords;
      if b.dwords > requested.maxPendingRootDwords - used {
        return Rejected(Limit);
      }
      var cursor := Begin(requested.command, world.memory, b.address, b.dwords);
      if cursor.terminal {
        return Rejected(RefusalOf(cursor.result.status));
      }
      var items := LaneItems(lane);
      if nextId == 0 || pendingRootDwords > TWO64 - 1 - b.dwords {
        SetLane(lane, items);
        return Rejected(Limit);
      }
      var id := nextId;
      SetLane(lane, items + [Submission(id, b.dwords, cursor)]);
      nextId := (nextId + 1) % TWO64;
      pendingSubmissions := pendingSubmissions + 1;
      pendingRootDwords := pendingRootDwords + b.dwords;
      limits := requested;
      return Accepted(id);
    }

    /** The batch goes to the end of its lane, numbered from the next id. */
    method PushBatch(lane: Lane, buffers: seq<Buffer>, cursors: seq<Cursor>)
      requires |cursors| == |buffers| && 0 < nextId && nextId + |buffers| <= TWO64
      modifies this`graphics, this`compute
      ensures Lanes() == Put(old(Lanes()), lane, ItemsIn(old(Lanes()), lane) + Numbered(nextId, buffers, cursors))
    {
      hide Put, ItemsIn;
      var items := LaneItems(lane);
      ghost var before, batch := items, Numbered(nextId, buffers, cursors);
      var index := 0;
      while index < |buffers|
        invariant 0 <= index <= |buffers|
        invariant items == before + batch[..index]
      {
        items := items + [Submission(nextId + index, buffers[index].dwords, cursors[index])];
        index := index + 1;
      }
      assert batch[..|buffers|] == batch;
      SetLane(lane, items);
    }

    /** A lane created only for a batch that is then refused disappears again, so a refusal
        leaves no trace. */
    method EnqueueMany(lane: Lane, buffers: seq<Buffer>, requested: QueueLimits) returns (a: Admission)
      requires Conserved(State())
      modifies this
      ensures (State(), a) == EnqueueBatch(old(State()), world.memory, lane, buffers, requested)
      ensures world == old(world) && Conserved(State())
    {
      hide Put, ItemsIn, Begin, Conserved, Numbered, OpenAll, Extends, IsBatch;
      BatchConserves(State(), world.memory, lane, buffers, requested);
      if buffers == [] {
        return Rejected(BadArgument);
      }
      if requested.maxPendingSubmissions == 0 || requested.maxPendingRootDwords == 0 ||
         requested.maxDrainPasses == 0 || |buffers| > requested.maxPendingSubmissions ||
         pendingSubmissions > requested.maxPendingSubmissions - |buffers| {
        return Rejected(Limit);
      }
      var total := TotalDwords(buffers);
      if total.None? || total.value > requested.maxPendingRootDwords ||
         pendingRootDwords > requested.maxPendingRootDwords - total.value {
        return Rejected(Limit);
      }
      if nextId == 0 || |buffers| - 1 > TWO64 - 1 - nextId {
        return Rejected(Limit);
      }
      var batch := OpenBuffers(buffers, requested.command);
      if batch.FirstBad? {
        return Rejected(RefusalOf(batch.status));
      }
      PushBatch(lane, buffers, batch.cursors);
      var first := nextId;
      nextId := (nextId + |buffers|) % TWO64;
      pendingSubmissions := pendingSubmissions + |buffers|;
      pendingRootDwords := pendingRootDwords + total.value;
      limits := requested;
      return Accepted(first);
    }

    /** The sum of the buffer sizes, unless it leaves 64 bits. */
    method TotalDwords(buffers: seq<Buffer>) returns (total: Option<u64>)
      ensures total == if BufferDwords(buffers) < TWO64 then Some(BufferDwords(buffers)) else None
    {
      var sum: u64 := 0;
      var index := 0;
      assert buffers[..|buffers|] == buffers;
      while index < |buffers|
        invariant 0 <= index <= |buffers| && sum == BufferDwords(buffers[..index])
      {
        assert buffers[..index + 1][..index] == buffers[..index];
        if buffers[index].dwords > TWO64 - 1 - sum {
          BufferDwordsPrefix(buffers, index + 1);
          return None;
        }
        sum := sum + buffers[index].dwords;
        index := index + 1;
      }
      return Some(sum);
    }

    method OpenBuffers(buffers: seq<Buffer>, command: Limits) returns (r: BatchOpening)
      ensures r == OpenAll(world.memory, buffers, command)
    {
      hide Begin;
      var cursors: seq<Cursor> := [];
      var index := 0;
      assert buffers[..|buffers|] == buffers;
      while index < |buffers|
        invariant 0 <= index <= |buffers|
        invariant OpenAll(world.memory, buffers[..index], command) == AllOpen(cursors)
      {
        assert buffers[..index + 1][..index] == buffers[..index];
        var c := Begin(command, world.memory, buffers[index].address, buffers[index].dwords);
        if c.terminal {
          OpenAllPrefix(world.memory, buffers, index + 1, command);
          return FirstBad(c.result.status);
        }
        cursors := cursors + [c];
        index := index + 1;
      }
      return AllOpen(cursors);
    }

    // ----------------------------------------------------------------- draining

    /** One turn of one queue. The books are charged as each submission leaves. */
    method ProcessItems(lane: Lane, queue: seq<Submission>, ghost before: seq<Done>, stats: DrainResult)
      returns (items: seq<Submission>, progressed: bool, stats': DrainResult, ghost done: seq<Done>)
      requires ItemsOk(queue) && |queue| <= pendingSubmissions && ItemDwords(queue) <= pendingRootDwords
      requires Tallies(stats, before)
      modifies this`world, this`pendingSubmissions, this`pendingRootDwords
      ensures QueueRun(items, world, progressed, done) == ProcessQueue(sink, lane, queue, old(world))
      ensures pendingSubmissions == old(pendingSubmissions) - |done|
      ensures pendingRootDwords == old(pendingRootDwords) - DoneDwords(done)
      ensures Tallies(stats', before + done)
    {
      hide Resume, ItemOk, ItemsOk, Tallies, Tally, ProcessQueue, ItemDwords, DoneDwords;
      items, progressed, stats', done := queue, false, stats, [];
      assert before + done == before;
      DoneNothing(done);
      assert done + ProcessQueue(sink, lane, items, world).done == ProcessQueue(sink, lane, items, world).done;
      while items != []
        invariant ItemsOk(items)
        invariant Tallies(stats', before + done)
        invariant pendingSubmissions == old(pendingSubmissions) - |done| >= |items|
        invariant pendingRootDwords == old(pendingRootDwords) - DoneDwords(done) >= ItemDwords(items)
        invariant var now := ProcessQueue(sink, lane, items, world);
          ProcessQueue(sink, lane, queue, old(world)) ==
          QueueRun(now.items, now.world, progressed || now.progressed, done + now.done)
        decreases |items|
      {
        var s := items[0];
        QueueStep(sink, lane, items, world);
        FirstDwords(items);
        var (cursor, w) := Resume(sink, s.cursor, world);
        world := w;
        progressed := progressed || |cursor.log| != |s.cursor.log|;
        if cursor.result.status == Blocked {
          items := [s.(cursor := cursor)] + items[1..];
          assert done + [] == done;
          return;
        }
        ghost var one := Done(lane, s.id, s.rootDwords, cursor.result);
        TallyOne(stats', before + done, one);
        stats' := Tally(stats', cursor.result);
        pendingRootDwords := pendingRootDwords - s.rootDwords;
        pendingSubmissions := pendingSubmissions - 1;
        DoneOne(done, one);
        ghost var rest := ProcessQueue(sink, lane, items[1..], world).done;
        assert done + ([one] + rest) == (done + [one]) + rest;
        assert before + (done + [one]) == (before + done) + [one];
        done := done + [one];
        items := items[1..];
        progressed := true;
      }
      QueueEmpty(sink, lane, world);
      assert done + [] == done;
    }

    /** Gives every compute queue one turn, in the order of their owners. */
    method RunComputeLanes(ghost before: seq<Done>, stats: DrainResult)
      returns (progressed: bool, stats': DrainResult, ghost done: seq<Done>)
      requires LanesOk(compute) && Tallies(stats, before)
      requires pendingSubmissions >= Count(compute) && pendingRootDwords >= Dwords(compute)
      modifies this`world, this`compute, this`pendingSubmissions, this`pendingRootDwords
      ensures PassRun(compute, world, progressed, done) == Pass(sink, old(compute), old(world))
      ensures pendingSubmissions == old(pendingSubmissions) - |done|
      ensures pendingRootDwords == old(pendingRootDwords) - DoneDwords(done)
      ensures Tallies(stats', before + done)
    {
      hide ProcessQueue, ItemsOk, Tallies, Pass, Count, Dwords, DoneDwords, ItemDwords, JoinPass;
      progressed, stats', done := false, stats, [];
      var index := 0;
      assert compute[0..] == compute && before + [] == before;
      DoneNothing(done);
      JoinNothing(compute[..0], Pass(sink, compute, world));
      while index < |compute|
        invariant 0 <= index <= |compute|
        invariant LanesOk(compute) && LanesOk(compute[index..])
        invariant Tallies(stats', before + done)
        invariant pendingSubmissions == old(pendingSubmissions) - |done| >= Count(compute[index..])
        invariant pendingRootDwords == old(pendingRootDwords) - DoneDwords(done) >= Dwords(compute[index..])
        invariant Pass(sink, old(compute), old(world)) ==
                  JoinPass(compute[..index], progressed, done, Pass(sink, compute[index..], world))
      {
        ghost var remaining, kept := compute[index..], compute[..index];
        assert remaining[1..] == compute[index + 1..];
        PassStep(sink, remaining, world);
        JoinStep(sink, kept, progressed, done, remaining, world);
        var items, moved;
        ghost var finished;
        items, moved, stats', finished := ProcessItems(compute[index].lane, compute[index].items, before + done, stats');
        DoneDwordsConcat(done, finished);
        assert (before + done) + finished == before + (done + finished);
        LanesOkSplit(compute, index, items);
        compute := compute[index := compute[index].(items := items)];
        assert compute[..index + 1] == kept + [compute[index]];
        assert compute[index + 1..] == remaining[1..];
        progressed := moved || progressed;
        done := done + finished;
        index := index + 1;
      }
      assert compute[index..] == [] && compute[..index] == compute;
      JoinEnd(sink, compute, progressed, done, world);
    }

    /** Gives every queue one turn, graphics first. */
    method RunPass(ghost before: seq<Done>, stats: DrainResult)
      returns (progressed: bool, stats': DrainResult, ghost done: seq<Done>)
      requires LanesOk(Lanes()) && Tallies(stats, before)
      requires pendingSubmissions == Count(Lanes()) && pendingRootDwords == Dwords(Lanes())
      modifies this`world, this`graphics, this`compute, this`pendingSubmissions, this`pendingRootDwords
      ensures PassRun(Lanes(), world, progressed, done) == Pass(sink, old(Lanes()), old(world))
      ensures pendingSubmissions == Count(Lanes()) && pendingRootDwords == Dwords(Lanes())
      ensures Tallies(stats', before + done)
    {
      hide ProcessQueue, ItemsOk, LanesOk, Tallies, Pass, Count, Dwords, DoneDwords, ItemDwords;
      PassConserves(sink, Lanes(), world);
      PassStep(sink, Lanes(), world);
      assert Lanes()[1..] == compute;
      graphics, progressed, stats', done := ProcessItems(Graphics, graphics, before, stats);
      var moved;
      ghost var later;
      moved, stats', later := RunComputeLanes(before + done, stats');
      DoneDwordsConcat(done, later);
      assert (before + done) + later == before + (done + later);
      progressed, done := moved || progressed, done + later;
    }

    /** Drops compute queues that are empty and counts the ones that are not. */
    method EraseEmptyLanes() returns (blocked: nat)
      modifies this`compute
      ensures Lanes() == Compact(old(Lanes())) && blocked == Occupied(Lanes())
      requires forall i :: 0 <= i < |compute| ==> compute[i].lane != Graphics
    {
      ghost var all := compute;
      assert Lanes()[1..] == compute;
      var kept: seq<LaneQueue> := [];
      var index := 0;
      blocked := if graphics == [] then 0 else 1;
      assert all[0..] == all;
      while index < |compute|
        invariant 0 <= index <= |compute| && compute == all
        invariant kept + Compact(compute[index..]) == Compact(compute)
        invariant blocked == Occupied(kept) + if graphics == [] then 0 else 1
      {
        assert compute[index..][1..] == compute[index + 1..];
        if compute[index].items != [] {
          blocked := blocked + 1;
          OccupiedAppend(kept, compute[index]);
          assert kept + ([compute[index]] + Compact(compute[index + 1..])) ==
                 (kept + [compute[index]]) + Compact(compute[index + 1..]);
          kept := kept + [compute[index]];
        }
        index := index + 1;
      }
      assert kept + [] == kept;
      compute := kept;
      assert Lanes()[1..] == kept;
    }

    method DrainQueues() returns (result: DrainResult, ghost drained: Drained<S>)
      requires Conserved(State())
      modifies this
      ensures Conserved(State())
      ensures (State(), drained) == Drain(sink, old(State()), old(world)) && world == drained.world
      ensures Tallies(result, drained.done)
      ensures result.pending == pendingSubmissions && result.blockedQueues == Occupied(Lanes())
      ensures result.passLimitReached <==> !drained.settled && pendingSubmissions != 0
    {
      hide Pass, Passes, Tallies, ItemsOk, Compact, Count, Dwords, DoneDwords, ItemsIn, DoneIds, Ids;
      DrainConserves(sink, State(), world);
      var stats := DrainResult(0, 0, 0, 0, None, false);
      ghost var lanes, done := Lanes(), [];
      ghost var whole := Passes(sink, lanes, world, limits.maxDrainPasses);
      TalliesNothing(stats);
      var settled := false;
      var pass := 0;
      assert [] + whole.done == whole.done;
      while pass < limits.maxDrainPasses && !settled
        invariant 0 <= pass <= limits.maxDrainPasses
        invariant limits == old(limits) && nextId == old(nextId)
        invariant LanesOk(Lanes())
        invariant pendingSubmissions == Count(Lanes()) && pendingRootDwords == Dwords(Lanes())
        invariant Tallies(stats, done)
        invariant !settled ==>
          var rest := Passes(sink, Lanes(), world, limits.maxDrainPasses - pass);
          whole == rest.(done := done + rest.done)
        invariant settled ==> whole == Drained(Lanes(), world, true, done)
      {
        PassesStep(sink, done, Lanes(), world, limits.maxDrainPasses - pass);
        ghost var finished;
        var progressed;
        progressed, stats, finished := RunPass(done, stats);
        done := done + finished;
        settled := !progressed;
        pass := pass + 1;
      }
      PassesEnd(sink, done, Lanes(), world);
      drained := Drained(Lanes(), world, settled, done);
      assert drained == whole;
      assert forall i :: 0 <= i < |compute| ==> compute[i].lane != Graphics by {
        forall i | 0 <= i < |compute| ensures compute[i].lane != Graphics {
          assert Lanes()[i + 1].lane == lanes[i + 1].lane;
        }
      }
      PassesConserve(sink, lanes, old(world), limits.maxDrainPasses);
      var limitReached := !settled && pendingSubmissions != 0;
      var blocked := EraseEmptyLanes();
      TalliesUpdate(stats, done, blocked, pendingSubmissions, limitReached);
      result := stats.(blockedQueues := blocked, pending := pendingSubmissions, passLimitReached := limitReached);
    }
  }

  lemma TalliesNothing(stats: DrainResult)
    requires stats.completed == 0 && stats.failed == 0 && stats.firstFailure.None?
    ensures Tallies(stats, [])
  {
  }

  lemma TalliesUpdate(stats: DrainResult, done: seq<Done>, blocked: nat, pending: nat, reached: bool)
    requires Tallies(stats, done)
    ensures Tallies(stats.(blockedQueues := blocked, pending := pending, passLimitReached := reached), done)
  {
  }

  lemma {:induction false} OccupiedAppend(lanes: seq<LaneQueue>, one: LaneQueue)
    ensures Occupied(lanes + [one]) == Occupied(lanes) + if one.items == [] then 0 else 1
  {
    if lanes == [] {
      assert (lanes + [one])[1..] == [];
    } else {
      assert (lanes + [one])[1..] == lanes[1..] + [one];
      OccupiedAppend(lanes[1..], one);
    }
  }

  function Tally(stats: DrainResult, r: Result): DrainResult {
    if r.status == Complete then stats.(completed := stats.completed + 1)
    else stats.(failed := stats.failed + 1,
                firstFailure := if stats.firstFailure.Some? then stats.firstFailure else Some(r))
  }

  ghost predicate Tallies(stats: DrainResult, done: seq<Done>) {
    && stats.completed == Completed(done) && stats.completed + stats.failed == |done|
    && stats.firstFailure == FirstFailure(done)
  }

  lemma TallyOne(stats: DrainResult, done: seq<Done>, one: Done)
    requires Tallies(stats, done)
    ensures Tallies(Tally(stats, one.result), done + [one])
  {
    assert (done + [one])[..|done|] == done;
  }

  lemma FirstDwords(items: seq<Submission>)
    requires items != []
    ensures ItemDwords(items) == items[0].rootDwords + ItemDwords(items[1..])
  {
  }

  lemma DoneNothing(done: seq<Done>)
    requires done == []
    ensures DoneDwords(done) == 0
  {
  }

  lemma DoneOne(done: seq<Done>, one: Done)
    ensures DoneDwords(done + [one]) == DoneDwords(done) + one.rootDwords
  {
    DoneDwordsConcat(done, [one]);
    assert [one][1..] == [] && DoneDwords([one]) == one.rootDwords;
  }

  /** One queue's share of a pass. */
  lemma PassStep<S>(sink: Sink<S>, lanes: seq<LaneQueue>, w: World<S>)
    requires LanesOk(lanes) && lanes != []
    ensures ItemsOk(lanes[0].items) && LanesOk(lanes[1..])
    ensures Count(lanes) == |lanes[0].items| + Count(lanes[1..])
    ensures Dwords(lanes) == ItemDwords(lanes[0].items) + Dwords(lanes[1..])
    ensures var first := ProcessQueue(sink, lanes[0].lane, lanes[0].items, w);
      var rest := Pass(sink, lanes[1..], first.world);
      && |first.done| <= |lanes[0].items| && DoneDwords(first.done) <= ItemDwords(lanes[0].items)
      && ItemsOk(first.items)
      && Pass(sink, lanes, w) ==
         PassRun([lanes[0].(items := first.items)] + rest.lanes, rest.world,
                 first.progressed || rest.progressed, first.done + rest.done)
  {
    hide ProcessQueue, ItemsOk;
    QueueConserves(sink, lanes[0].lane, lanes[0].items, w);
  }

  /** A pass whose first lanes are done, completed by what the others still do. */
  ghost function JoinPass<S>(kept: seq<LaneQueue>, progressed: bool, done: seq<Done>, rest: PassRun<S>): PassRun<S> {
    PassRun(kept + rest.lanes, rest.world, progressed || rest.progressed, done + rest.done)
  }

  lemma JoinNothing<S>(kept: seq<LaneQueue>, rest: PassRun<S>)
    requires kept == []
    ensures JoinPass(kept, false, [], rest) == rest
  {
  }

  lemma JoinStep<S>(sink: Sink<S>, kept: seq<LaneQueue>, progressed: bool, done: seq<Done>, lanes: seq<LaneQueue>,
                    w: World<S>)
    requires LanesOk(lanes) && lanes != []
    ensures ItemsOk(lanes[0].items) && LanesOk(lanes[1..])
    ensures var first := ProcessQueue(sink, lanes[0].lane, lanes[0].items, w);
      JoinPass(kept, progressed, done, Pass(sink, lanes, w)) ==
      JoinPass(kept + [lanes[0].(items := first.items)], first.progressed || progressed, done + first.done,
               Pass(sink, lanes[1..], first.world))
  {
    hide ProcessQueue, ItemsOk;
    var first := ProcessQueue(sink, lanes[0].lane, lanes[0].items, w);
    var rest := Pass(sink, lanes[1..], first.world);
    var one := [lanes[0].(items := first.items)];
    assert kept + (one + rest.lanes) == (kept + one) + rest.lanes;
    assert done + (first.done + rest.done) == (done + first.done) + rest.done;
  }

  lemma JoinEnd<S>(sink: Sink<S>, kept: seq<LaneQueue>, progressed: bool, done: seq<Done>, w: World<S>)
    ensures LanesOk([])
    ensures JoinPass(kept, progressed, done, Pass(sink, [], w)) == PassRun(kept, w, progressed, done)
  {
    assert kept + [] == kept && done + [] == done;
  }

  lemma PassesStep<S>(sink: Sink<S>, done: seq<Done>, lanes: seq<LaneQueue>, w: World<S>, limit: nat)
    requires LanesOk(lanes) && limit > 0
    ensures var p := Pass(sink, lanes, w);
      var now := Passes(sink, lanes, w, limit);
      now.(done := done + now.done) ==
      if !p.progressed then Drained(p.lanes, p.world, true, done + p.done)
      else
        var next := Passes(sink, p.lanes, p.world, limit - 1);
        next.(done := (done + p.done) + next.done)
  {
    hide Pass;
    var p := Pass(sink, lanes, w);
    if p.progressed {
      var next := Passes(sink, p.lanes, p.world, limit - 1);
      assert done + (p.done + next.done) == (done + p.done) + next.done;
    }
  }

  lemma PassesEnd<S>(sink: Sink<S>, done: seq<Done>, lanes: seq<LaneQueue>, w: World<S>)
    requires LanesOk(lanes)
    ensures var now := Passes(sink, lanes, w, 0); now.(done := done + now.done) == Drained(lanes, w, false, done)
  {
  }

  lemma LanesOkSplit(lanes: seq<LaneQueue>, index: nat, items: seq<Submission>)
    requires index < |lanes| && LanesOk(lanes) && ItemsOk(items)
    ensures LanesOk(lanes[index := lanes[index].(items := items)]) && LanesOk(lanes[index..])
  {
    hide ItemsOk;
  }

  lemma {:induction false} BufferDwordsPrefix(buffers: seq<Buffer>, n: nat)
    requires n <= |buffers|
    ensures BufferDwords(buffers[..n]) <= BufferDwords(buffers)
    decreases |buffers| - n
  {
    if n < |buffers| {
      assert buffers[..n + 1][..n] == buffers[..n];
      BufferDwordsPrefix(buffers, n + 1);
    } else {
      assert buffers[..n] == buffers;
    }
  }

  lemma {:induction false} OpenAllPrefix(m: GuestMemory.Memory, buffers: seq<Buffer>, n: nat, limits: Limits)
    requires n <= |buffers| && OpenAll(m, buffers[..n], limits).FirstBad?
    ensures OpenAll(m, buffers, limits) == OpenAll(m, buffers[..n], limits)
    decreases |buffers| - n
  {
    hide Begin;
    if n < |buffers| {
      assert buffers[..n + 1][..n] == buffers[..n];
      OpenAllPrefix(m, buffers, n + 1, limits);
    } else {
      assert buffers[..n] == buffers;
    }
  }
}
