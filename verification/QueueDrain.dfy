/** How far one drain goes: its pass budget splits, its passes visit the lanes in order, and a
    drain that is cut short has done at least one piece of work for every pass of its budget. */
module QueueDrain {
  import opened Words
  import opened GuestMemory
  import opened Pm4
  import opened CommandProcessor
  import opened DecoderBounds
  import opened SubmissionQueue
  import opened QueueAccounting

  // --------------------------------------------------------- the budget splits

  lemma {:induction false} PassesSplit<S>(sink: Sink<S>, lanes: seq<LaneQueue>, w: World<S>, a: nat, b: nat)
    requires LanesOk(lanes)
    ensures var d, first := Passes(sink, lanes, w, a + b), Passes(sink, lanes, w, a);
      d == if first.settled then first
           else var rest := Passes(sink, first.lanes, first.world, b); rest.(done := first.done + rest.done)
    decreases a
  {
    hide Pass, LanesOk;
    if a == 0 {
      var rest := Passes(sink, lanes, w, b);
      assert [] + rest.done == rest.done;
    } else {
      var p := Pass(sink, lanes, w);
      if p.progressed {
        PassesSplit(sink, p.lanes, p.world, a - 1, b);
        var first := Passes(sink, p.lanes, p.world, a - 1);
        if !first.settled {
          var rest := Passes(sink, first.lanes, first.world, b);
          assert p.done + (first.done + rest.done) == (p.done + first.done) + rest.done;
        }
      }
    }
  }

  /** An empty lane takes no part in a pass. */
  lemma {:induction false} PassCompact<S>(sink: Sink<S>, lanes: seq<LaneQueue>, w: World<S>)
    requires LanesOk(lanes)
    ensures LanesOk(Compact(lanes))
    ensures var p, q := Pass(sink, lanes, w), Pass(sink, Compact(lanes), w);
      && p.world == q.world && p.progressed == q.progressed && p.done == q.done
      && Compact(p.lanes) == Compact(q.lanes)
    decreases |lanes|
  {
    hide ProcessQueue, ItemsOk;
    if lanes != [] {
      var first := ProcessQueue(sink, lanes[0].lane, lanes[0].items, w);
      PassCompact(sink, lanes[1..], first.world);
      var p := Pass(sink, lanes, w);
      assert p.lanes[1..] == Pass(sink, lanes[1..], first.world).lanes;
      if lanes[0].items == [] && lanes[0].lane != Graphics {
        QueueEmpty(sink, lanes[0].lane, w);
        assert p.done == Pass(sink, lanes[1..], w).done;
      } else {
        var kept := Compact(lanes);
        assert kept[0] == lanes[0] && kept[1..] == Compact(lanes[1..]);
        var q := Pass(sink, kept, w);
        assert q.lanes[1..] == Pass(sink, kept[1..], first.world).lanes;
      }
    }
  }

  /** Lanes that differ only in empty queues drain alike. */
  lemma {:induction false} PassesCompact<S>(sink: Sink<S>, x: seq<LaneQueue>, y: seq<LaneQueue>, w: World<S>, limit: nat)
    requires LanesOk(x) && LanesOk(y) && Compact(x) == Compact(y)
    ensures var d, e := Passes(sink, x, w, limit), Passes(sink, y, w, limit);
      d.world == e.world && d.settled == e.settled && d.done == e.done && Compact(d.lanes) == Compact(e.lanes)
    decreases limit
  {
    hide Pass, LanesOk, Compact;
    if limit > 0 {
      PassCompact(sink, x, w);
      PassCompact(sink, y, w);
      var p, q := Pass(sink, x, w), Pass(sink, y, w);
      if p.progressed {
        PassesCompact(sink, p.lanes, q.lanes, p.world, limit - 1);
      }
    }
  }

  function WithPasses(st: QueueState, passes: u32): QueueState {
    st.(limits := st.limits.(maxDrainPasses := passes))
  }

  /** A drain of `a + b` passes is a drain of `a` passes, followed by one of `b` passes if the
      first did not settle. */
  lemma DrainSplits<S>(sink: Sink<S>, st: QueueState, w: World<S>, a: u32, b: u32)
    requires Conserved(st) && a + b < TWO32
    ensures var (whole, d) := Drain(sink, WithPasses(st, a + b), w);
      var (half, first) := Drain(sink, WithPasses(st, a), w);
      && Conserved(WithPasses(half, b))
      && (first.settled ==> d == first && whole == WithPasses(half, a + b))
      && (!first.settled ==>
            var (rest, second) := Drain(sink, WithPasses(half, b), first.world);
            && whole == WithPasses(rest, a + b) && d.world == second.world && d.settled == second.settled
            && d.done == first.done + second.done)
  {
    hide Passes, LanesOk, Sorted, Count, Dwords, Compact;
    DrainConserves(sink, WithPasses(st, a), w);
    PassesSplit(sink, st.lanes, w, a, b);
    var first := Passes(sink, st.lanes, w, a);
    PassesConserve(sink, st.lanes, w, a);
    if !first.settled {
      CompactTwice(first.lanes);
      var kept := Drain(sink, WithPasses(st, a), w).0.lanes;
      assert kept == Compact(first.lanes);
      PassesCompact(sink, first.lanes, kept, first.world, b);
      var rest := Passes(sink, first.lanes, first.world, b);
      DoneDwordsConcat(first.done, rest.done);
    }
  }

  // ----------------------------------------------------------- order of a pass

  lemma {:induction false} QueueDoneLane<S>(sink: Sink<S>, lane: Lane, items: seq<Submission>, w: World<S>)
    requires ItemsOk(items)
    ensures forall d :: d in ProcessQueue(sink, lane, items, w).done ==> d.lane == lane
    decreases |items|
  {
    hide Resume, ProcessQueue;
    if items == [] {
      QueueEmpty(sink, lane, w);
    } else {
      QueueStep(sink, lane, items, w);
      var (c, w') := Resume(sink, items[0].cursor, w);
      if c.result.status != Blocked {
        QueueDoneLane(sink, lane, items[1..], w');
      }
    }
  }

  ghost predicate Ordered(done: seq<Done>) {
    forall i, j :: 0 <= i < j < |done| ==> Rank(done[i].lane) <= Rank(done[j].lane)
  }

  ghost predicate From(done: seq<Done>, lanes: seq<LaneQueue>) {
    forall d :: d in done ==> Has(lanes, d.lane)
  }

  /** One pass finishes work lane by lane: graphics first, then compute owners upwards. */
  lemma {:induction false} PassIsOrdered<S>(sink: Sink<S>, lanes: seq<LaneQueue>, w: World<S>)
    requires LanesOk(lanes) && Sorted(lanes)
    ensures Ordered(Pass(sink, lanes, w).done) && From(Pass(sink, lanes, w).done, lanes)
    decreases |lanes|
  {
    hide ProcessQueue, ItemsOk;
    if lanes != [] {
      var first := ProcessQueue(sink, lanes[0].lane, lanes[0].items, w);
      QueueDoneLane(sink, lanes[0].lane, lanes[0].items, w);
      PassIsOrdered(sink, lanes[1..], first.world);
      OrderedJoin(lanes, first.done, Pass(sink, lanes[1..], first.world).done);
    }
  }

  lemma OrderedJoin(lanes: seq<LaneQueue>, first: seq<Done>, rest: seq<Done>)
    requires lanes != [] && Sorted(lanes) && Ordered(rest) && From(rest, lanes[1..])
    requires forall d :: d in first ==> d.lane == lanes[0].lane
    ensures Ordered(first + rest) && From(first + rest, lanes)
  {
    forall d | d in first + rest ensures Has(lanes, d.lane) && Rank(lanes[0].lane) <= Rank(d.lane) {
      if d in first {
        assert lanes[0].lane == d.lane;
      } else {
        var k :| 0 <= k < |lanes[1..]| && lanes[1..][k].lane == d.lane;
        assert lanes[k + 1].lane == d.lane;
      }
    }
    forall i, j | 0 <= i < j < |first + rest|
      ensures Rank((first + rest)[i].lane) <= Rank((first + rest)[j].lane)
    {
      if i < |first| {
        assert first[i] in first && (first + rest)[j] in first + rest;
      } else {
        assert Rank(rest[i - |first|].lane) <= Rank(rest[j - |first|].lane);
      }
    }
  }

  // ---------------------------------------------------------- work of a drain

  /** `count` reads off the sink's state how many actions it has accepted. */
  ghost predicate Counts<S(!new)>(sink: Sink<S>, count: S -> int) {
    forall s, m, a ::
      var r := sink(s, m, a);
      count(r.sink) == count(s) + if r.status == Complete then 1 else 0
  }

  /** Accepted actions that are not in the cursor's own log. */
  ghost function Others<S>(count: S -> int, core: Core<S>): int {
    count(core.world.sink) - |core.log|
  }

  lemma EmitCounted<S(!new)>(sink: Sink<S>, count: S -> int, limits: Limits, core: Core<S>, action: Action)
    requires Counts(sink, count)
    ensures Others(count, Emit(sink, limits, core, action).core) == Others(count, core)
  {
  }

  lemma {:induction false} ApplyCounted<S(!new)>(sink: Sink<S>, count: S -> int, limits: Limits, core: Core<S>,
                                                 space: Space, site: Site, entries: seq<RegisterEntry>)
    requires Counts(sink, count)
    ensures Others(count, ApplyRegisters(sink, limits, core, space, site, entries).core) == Others(count, core)
    decreases |entries|
  {
    hide Emit, Counts;
    if entries != [] {
      EmitCounted(sink, count, limits, core, RegisterAction(space, site, entries[0]));
      var s := ApplyRegister(sink, limits, core, space, site, entries[0]);
      if s.Go? { ApplyCounted(sink, count, limits, s.core, space, site, entries[1..]); }
    }
  }

  lemma ExecuteCounted<S(!new)>(sink: Sink<S>, count: S -> int, limits: Limits, core: Core<S>, site: Site, i: Instr,
                                depth: nat)
    requires Counts(sink, count)
    ensures Others(count, Execute(sink, limits, core, site, i, depth).core) == Others(count, core)
  {
    hide ApplyRegisters, CompareWait, Counts;
    match i {
      case DirectRegisters(space, start, words) =>
        ApplyCounted(sink, count, limits, core, space, site, DirectEntries(start, words));
      case IndirectRegisters(space, table, n) =>
        if n <= limits.maxBufferDwords / 2 {
          var r := ReadDwords(limits, core.world.memory, table, 2 * n);
          if r.Fetched? { ApplyCounted(sink, count, limits, core, space, site, TableEntries(table, r.words)); }
        }
      case _ => ExecuteOneCounted(sink, count, limits, core, site, i, depth);
    }
  }

  lemma ExecuteOneCounted<S(!new)>(sink: Sink<S>, count: S -> int, limits: Limits, core: Core<S>, site: Site,
                                   i: Instr, depth: nat)
    requires Counts(sink, count) && !i.DirectRegisters? && !i.IndirectRegisters?
    ensures Others(count, Execute(sink, limits, core, site, i, depth).core) == Others(count, core)
  {
    hide CompareWait, Enrich;
  }

  lemma PacketCounted<S(!new)>(sink: Sink<S>, count: S -> int, limits: Limits, f: Frame, depth: nat, core: Core<S>)
    requires Counts(sink, count) && f.offset < |f.words| && core.processed <= limits.maxProcessedDwords
    ensures Others(count, PacketStep(sink, limits, f, depth, core).core) == Others(count, core)
  {
    hide Decode, Execute, Emit, Counts;
    var at := f.address + 4 * f.offset;
    if at < TWO64 {
      match ParseHeader(f.words[f.offset]) {
        case Type2 =>
          EmitCounted(sink, count, limits, core.(processed := core.processed + 1),
                      MakeAction(Nop, Site(at, 1, 0, 0), []));
        case Type3(opcode, register, dwords) =>
          if dwords <= |f.words| - f.offset {
            ExecuteCounted(sink, count, limits, core.(processed := core.processed + dwords),
                           Site(at, dwords, opcode, register),
                           Decode(opcode, register, f.words[f.offset..f.offset + dwords]), depth);
          }
        case OtherType =>
      }
    }
  }

  lemma {:induction false} RunCounted<S(!new)>(sink: Sink<S>, count: S -> int, limits: Limits, frames: seq<Frame>,
                                               core: Core<S>)
    requires Counts(sink, count) && Bounded(limits, frames, core)
    ensures Others(count, RunFrames(sink, limits, frames, core).core) == Others(count, core)
    decreases limits.maxProcessedDwords - core.processed, |frames|
  {
    hide PacketStep, SizeAt, Counts, Others;
    if frames != [] {
      var top, below := Top(frames), Below(frames);
      if top.offset == |top.words| {
        RunCounted(sink, count, limits, below, core);
      } else {
        PacketStepFacts(sink, limits, top, |below|, core);
        PacketCounted(sink, count, limits, top, |below|, core);
        var s := PacketStep(sink, limits, top, |below|, core);
        if s.Go? && s.effect.Advance? {
          RunCounted(sink, count, limits, below + [top.Skip(SizeAt(top))], s.core);
        } else if s.Go? && s.effect.Enter? {
          var o := OpenFrame(limits, frames, s.core.world.memory, s.effect.target, s.effect.dwords);
          if o.Opened? { RunCounted(sink, count, limits, below + [top.Skip(SizeAt(top)), o.frame], s.core); }
        }
      }
    }
  }

  /** A resume adds to its log exactly what the sink accepted meanwhile. */
  lemma ResumeCounted<S(!new)>(sink: Sink<S>, count: S -> int, cursor: Cursor, w: World<S>)
    requires Counts(sink, count) && Runnable(cursor)
    ensures var (c, w') := Resume(sink, cursor, w);
      count(w'.sink) - count(w.sink) == |c.log| - |cursor.log|
  {
    hide RunFrames, Counts, CompareWait, Poll;
    var core := Core(w, cursor.processed, cursor.log);
    match cursor.pending {
      case None => RunCounted(sink, count, cursor.limits, cursor.frames, core);
      case Some(wait) =>
        var check := CheckWait(cursor.frames, w.memory, wait);
        if check.Released? { RunCounted(sink, count, cursor.limits, check.frames, core); }
    }
  }

  /** Submissions finished and actions accepted between two worlds. */
  ghost function Work<S>(count: S -> int, from: World<S>, to: World<S>, done: seq<Done>): int {
    |done| + count(to.sink) - count(from.sink)
  }

  lemma {:induction false} QueueWork<S(!new)>(sink: Sink<S>, count: S -> int, lane: Lane, items: seq<Submission>,
                                              w: World<S>)
    requires Counts(sink, count) && ItemsOk(items)
    ensures var r := ProcessQueue(sink, lane, items, w);
      Work(count, w, r.world, r.done) >= if r.progressed then 1 else 0
    decreases |items|
  {
    hide Resume, ProcessQueue, Counts, WellFormed, ItemsOk;
    if items == [] {
      assert ProcessQueue(sink, lane, items, w) == QueueRun([], w, false, []) by { QueueEmpty(sink, lane, w); }
    } else {
      QueueStep(sink, lane, items, w);
      FrontGrows(sink, count, items, w);
      var (c, w') := Resume(sink, items[0].cursor, w);
      if c.result.status != Blocked {
        QueueWork(sink, count, lane, items[1..], w');
      }
    }
  }

  lemma FrontGrows<S(!new)>(sink: Sink<S>, count: S -> int, items: seq<Submission>, w: World<S>)
    requires Counts(sink, count) && ItemsOk(items) && items != [] && Runnable(items[0].cursor)
    ensures var (c, w') := Resume(sink, items[0].cursor, w);
      count(w'.sink) - count(w.sink) == |c.log| - |items[0].cursor.log| >= 0
  {
    hide Resume, Counts, WaitAt;
    assert ItemOk(items[0]);
    ResumeWellFormed(sink, items[0].cursor, w);
    ResumeCounted(sink, count, items[0].cursor, w);
  }

  lemma {:induction false} PassWork<S(!new)>(sink: Sink<S>, count: S -> int, lanes: seq<LaneQueue>, w: World<S>)
    requires Counts(sink, count) && LanesOk(lanes)
    ensures var p := Pass(sink, lanes, w);
      Work(count, w, p.world, p.done) >= if p.progressed then 1 else 0
    decreases |lanes|
  {
    hide ProcessQueue, Counts, ItemsOk;
    if lanes != [] {
      var first := ProcessQueue(sink, lanes[0].lane, lanes[0].items, w);
      QueueWork(sink, count, lanes[0].lane, lanes[0].items, w);
      PassWork(sink, count, lanes[1..], first.world);
    }
  }

  lemma {:induction false} PassesWork<S(!new)>(sink: Sink<S>, count: S -> int, lanes: seq<LaneQueue>, w: World<S>,
                                               limit: nat)
    requires Counts(sink, count) && LanesOk(lanes)
    ensures var d := Passes(sink, lanes, w, limit);
      Work(count, w, d.world, d.done) >= if d.settled then 0 else limit
    decreases limit
  {
    hide Pass, Counts;
    if limit > 0 {
      var p := Pass(sink, lanes, w);
      PassWork(sink, count, lanes, w);
      if p.progressed { PassesWork(sink, count, p.lanes, p.world, limit - 1); }
    }
  }

  /** A drain that gives up has earned it: the submissions it finished and the actions its sink
      accepted are together no fewer than the passes it was allowed. */
  lemma UnsettledDrainWorked<S(!new)>(sink: Sink<S>, count: S -> int, st: QueueState, w: World<S>)
    requires Counts(sink, count) && Conserved(st)
    ensures var (_, d) := Drain(sink, st, w);
      !d.settled ==> |d.done| + (count(d.world.sink) - count(w.sink)) >= st.limits.maxDrainPasses
  {
    hide Passes, Counts, Conserved;
    ConservedLanes(st);
    PassesWork(sink, count, st.lanes, w, st.limits.maxDrainPasses);
  }
}
