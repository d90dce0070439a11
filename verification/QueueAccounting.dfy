/** Admission to the submission queues and the bookkeeping that survives every run. */
module QueueAccounting {
  import opened Words
  import opened GuestMemory
  import opened Pm4
  import opened CommandProcessor
  import opened DecoderBounds
  import opened SubmissionQueue

  datatype Refusal = BadArgument | Fault | Limit

  datatype Admission = Accepted(firstId: u64) | Rejected(reason: Refusal)

  datatype Buffer = Buffer(address: u64, dwords: u32)

  function RefusalOf(status: Status): Refusal {
    match status
    case MemoryFault => Fault
    case ResourceLimit => Limit
    case _ => BadArgument
  }

  // -------------------------------------------------------------------- lanes

  ghost predicate Sorted(lanes: seq<LaneQueue>) {
    forall i, j :: 0 <= i < j < |lanes| ==> Rank(lanes[i].lane) < Rank(lanes[j].lane)
  }

  function ItemsIn(lanes: seq<LaneQueue>, lane: Lane): seq<Submission> {
    if lanes == [] then [] else if lanes[0].lane == lane then lanes[0].items else ItemsIn(lanes[1..], lane)
  }

  /** Replaces the items of a lane, creating the lane in its place if it does not exist. */
  function Put(lanes: seq<LaneQueue>, lane: Lane, items: seq<Submission>): (r: seq<LaneQueue>)
    ensures r != []
  {
    if lanes == [] || Rank(lane) < Rank(lanes[0].lane) then [LaneQueue(lane, items)] + lanes
    else if lanes[0].lane == lane then [LaneQueue(lane, items)] + lanes[1..]
    else [lanes[0]] + Put(lanes[1..], lane, items)
  }

  /** Drops the compute lanes that have nothing left. */
  function Compact(lanes: seq<LaneQueue>): seq<LaneQueue> {
    if lanes == [] then []
    else if lanes[0].items == [] && lanes[0].lane != Graphics then Compact(lanes[1..])
    else [lanes[0]] + Compact(lanes[1..])
  }

  function Count(lanes: seq<LaneQueue>): nat {
    if lanes == [] then 0 else |lanes[0].items| + Count(lanes[1..])
  }

  function ItemDwords(items: seq<Submission>): nat {
    if items == [] then 0 else items[0].rootDwords + ItemDwords(items[1..])
  }

  function Dwords(lanes: seq<LaneQueue>): nat {
    if lanes == [] then 0 else ItemDwords(lanes[0].items) + Dwords(lanes[1..])
  }

  function Ids(items: seq<Submission>): (r: seq<u64>)
    ensures |r| == |items|
  {
    seq(|items|, i requires 0 <= i < |items| => items[i].id)
  }

  // ---------------------------------------------------------------- admission

  predicate RoomFor(st: QueueState, limits: QueueLimits, count: nat, dwords: nat) {
    && limits.maxPendingSubmissions != 0 && limits.maxPendingRootDwords != 0 && limits.maxDrainPasses != 0
    && st.pendingSubmissions + count <= limits.maxPendingSubmissions
    && st.pendingRootDwords + dwords <= limits.maxPendingRootDwords
  }

  /** Admits one buffer. Once it is prepared, only running out of ids can refuse it, and that
      leaves the lane behind even if it was just created. */
  function Enqueue(st: QueueState, m: Memory, lane: Lane, b: Buffer, limits: QueueLimits): (r: (QueueState, Admission)) {
    var space: int := if st.pendingRootDwords < limits.maxPendingRootDwords
                      then limits.maxPendingRootDwords - st.pendingRootDwords else 0;
    if limits.maxPendingSubmissions == 0 || limits.maxPendingRootDwords == 0 || limits.maxDrainPasses == 0 ||
       st.pendingSubmissions >= limits.maxPendingSubmissions || b.dwords > space then (st, Rejected(Limit))
    else
      var cursor := Begin(limits.command, m, b.address, b.dwords);
      if cursor.terminal then (st, Rejected(RefusalOf(cursor.result.status)))
      else
        var items := ItemsIn(st.lanes, lane);
        if st.nextId == 0 || st.pendingRootDwords + b.dwords >= TWO64 then
          (st.(lanes := Put(st.lanes, lane, items)), Rejected(Limit))
        else
          (QueueState(Put(st.lanes, lane, items + [Submission(st.nextId, b.dwords, cursor)]), limits,
                      (st.nextId + 1) % TWO64, st.pendingSubmissions + 1, st.pendingRootDwords + b.dwords),
           Accepted(st.nextId))
  }

  function BufferDwords(buffers: seq<Buffer>): nat {
    if buffers == [] then 0 else BufferDwords(buffers[..|buffers| - 1]) + buffers[|buffers| - 1].dwords
  }

  /** The cursors of a batch, or the status of the first buffer that cannot be opened. */
  datatype BatchOpening = AllOpen(cursors: seq<Cursor>) | FirstBad(status: Status)

  function OpenAll(m: Memory, buffers: seq<Buffer>, limits: Limits): (r: BatchOpening)
    ensures r.AllOpen? ==> |r.cursors| == |buffers|
  {
    if buffers == [] then AllOpen([])
    else
      match OpenAll(m, buffers[..|buffers| - 1], limits)
      case FirstBad(status) => FirstBad(status)
      case AllOpen(cursors) =>
        var b := buffers[|buffers| - 1];
        var c := Begin(limits, m, b.address, b.dwords);
        if c.terminal then FirstBad(c.result.status) else AllOpen(cursors + [c])
  }

  function Numbered(first: u64, buffers: seq<Buffer>, cursors: seq<Cursor>): (r: seq<Submission>)
    requires |cursors| == |buffers| && first + |buffers| <= TWO64
    ensures |r| == |buffers|
    ensures forall i :: 0 <= i < |r| ==> r[i] == Submission(first + i, buffers[i].dwords, cursors[i])
  {
    seq(|buffers|, i requires 0 <= i < |buffers| => Submission(first + i, buffers[i].dwords, cursors[i]))
  }

  function EnqueueBatch(st: QueueState, m: Memory, lane: Lane, buffers: seq<Buffer>, limits: QueueLimits)
    : (r: (QueueState, Admission))
  {
    if buffers == [] then (st, Rejected(BadArgument))
    else
      var total := BufferDwords(buffers);
      if total >= TWO64 || !RoomFor(st, limits, |buffers|, total) || st.nextId == 0 ||
         st.nextId + |buffers| > TWO64 then (st, Rejected(Limit))
      else
        match OpenAll(m, buffers, limits.command)
        case FirstBad(status) => (st, Rejected(RefusalOf(status)))
        case AllOpen(cursors) =>
          var items := ItemsIn(st.lanes, lane) + Numbered(st.nextId, buffers, cursors);
          (QueueState(Put(st.lanes, lane, items), limits, (st.nextId + |buffers|) % TWO64,
                      st.pendingSubmissions + |buffers|, st.pendingRootDwords + total),
           Accepted(st.nextId))
  }

  function DoneDwords(done: seq<Done>): nat {
    if done == [] then 0 else done[0].rootDwords + DoneDwords(done[1..])
  }

  /** Both counters equal what the queues hold and respect the limits last accepted. */
  ghost predicate Conserved(st: QueueState) {
    && Sorted(st.lanes) && st.lanes != [] && st.lanes[0].lane == Graphics && LanesOk(st.lanes)
    && st.pendingSubmissions == Count(st.lanes) <= st.limits.maxPendingSubmissions
    && st.pendingRootDwords == Dwords(st.lanes) <= st.limits.maxPendingRootDwords
  }

  ghost function Drain<S>(sink: Sink<S>, st: QueueState, w: World<S>): (QueueState, Drained<S>)
    requires Conserved(st)
  {
    var d := Passes(sink, st.lanes, w, st.limits.maxDrainPasses);
    PassesConserve(sink, st.lanes, w, st.limits.maxDrainPasses);
    (st.(lanes := Compact(d.lanes), pendingSubmissions := st.pendingSubmissions - |d.done|,
         pendingRootDwords := st.pendingRootDwords - DoneDwords(d.done)), d)
  }

  // ------------------------------------------------------------ lane lemmas

  ghost predicate Has(lanes: seq<LaneQueue>, lane: Lane) {
    exists i :: 0 <= i < |lanes| && lanes[i].lane == lane
  }

  lemma SortedCons(first: LaneQueue, rest: seq<LaneQueue>)
    requires Sorted(rest) && forall i :: 0 <= i < |rest| ==> Rank(first.lane) < Rank(rest[i].lane)
    ensures Sorted([first] + rest)
  {
  }

  lemma {:induction false} PutSorted(lanes: seq<LaneQueue>, lane: Lane, items: seq<Submission>)
    requires Sorted(lanes)
    ensures var r := Put(lanes, lane, items);
      && Sorted(r)
      && (lanes != [] && lanes[0].lane == Graphics ==> r[0].lane == Graphics)
      && (forall i :: 0 <= i < |r| ==> r[i].lane == lane || Has(lanes, r[i].lane))
  {
    if lanes == [] || Rank(lane) < Rank(lanes[0].lane) {
      SortedCons(LaneQueue(lane, items), lanes);
    } else if lanes[0].lane == lane {
      SortedCons(LaneQueue(lane, items), lanes[1..]);
    } else {
      PutSorted(lanes[1..], lane, items);
      var rest := Put(lanes[1..], lane, items);
      forall i | 0 <= i < |rest|
        ensures Rank(lanes[0].lane) < Rank(rest[i].lane) && (rest[i].lane == lane || Has(lanes, rest[i].lane))
      {
        if rest[i].lane != lane {
          var j :| 0 <= j < |lanes[1..]| && lanes[1..][j].lane == rest[i].lane;
          assert lanes[j + 1].lane == rest[i].lane;
        }
      }
      SortedCons(lanes[0], rest);
    }
  }

  lemma {:induction false} PutSums(lanes: seq<LaneQueue>, lane: Lane, items: seq<Submission>)
    requires Sorted(lanes)
    ensures var r := Put(lanes, lane, items);
      && Count(r) == Count(lanes) - |ItemsIn(lanes, lane)| + |items|
      && Dwords(r) == Dwords(lanes) - ItemDwords(ItemsIn(lanes, lane)) + ItemDwords(items)
  {
    var r := Put(lanes, lane, items);
    if lanes == [] || Rank(lane) < Rank(lanes[0].lane) {
      AbsentLane(lanes, lane);
      assert r[1..] == lanes;
    } else if lanes[0].lane == lane {
      assert r[1..] == lanes[1..];
    } else {
      PutSums(lanes[1..], lane, items);
      assert r[1..] == Put(lanes[1..], lane, items);
    }
  }

  lemma {:induction false} PutItems(lanes: seq<LaneQueue>, lane: Lane, items: seq<Submission>, other: Lane)
    requires Sorted(lanes)
    ensures ItemsIn(Put(lanes, lane, items), other) == if other == lane then items else ItemsIn(lanes, other)
  {
    var r := Put(lanes, lane, items);
    if lanes == [] || Rank(lane) < Rank(lanes[0].lane) {
      assert r[1..] == lanes;
    } else if lanes[0].lane == lane {
      assert r[1..] == lanes[1..];
    } else {
      PutItems(lanes[1..], lane, items, other);
      assert r[1..] == Put(lanes[1..], lane, items);
    }
  }

  lemma {:induction false} PutOk(lanes: seq<LaneQueue>, lane: Lane, items: seq<Submission>)
    requires LanesOk(lanes) && ItemsOk(items)
    ensures LanesOk(Put(lanes, lane, items))
  {
    hide ItemsOk;
    if lanes != [] && Rank(lanes[0].lane) <= Rank(lane) && lanes[0].lane != lane {
      PutOk(lanes[1..], lane, items);
    }
  }

  lemma {:induction false} AbsentLane(lanes: seq<LaneQueue>, lane: Lane)
    requires forall i :: 0 <= i < |lanes| ==> lanes[i].lane != lane
    ensures ItemsIn(lanes, lane) == []
  {
    if lanes != [] { AbsentLane(lanes[1..], lane); }
  }

  lemma {:induction false} ItemDwordsConcat(a: seq<Submission>, b: seq<Submission>)
    ensures ItemDwords(a + b) == ItemDwords(a) + ItemDwords(b)
  {
    if a == [] {
      assert a + b == b;
    } else {
      assert (a + b)[1..] == a[1..] + b;
      ItemDwordsConcat(a[1..], b);
    }
  }

  lemma {:induction false} DoneDwordsConcat(a: seq<Done>, b: seq<Done>)
    ensures DoneDwords(a + b) == DoneDwords(a) + DoneDwords(b)
  {
    if a == [] {
      assert a + b == b;
    } else {
      assert (a + b)[1..] == a[1..] + b;
      DoneDwordsConcat(a[1..], b);
    }
  }

  /** The ids a lane finished, in the order it finished them. */
  function DoneIds(done: seq<Done>, lane: Lane): seq<u64> {
    if done == [] then [] else (if done[0].lane == lane then [done[0].id] else []) + DoneIds(done[1..], lane)
  }

  lemma {:induction false} DoneIdsConcat(a: seq<Done>, b: seq<Done>, lane: Lane)
    ensures DoneIds(a + b, lane) == DoneIds(a, lane) + DoneIds(b, lane)
  {
    if a == [] {
      assert a + b == b;
    } else {
      assert (a + b)[1..] == a[1..] + b;
      DoneIdsConcat(a[1..], b, lane);
    }
  }

  // --------------------------------------------------------- draining conserves

  lemma {:induction false} QueueConserves<S>(sink: Sink<S>, lane: Lane, items: seq<Submission>, w: World<S>)
    requires ItemsOk(items)
    ensures var r := ProcessQueue(sink, lane, items, w);
      && |r.done| + |r.items| == |items|
      && DoneDwords(r.done) + ItemDwords(r.items) == ItemDwords(items)
      && DoneIds(r.done, lane) + Ids(r.items) == Ids(items)
      && (forall other :: other != lane ==> DoneIds(r.done, other) == [])
    decreases |items|
  {
    hide Resume, ItemsOk, ProcessQueue;
    if items == [] {
      assert ProcessQueue(sink, lane, items, w) == QueueRun([], w, false, []) by { QueueEmpty(sink, lane, w); }
    } else {
      QueueStep(sink, lane, items, w);
      var s := items[0];
      var (c, w') := Resume(sink, s.cursor, w);
      var r := ProcessQueue(sink, lane, items, w);
      assert Ids(items) == [s.id] + Ids(items[1..]);
      if c.result.status == Blocked {
        assert r.items[1..] == items[1..];
        assert Ids(r.items) == [s.id] + Ids(items[1..]);
      } else {
        QueueConserves(sink, lane, items[1..], w');
        var rest := ProcessQueue(sink, lane, items[1..], w');
        assert r.done[1..] == rest.done;
        assert DoneIds(r.done, lane) == [s.id] + DoneIds(rest.done, lane);
      }
    }
  }

  lemma {:induction false} PassConserves<S>(sink: Sink<S>, lanes: seq<LaneQueue>, w: World<S>)
    requires LanesOk(lanes)
    ensures var p := Pass(sink, lanes, w);
      && |p.done| + Count(p.lanes) == Count(lanes)
      && DoneDwords(p.done) + Dwords(p.lanes) == Dwords(lanes)
    decreases |lanes|
  {
    hide ProcessQueue, ItemsOk;
    if lanes != [] {
      var first := ProcessQueue(sink, lanes[0].lane, lanes[0].items, w);
      QueueConserves(sink, lanes[0].lane, lanes[0].items, w);
      PassConserves(sink, lanes[1..], first.world);
      var rest := Pass(sink, lanes[1..], first.world);
      assert Pass(sink, lanes, w).lanes[1..] == rest.lanes;
      DoneDwordsConcat(first.done, rest.done);
    }
  }

  lemma {:induction false} PassFifo<S>(sink: Sink<S>, lanes: seq<LaneQueue>, w: World<S>, lane: Lane)
    requires LanesOk(lanes) && Sorted(lanes)
    ensures var p := Pass(sink, lanes, w);
      DoneIds(p.done, lane) + Ids(ItemsIn(p.lanes, lane)) == Ids(ItemsIn(lanes, lane))
    ensures var p := Pass(sink, lanes, w);
      (forall i :: 0 <= i < |lanes| ==> lanes[i].lane != lane) ==> DoneIds(p.done, lane) == []
    decreases |lanes|
  {
    hide ProcessQueue, ItemsOk;
    if lanes != [] {
      var first := ProcessQueue(sink, lanes[0].lane, lanes[0].items, w);
      QueueConserves(sink, lanes[0].lane, lanes[0].items, w);
      PassFifo(sink, lanes[1..], first.world, lane);
      var rest := Pass(sink, lanes[1..], first.world);
      assert Pass(sink, lanes, w).lanes[1..] == rest.lanes;
      DoneIdsConcat(first.done, rest.done, lane);
    }
  }

  lemma {:induction false} PassesConserve<S>(sink: Sink<S>, lanes: seq<LaneQueue>, w: World<S>, limit: nat)
    requires LanesOk(lanes)
    ensures var d := Passes(sink, lanes, w, limit);
      && |d.done| + Count(d.lanes) == Count(lanes)
      && DoneDwords(d.done) + Dwords(d.lanes) == Dwords(lanes)
    decreases limit
  {
    hide Pass;
    if limit > 0 {
      var p := Pass(sink, lanes, w);
      PassConserves(sink, lanes, w);
      if p.progressed {
        PassesConserve(sink, p.lanes, p.world, limit - 1);
        DoneDwordsConcat(p.done, Passes(sink, p.lanes, p.world, limit - 1).done);
      }
    }
  }

  lemma NothingDone(lanes: seq<LaneQueue>, lane: Lane)
    ensures DoneIds([], lane) + Ids(ItemsIn(lanes, lane)) == Ids(ItemsIn(lanes, lane))
  {
  }

  /** Each lane finishes in the order it was filled, whatever the other lanes do. */
  lemma {:induction false} DrainIsFifo<S>(sink: Sink<S>, lanes: seq<LaneQueue>, w: World<S>, limit: nat, lane: Lane)
    requires LanesOk(lanes) && Sorted(lanes)
    ensures var d := Passes(sink, lanes, w, limit);
      DoneIds(d.done, lane) + Ids(ItemsIn(d.lanes, lane)) == Ids(ItemsIn(lanes, lane))
    decreases limit
  {
    hide Pass, ItemsIn, DoneIds, Ids, ItemsOk;
    if limit == 0 {
      NothingDone(lanes, lane);
    } else {
      var p := Pass(sink, lanes, w);
      PassFifo(sink, lanes, w, lane);
      if p.progressed {
        DrainIsFifo(sink, p.lanes, p.world, limit - 1, lane);
        var rest := Passes(sink, p.lanes, p.world, limit - 1);
        DoneIdsConcat(p.done, rest.done, lane);
        var a, b, c := DoneIds(p.done, lane), DoneIds(rest.done, lane), Ids(ItemsIn(rest.lanes, lane));
        assert (a + b) + c == a + (b + c);
      }
    }
  }

  lemma {:induction false} CompactFacts(lanes: seq<LaneQueue>)
    requires Sorted(lanes) && LanesOk(lanes)
    ensures var r := Compact(lanes);
      && Sorted(r) && LanesOk(r) && Count(r) == Count(lanes) && Dwords(r) == Dwords(lanes)
      && (lanes != [] && lanes[0].lane == Graphics ==> r != [] && r[0].lane == Graphics)
      && (forall i :: 0 <= i < |r| ==> Has(lanes, r[i].lane) && (r[i].items != [] || r[i].lane == Graphics))
  {
    hide ItemsOk;
    if lanes != [] {
      CompactFacts(lanes[1..]);
      var rest := Compact(lanes[1..]);
      forall i | 0 <= i < |rest| ensures Rank(lanes[0].lane) < Rank(rest[i].lane) && Has(lanes, rest[i].lane) {
        var j :| 0 <= j < |lanes[1..]| && lanes[1..][j].lane == rest[i].lane;
        assert lanes[j + 1].lane == rest[i].lane;
      }
      if lanes[0].items != [] || lanes[0].lane == Graphics {
        SortedCons(lanes[0], rest);
        assert Compact(lanes)[1..] == rest;
      }
    }
  }

  lemma {:induction false} CompactItems(lanes: seq<LaneQueue>, lane: Lane)
    requires Sorted(lanes)
    ensures ItemsIn(Compact(lanes), lane) == ItemsIn(lanes, lane)
  {
    if lanes != [] {
      CompactItems(lanes[1..], lane);
      if lanes[0].items == [] && lanes[0].lane != Graphics {
        if lanes[0].lane == lane { AbsentLane(lanes[1..], lane); }
      } else {
        assert Compact(lanes)[1..] == Compact(lanes[1..]);
      }
    }
  }

  // -------------------------------------------------------- admission conserves

  ghost predicate SameBooks(a: QueueState, b: QueueState) {
    && a.limits == b.limits && a.nextId == b.nextId
    && a.pendingSubmissions == b.pendingSubmissions && a.pendingRootDwords == b.pendingRootDwords
    && forall lane :: ItemsIn(a.lanes, lane) == ItemsIn(b.lanes, lane)
  }

  /** `b` is `a` with `added` at the end of one lane, charged to both counters. */
  ghost predicate Extends(a: QueueState, b: QueueState, lane: Lane, added: seq<Submission>) {
    && b.pendingSubmissions == a.pendingSubmissions + |added|
    && b.pendingRootDwords == a.pendingRootDwords + ItemDwords(added)
    && ItemsIn(b.lanes, lane) == ItemsIn(a.lanes, lane) + added
    && forall other :: other != lane ==> ItemsIn(b.lanes, other) == ItemsIn(a.lanes, other)
  }

  lemma {:induction false} ItemsInOk(lanes: seq<LaneQueue>, lane: Lane)
    requires LanesOk(lanes)
    ensures ItemsOk(ItemsIn(lanes, lane))
  {
    hide ItemOk;
    if lanes != [] && lanes[0].lane != lane { ItemsInOk(lanes[1..], lane); }
  }

  lemma PutExtends(st: QueueState, lane: Lane, added: seq<Submission>, limits: QueueLimits, next: u64)
    requires Conserved(st) && ItemsOk(added)
    requires st.pendingSubmissions + |added| <= limits.maxPendingSubmissions
    requires st.pendingRootDwords + ItemDwords(added) <= limits.maxPendingRootDwords
    ensures var items := ItemsIn(st.lanes, lane) + added;
      var r := QueueState(Put(st.lanes, lane, items), limits, next, st.pendingSubmissions + |added|,
                          st.pendingRootDwords + ItemDwords(added));
      Conserved(r) && Extends(st, r, lane, added)
  {
    hide ItemOk, Count, Dwords;
    var items := ItemsIn(st.lanes, lane) + added;
    ItemsInOk(st.lanes, lane);
    PutSorted(st.lanes, lane, items);
    PutSums(st.lanes, lane, items);
    PutOk(st.lanes, lane, items);
    ItemDwordsConcat(ItemsIn(st.lanes, lane), added);
    forall other ensures ItemsIn(Put(st.lanes, lane, items), other) ==
      if other == lane then items else ItemsIn(st.lanes, other)
    {
      PutItems(st.lanes, lane, items, other);
    }
  }

  /** One buffer is admitted whole, under the next id and within the limits, or nothing that
      counts has changed. */
  lemma EnqueueConserves(st: QueueState, m: Memory, lane: Lane, b: Buffer, limits: QueueLimits)
    requires Conserved(st)
    ensures var (n, a) := Enqueue(st, m, lane, b, limits);
      && Conserved(n)
      && (a.Rejected? ==> SameBooks(st, n))
      && (a.Accepted? ==>
            && a.firstId == st.nextId != 0 && n.limits == limits && n.nextId == (st.nextId + 1) % TWO64
            && Extends(st, n, lane, [Submission(st.nextId, b.dwords, Begin(limits.command, m, b.address, b.dwords))]))
  {
    hide Count, Dwords, Sorted, LanesOk;
    var cursor := Begin(limits.command, m, b.address, b.dwords);
    var (n, a) := Enqueue(st, m, lane, b, limits);
    BeginWellFormed(limits.command, m, b.address, b.dwords);
    var one := [Submission(st.nextId, b.dwords, cursor)];
    assert one[1..] == [] && ItemDwords(one) == b.dwords;
    if a.Accepted? {
      PutExtends(st, lane, one, limits, (st.nextId + 1) % TWO64);
    } else {
      PutExtends(st, lane, [], st.limits, st.nextId);
      assert ItemsIn(st.lanes, lane) + [] == ItemsIn(st.lanes, lane);
      assert ItemDwords([]) == 0;
    }
  }

  lemma {:induction false} OpenAllOk(m: Memory, buffers: seq<Buffer>, limits: Limits)
    ensures var o := OpenAll(m, buffers, limits);
      o.AllOpen? ==> forall i :: 0 <= i < |buffers| ==>
        o.cursors[i] == Begin(limits, m, buffers[i].address, buffers[i].dwords) && !o.cursors[i].terminal
  {
    hide Begin;
    if buffers != [] { OpenAllOk(m, buffers[..|buffers| - 1], limits); }
  }

  lemma {:induction false} NumberedDwords(first: u64, buffers: seq<Buffer>, cursors: seq<Cursor>)
    requires |cursors| == |buffers| && first + |buffers| <= TWO64
    ensures ItemDwords(Numbered(first, buffers, cursors)) == BufferDwords(buffers)
  {
    if buffers != [] {
      var n := |buffers| - 1;
      NumberedDwords(first, buffers[..n], cursors[..n]);
      var last := [Submission(first + n, buffers[n].dwords, cursors[n])];
      assert Numbered(first, buffers, cursors) == Numbered(first, buffers[..n], cursors[..n]) + last;
      ItemDwordsConcat(Numbered(first, buffers[..n], cursors[..n]), last);
      assert last[1..] == [] && ItemDwords(last) == buffers[n].dwords;
    }
  }

  ghost predicate IsBatch(added: seq<Submission>, first: u64, m: Memory, buffers: seq<Buffer>, limits: Limits) {
    && |added| == |buffers|
    && forall i :: 0 <= i < |added| ==>
         && added[i].id == first + i && added[i].rootDwords == buffers[i].dwords
         && added[i].cursor == Begin(limits, m, buffers[i].address, buffers[i].dwords)
  }

  /** A batch enters whole, with consecutive ids, or the queues are untouched. */
  lemma BatchConserves(st: QueueState, m: Memory, lane: Lane, buffers: seq<Buffer>, limits: QueueLimits)
    requires Conserved(st)
    ensures var (n, a) := EnqueueBatch(st, m, lane, buffers, limits);
      && Conserved(n)
      && (a.Rejected? ==> n == st)
      && (a.Accepted? ==>
            && a.firstId == st.nextId != 0 && n.limits == limits && st.nextId + |buffers| <= TWO64
            && n.nextId == (st.nextId + |buffers|) % TWO64
            && exists added :: Extends(st, n, lane, added) && IsBatch(added, st.nextId, m, buffers, limits.command))
  {
    hide Count, Dwords, Sorted, LanesOk, Begin, WellFormed;
    var (n, a) := EnqueueBatch(st, m, lane, buffers, limits);
    if a.Accepted? {
      var o := OpenAll(m, buffers, limits.command);
      OpenAllOk(m, buffers, limits.command);
      var added := Numbered(st.nextId, buffers, o.cursors);
      NumberedDwords(st.nextId, buffers, o.cursors);
      forall i | 0 <= i < |added| ensures ItemOk(added[i]) {
        BeginWellFormed(limits.command, m, buffers[i].address, buffers[i].dwords);
      }
      PutExtends(st, lane, added, limits, (st.nextId + |buffers|) % TWO64);
      assert Extends(st, n, lane, added) && IsBatch(added, st.nextId, m, buffers, limits.command);
    }
  }

  // ------------------------------------------------------------------ every run

  datatype Event =
    | Submit(lane: Lane, buffer: Buffer, limits: QueueLimits)
    | SubmitBatch(lane: Lane, buffers: seq<Buffer>, limits: QueueLimits)
    | DrainAll
    | Outside(memory: Memory)

  /** `order` lists the lanes of the accepted submissions: the k-th accepted one has id k + 1. */
  datatype Run<S> = Run(st: QueueState, world: World<S>, order: seq<Lane>, done: seq<Done>)

  function IssuedIds(order: seq<Lane>, lane: Lane): seq<int> {
    if order == [] then []
    else IssuedIds(order[..|order| - 1], lane) + if order[|order| - 1] == lane then [|order|] else []
  }

  /** Accepted is finished plus pending; ids count up from one and are never reused; each lane
      has finished a prefix of what it was given and holds the rest in order. */
  ghost predicate Accounted<S>(r: Run<S>) {
    && Conserved(r.st)
    && |r.order| < TWO64 && r.st.nextId == (|r.order| + 1) % TWO64
    && |r.order| == |r.done| + r.st.pendingSubmissions
    && forall lane :: DoneIds(r.done, lane) + Ids(ItemsIn(r.st.lanes, lane)) == IssuedIds(r.order, lane)
  }

  ghost function Happen<S>(sink: Sink<S>, r: Run<S>, e: Event): Run<S>
    requires Conserved(r.st)
  {
    match e
    case Submit(lane, b, limits) =>
      var (st, a) := Enqueue(r.st, r.world.memory, lane, b, limits);
      r.(st := st, order := if a.Accepted? then r.order + [lane] else r.order)
    case SubmitBatch(lane, buffers, limits) =>
      var (st, a) := EnqueueBatch(r.st, r.world.memory, lane, buffers, limits);
      r.(st := st, order := if a.Accepted? then r.order + seq(|buffers|, _ => lane) else r.order)
    case DrainAll =>
      var (st, d) := Drain(sink, r.st, r.world);
      r.(st := st, world := d.world, done := r.done + d.done)
    case Outside(memory) => r.(world := r.world.(memory := memory))
  }

  lemma {:induction false} IssuedMany(order: seq<Lane>, lane: Lane, count: nat, other: Lane)
    ensures IssuedIds(order + seq(count, _ => lane), other) ==
            IssuedIds(order, other) + if other == lane then seq(count, i => |order| + 1 + i) else []
    decreases count
  {
    var more := order + seq(count, _ => lane);
    if count == 0 {
      assert more == order;
    } else {
      IssuedMany(order, lane, count - 1, other);
      assert more[..|more| - 1] == order + seq(count - 1, _ => lane);
    }
  }

  lemma ExtendedIds<S>(r: Run<S>, n: QueueState, lane: Lane, added: seq<Submission>, other: Lane)
    requires Accounted(r) && Extends(r.st, n, lane, added)
    requires forall i :: 0 <= i < |added| ==> added[i].id == |r.order| + 1 + i
    ensures DoneIds(r.done, other) + Ids(ItemsIn(n.lanes, other)) ==
            IssuedIds(r.order + seq(|added|, _ => lane), other)
  {
    hide ItemsIn, DoneIds, IssuedIds, Conserved;
    IssuedMany(r.order, lane, |added|, other);
    if other == lane {
      var before := ItemsIn(r.st.lanes, lane);
      assert Ids(before + added) == Ids(before) + seq(|added|, i => |r.order| + 1 + i);
      assert DoneIds(r.done, other) + Ids(before) == IssuedIds(r.order, other);
    }
  }

  lemma SubmitAccounted<S>(sink: Sink<S>, r: Run<S>, e: Event)
    requires Accounted(r) && e.Submit?
    ensures Accounted(Happen(sink, r, e))
  {
    hide Enqueue, ItemsIn, DoneIds, IssuedIds, Conserved;
    EnqueueConserves(r.st, r.world.memory, e.lane, e.buffer, e.limits);
    var (n, a) := Enqueue(r.st, r.world.memory, e.lane, e.buffer, e.limits);
    if a.Accepted? {
      var added := [Submission(r.st.nextId, e.buffer.dwords,
                               Begin(e.limits.command, r.world.memory, e.buffer.address, e.buffer.dwords))];
      forall other { ExtendedIds(r, n, e.lane, added, other); }
      assert seq(|added|, _ => e.lane) == [e.lane];
    }
  }

  lemma BatchAccounted<S>(sink: Sink<S>, r: Run<S>, e: Event)
    requires Accounted(r) && e.SubmitBatch?
    ensures Accounted(Happen(sink, r, e))
  {
    hide EnqueueBatch, ItemsIn, DoneIds, IssuedIds, Conserved;
    BatchConserves(r.st, r.world.memory, e.lane, e.buffers, e.limits);
    var (n, a) := EnqueueBatch(r.st, r.world.memory, e.lane, e.buffers, e.limits);
    if a.Accepted? {
      var added :| Extends(r.st, n, e.lane, added)
        && IsBatch(added, r.st.nextId, r.world.memory, e.buffers, e.limits.command);
      forall other { ExtendedIds(r, n, e.lane, added, other); }
    }
  }

  lemma DrainConserves<S>(sink: Sink<S>, st: QueueState, w: World<S>)
    requires Conserved(st)
    ensures var (n, d) := Drain(sink, st, w);
      && Conserved(n) && n.nextId == st.nextId && n.limits == st.limits
      && n.pendingSubmissions + |d.done| == st.pendingSubmissions
      && (forall lane :: DoneIds(d.done, lane) + Ids(ItemsIn(n.lanes, lane)) == Ids(ItemsIn(st.lanes, lane)))
  {
    hide Passes, Compact, Count, Dwords, ItemsIn, DoneIds, ItemsOk;
    var d := Passes(sink, st.lanes, w, st.limits.maxDrainPasses);
    PassesConserve(sink, st.lanes, w, st.limits.maxDrainPasses);
    CompactFacts(d.lanes);
    forall lane ensures DoneIds(d.done, lane) + Ids(ItemsIn(Compact(d.lanes), lane)) == Ids(ItemsIn(st.lanes, lane)) {
      CompactItems(d.lanes, lane);
      DrainIsFifo(sink, st.lanes, w, st.limits.maxDrainPasses, lane);
    }
  }

  lemma DrainAccounted<S>(sink: Sink<S>, r: Run<S>)
    requires Accounted(r)
    ensures Accounted(Happen(sink, r, DrainAll))
  {
    hide Drain, ItemsIn, DoneIds, IssuedIds, Conserved, Ids;
    DrainConserves(sink, r.st, r.world);
    var (n, d) := Drain(sink, r.st, r.world);
    forall lane
      ensures DoneIds(r.done + d.done, lane) + Ids(ItemsIn(n.lanes, lane)) == IssuedIds(r.order, lane)
    {
      DoneIdsConcat(r.done, d.done, lane);
      var a, b, c := DoneIds(r.done, lane), DoneIds(d.done, lane), Ids(ItemsIn(n.lanes, lane));
      assert (a + b) + c == a + (b + c);
    }
  }

  ghost function HappenAll<S>(sink: Sink<S>, r: Run<S>, events: seq<Event>): (n: Run<S>)
    requires Accounted(r)
    ensures Accounted(n)
  {
    if events == [] then r
    else
      var before := HappenAll(sink, r, events[..|events| - 1]);
      var e := events[|events| - 1];
      EventAccounted(sink, before, e);
      Happen(sink, before, e)
  }

  lemma EventAccounted<S>(sink: Sink<S>, r: Run<S>, e: Event)
    requires Accounted(r)
    ensures Accounted(Happen(sink, r, e))
  {
    hide Accounted;
    match e {
      case Submit(_, _, _) => SubmitAccounted(sink, r, e);
      case SubmitBatch(_, _, _) => BatchAccounted(sink, r, e);
      case DrainAll => DrainAccounted(sink, r);
      case Outside(m) => OutsideAccounted(r, m);
    }
  }

  lemma OutsideAccounted<S>(r: Run<S>, m: Memory)
    requires Accounted(r)
    ensures Accounted(r.(world := r.world.(memory := m)))
  {
  }

  /** A queue as it is constructed: graphics only, nothing issued yet. */
  function FreshQueue<S>(limits: QueueLimits, w: World<S>): Run<S> {
    Run(QueueState([LaneQueue(Graphics, [])], limits, 1, 0, 0), w, [], [])
  }

  lemma FreshAccounted<S>(limits: QueueLimits, w: World<S>)
    ensures Accounted(FreshQueue(limits, w))
  {
    forall lane ensures DoneIds([], lane) + Ids(ItemsIn([LaneQueue(Graphics, [])], lane)) == IssuedIds([], lane) {
    }
  }

  /** So the accounting holds on every run of a new queue. */
  lemma EveryRunAccounted<S>(sink: Sink<S>, limits: QueueLimits, w: World<S>, events: seq<Event>)
    ensures Accounted(FreshQueue(limits, w)) && Accounted(HappenAll(sink, FreshQueue(limits, w), events))
  {
    hide Accounted;
    FreshAccounted(limits, w);
  }

  // ------------------------------------------------------------- draining twice

  lemma {:induction false} CompactTwice(lanes: seq<LaneQueue>)
    ensures Compact(Compact(lanes)) == Compact(lanes)
  {
    if lanes != [] {
      CompactTwice(lanes[1..]);
    }
  }

  lemma {:induction false} CompactKeepsEach(lanes: seq<LaneQueue>, m: Memory)
    requires LanesOk(lanes) && forall i :: 0 <= i < |lanes| ==> Stuck(lanes[i].items, m)
    ensures LanesOk(Compact(lanes)) && forall i :: 0 <= i < |Compact(lanes)| ==> Stuck(Compact(lanes)[i].items, m)
  {
    hide Stuck, ItemsOk;
    if lanes != [] {
      CompactKeepsEach(lanes[1..], m);
    }
  }

  /** Draining a settled queue again, with nothing written from outside, submits nothing,
      finishes nothing and leaves lanes, counters and world as they are. */
  lemma SecondDrain<S(!new)>(sink: Sink<S>, st: QueueState, w: World<S>)
    requires NeverBlocks(sink) && Conserved(st)
    ensures var (n, d) := Drain(sink, st, w);
      && Conserved(n)
      && (d.settled ==>
            && (forall i :: 0 <= i < |n.lanes| ==> Stuck(n.lanes[i].items, d.world.memory))
            && Drain(sink, n, d.world) == (n, Drained(n.lanes, d.world, true, [])))
  {
    hide Pass, Stuck, ItemsOk, Conserved, CheckWait;
    var (n, d) := Drain(sink, st, w);
    DrainConserves(sink, st, w);
    ConservedLanes(st);
    var limit := st.limits.maxDrainPasses;
    DrainReachesFixedPoint(sink, st.lanes, w, limit, 0);
    if d.settled {
      CompactKeepsEach(d.lanes, d.world.memory);
      CompactTwice(d.lanes);
      StuckPass(sink, n.lanes, d.world);
    }
  }

  lemma ConservedLanes(st: QueueState)
    requires Conserved(st)
    ensures LanesOk(st.lanes)
  {
  }
}
