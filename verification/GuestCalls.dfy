/** The handler calls of one guest thread over a whole run: a blocked call is made again until
    it stops blocking, and a call that does not block is never made again. */
module GuestCalls {
  import opened Words
  import opened GuestThreads

  /** One call of a handler; `retry` marks a call repeated for a blocked thread. */
  datatype HandlerCall = HandlerCall(handler: nat, arguments: Frame, status: HleStatus, retry: bool)

  // ------------------------------------------------------ the calls of a slice

  /** The calls that follow the one just answered. */
  function SettleCalls<W>(m: Machine<W>, w: W, pointer: u64, root: u64, reply: Reply, back: Point, fuel: nat): seq<HandlerCall>
    decreases fuel, 0
  {
    if reply.status != HleOk || reply.yielded || fuel == 0 then []
    else
      var (w', stop) := m.resume(w, pointer, back, reply.value);
      ContinueCalls(m, w', pointer, root, stop, fuel - 1)
  }

  function ContinueCalls<W>(m: Machine<W>, w: W, pointer: u64, root: u64, stop: Stop, fuel: nat): seq<HandlerCall>
    decreases fuel, 1
  {
    match stop
    case Called(handler, arguments, nonvolatile, floating) =>
      var (w', reply) := m.handle(w, handler, arguments, floating, nonvolatile);
      [HandlerCall(handler, arguments, reply.status, false)]
      + SettleCalls(m, w', pointer, root, reply, Captured(m, w', root, arguments, nonvolatile, reply), fuel)
    case _ => []
  }

  function SliceCalls<W>(m: Machine<W>, w: W, h: Handle, pointer: u64, ref: Ref, fuel: nat): seq<HandlerCall> {
    if Refused(m, w, pointer, ref) then [] else
    match ref
    case Unstarted =>
      if !m.entryOk(w, h) then []
      else
        var (w', stop) := m.entry(w, h);
        ContinueCalls(m, w', pointer, m.rootOf(h), stop, fuel)
    case Waiting(handler, arguments, point) =>
      var (w', reply) := m.handle(w, handler, arguments, point.floating, point.nonvolatile);
      [HandlerCall(handler, arguments, reply.status, true)]
      + SettleCalls(m, w', pointer, point.root, reply, point.(floating := reply.floating), fuel)
    case Ready(_, _, value, point) =>
      var (w', stop) := m.resume(w, pointer, point, value);
      ContinueCalls(m, w', pointer, point.root, stop, fuel)
    case Dead => []
  }

  /** Once prepared, the turn runs a slice of thread `h`. */
  predicate Runs<W>(s: RefState<W>, d: Decision, h: Handle) {
    d.selected == Some(h) && d.running && h in s.threads && !s.threads[h].ref.Dead?
  }

  function ChosenCalls<W>(m: Machine<W>, s: RefState<W>, d: Decision, fuel: nat, h: Handle): seq<HandlerCall> {
    if Runs(s, d, h) then SliceCalls(m, s.world, h, s.threads[h].pointer, s.threads[h].ref, fuel) else []
  }

  /** The calls of the thread that has handle `h`, after one more turn: a newly registered
      thread starts with none. */
  function TurnCalls<W>(m: Machine<W>, s: RefState<W>, d: Decision, fuel: nat, h: Handle, before: seq<HandlerCall>): seq<HandlerCall> {
    var (p, ok) := Prepare(m, s, d.ready);
    (if h !in s.threads && h in p.threads then [] else before) + if ok then ChosenCalls(m, p, d, fuel, h) else []
  }

  /** All handler calls of thread `h` in a run, oldest first. */
  function CallsOf<W>(m: Machine<W>, s: RefState<W>, ds: seq<(Decision, nat)>, h: Handle): seq<HandlerCall>
    decreases |ds|
  {
    if ds == [] then []
    else
      var fewer, d := ds[..|ds| - 1], ds[|ds| - 1];
      TurnCalls(m, Turns(m, s, fewer), d.0, d.1, h, CallsOf(m, s, fewer, h))
  }

  // -------------------------------------------------------------- the discipline

  /** A call repeats the one before it exactly when that one blocked. */
  predicate Follows(last: Option<HandlerCall>, c: HandlerCall) {
    && (c.retry <==> last.Some? && last.value.status == HleBlocked)
    && (c.retry ==> c.handler == last.value.handler && c.arguments == last.value.arguments)
  }

  predicate Disciplined(last: Option<HandlerCall>, calls: seq<HandlerCall>)
    decreases |calls|
  {
    calls == [] || (Follows(last, calls[0]) && Disciplined(Some(calls[0]), calls[1..]))
  }

  function Last(last: Option<HandlerCall>, calls: seq<HandlerCall>): Option<HandlerCall> {
    if calls == [] then last else Some(calls[|calls| - 1])
  }

  lemma {:induction false} DisciplinedConcat(last: Option<HandlerCall>, a: seq<HandlerCall>, b: seq<HandlerCall>)
    requires Disciplined(last, a) && Disciplined(Last(last, a), b)
    ensures Disciplined(last, a + b)
    decreases |a|
  {
    if a == [] {
      assert a + b == b;
    } else {
      assert (a + b)[1..] == a[1..] + b;
      DisciplinedConcat(Some(a[0]), a[1..], b);
    }
  }

  lemma LastConcat(last: Option<HandlerCall>, a: seq<HandlerCall>, b: seq<HandlerCall>)
    ensures Last(last, a + b) == Last(Last(last, a), b)
  {
  }

  /** A thread waits exactly when its last call blocked, and then for that call. */
  predicate Linked(last: Option<HandlerCall>, ref: Ref) {
    match ref
    case Waiting(handler, arguments, _) =>
      last.Some? && last.value.status == HleBlocked && last.value.handler == handler && last.value.arguments == arguments
    case Dead => true
    case _ => last.None? || last.value.status != HleBlocked
  }

  /** What a piece of a slice leaves behind. */
  predicate Kept(last: Option<HandlerCall>, calls: seq<HandlerCall>, outcome: Outcome) {
    Disciplined(last, calls) && (outcome.Suspends? ==> Linked(Last(last, calls), outcome.ref))
  }

  lemma KeptOne(last: Option<HandlerCall>, c: HandlerCall, rest: seq<HandlerCall>, outcome: Outcome)
    requires Follows(last, c) && Kept(Some(c), rest, outcome)
    ensures Kept(last, [c] + rest, outcome)
  {
    assert ([c] + rest)[1..] == rest;
    LastConcat(last, [c], rest);
  }

  lemma {:induction false} SettleKept<W>(
    m: Machine<W>, w: W, pointer: u64, root: u64, handler: nat, arguments: Frame, nonvolatile: seq<u64>, reply: Reply, back: Point, fuel: nat,
    c: HandlerCall)
    requires c.handler == handler && c.arguments == arguments && c.status == reply.status
    ensures Kept(Some(c), SettleCalls(m, w, pointer, root, reply, back, fuel),
                 Settle(m, w, pointer, root, handler, arguments, nonvolatile, reply, back, fuel).1)
    decreases fuel, 0
  {
    hide Captured;
    if reply.status == HleOk && !reply.yielded && fuel > 0 {
      var (w', stop) := m.resume(w, pointer, back, reply.value);
      ContinueKept(m, w', pointer, root, stop, fuel - 1, Some(c));
    }
  }

  lemma {:induction false} ContinueKept<W>(m: Machine<W>, w: W, pointer: u64, root: u64, stop: Stop, fuel: nat, last: Option<HandlerCall>)
    requires last.None? || last.value.status != HleBlocked
    ensures Kept(last, ContinueCalls(m, w, pointer, root, stop, fuel), Continue(m, w, pointer, root, stop, fuel).1)
    decreases fuel, 1
  {
    hide Captured, Kept, Settle, SettleCalls;
    if stop.Called? {
      var (w', reply) := m.handle(w, stop.handler, stop.arguments, stop.floating, stop.nonvolatile);
      var c := HandlerCall(stop.handler, stop.arguments, reply.status, false);
      var back := Captured(m, w', root, stop.arguments, stop.nonvolatile, reply);
      SettleKept(m, w', pointer, root, stop.handler, stop.arguments, stop.nonvolatile, reply, back, fuel, c);
      KeptOne(last, c, SettleCalls(m, w', pointer, root, reply, back, fuel),
        Settle(m, w', pointer, root, stop.handler, stop.arguments, stop.nonvolatile, reply, back, fuel).1);
    } else {
      NothingKept(last, Continue(m, w, pointer, root, stop, fuel).1);
    }
  }

  lemma NothingKept(last: Option<HandlerCall>, outcome: Outcome)
    requires !outcome.Suspends?
    ensures Kept(last, [], outcome)
  {
  }

  lemma SliceKept<W>(m: Machine<W>, w: W, h: Handle, pointer: u64, ref: Ref, fuel: nat, last: Option<HandlerCall>)
    requires Linked(last, ref) && !ref.Dead?
    ensures Kept(last, SliceCalls(m, w, h, pointer, ref, fuel), Slice(m, w, h, pointer, ref, fuel).1)
  {
    hide Captured, Kept, Settle, SettleCalls, Continue, ContinueCalls;
    if Refused(m, w, pointer, ref) {
      NothingKept(last, Ends(Exec(ExecInvalid, 0)));
    } else {
      match ref
      case Unstarted =>
        if m.entryOk(w, h) {
          var (w', stop) := m.entry(w, h);
          ContinueKept(m, w', pointer, m.rootOf(h), stop, fuel, last);
        } else {
          NothingKept(last, Ends(Exec(ExecInvalid, 0)));
        }
      case Waiting(handler, arguments, point) =>
        var (w', reply) := m.handle(w, handler, arguments, point.floating, point.nonvolatile);
        var c := HandlerCall(handler, arguments, reply.status, true);
        var back := point.(floating := reply.floating);
        SettleKept(m, w', pointer, point.root, handler, arguments, point.nonvolatile, reply, back, fuel, c);
        KeptOne(last, c, SettleCalls(m, w', pointer, point.root, reply, back, fuel),
          Settle(m, w', pointer, point.root, handler, arguments, point.nonvolatile, reply, back, fuel).1);
      case Ready(_, _, value, point) =>
        var (w', stop) := m.resume(w, pointer, point, value);
        ContinueKept(m, w', pointer, point.root, stop, fuel, last);
    }
  }

  // ------------------------------------------------------------- over whole runs

  /** Every slice of the run came to an end. */
  ghost predicate AllReturn<W>(m: Machine<W>, s: RefState<W>, ds: seq<(Decision, nat)>) {
    forall k :: 0 <= k < |ds| ==> Returns(m, Turns(m, s, ds[..k]), ds[k])
  }

  ghost predicate Returns<W>(m: Machine<W>, s: RefState<W>, d: (Decision, nat)) { Turn(m, s, d.0, d.1).1 != StillRunning }

  /** The state agrees with the calls made so far. */
  predicate Settled<W>(calls: seq<HandlerCall>, s: RefState<W>, h: Handle) {
    Disciplined(None, calls) && (h in s.threads ==> Linked(Last(None, calls), s.threads[h].ref))
  }

  lemma ChosenSettled<W>(m: Machine<W>, s: RefState<W>, d: Decision, fuel: nat, h: Handle, calls: seq<HandlerCall>)
    requires Settled(calls, s, h) && Chosen(m, s, d, fuel).1 != StillRunning
    ensures Settled(calls + ChosenCalls(m, s, d, fuel, h), Chosen(m, s, d, fuel).0, h)
  {
    hide Slice, SliceCalls, Disciplined;
    var more := ChosenCalls(m, s, d, fuel, h);
    if Runs(s, d, h) {
      SliceKept(m, s.world, h, s.threads[h].pointer, s.threads[h].ref, fuel, Last(None, calls));
      DisciplinedConcat(None, calls, more);
      LastConcat(None, calls, more);
    } else {
      assert calls + more == calls;
    }
  }

  lemma TurnSettled<W>(m: Machine<W>, s: RefState<W>, d: Decision, fuel: nat, h: Handle, calls: seq<HandlerCall>)
    requires Settled(calls, s, h) && Turn(m, s, d, fuel).1 != StillRunning
    ensures Settled(TurnCalls(m, s, d, fuel, h, calls), Turn(m, s, d, fuel).0, h)
  {
    hide Chosen, ChosenCalls, Prepare;
    PrepareKeeps(m, s, d.ready, h);
    var (p, ok) := Prepare(m, s, d.ready);
    var kept := if h !in s.threads && h in p.threads then [] else calls;
    assert Settled(kept, p, h);
    if ok {
      ChosenSettled(m, p, d, fuel, h, kept);
    } else {
      assert kept + [] == kept;
    }
  }

  /**
   * Over every run a thread's handler calls keep the discipline: each call that blocks is
   * followed by the same call again and by nothing else, and a call that finished or yielded
   * is never repeated.  A thread that waits does so for the last call it made.
   */
  lemma {:induction false} CallsAreDisciplined<W>(m: Machine<W>, s: RefState<W>, ds: seq<(Decision, nat)>, h: Handle)
    requires h in s.threads ==> s.threads[h].ref.Unstarted?
    requires AllReturn(m, s, ds)
    ensures Settled(CallsOf(m, s, ds, h), Turns(m, s, ds), h)
    decreases |ds|
  {
    hide Turn, TurnCalls, Disciplined;
    if ds == [] {
      NoCalls(s, h);
    } else {
      var fewer, d := ds[..|ds| - 1], ds[|ds| - 1];
      forall k | 0 <= k < |fewer|
        ensures Returns(m, Turns(m, s, fewer[..k]), fewer[k])
      {
        assert fewer[..k] == ds[..k];
      }
      CallsAreDisciplined(m, s, fewer, h);
      assert Returns(m, Turns(m, s, ds[..|fewer|]), ds[|fewer|]);
      TurnSettled(m, Turns(m, s, fewer), d.0, d.1, h, CallsOf(m, s, fewer, h));
    }
  }

  lemma NoCalls<W>(s: RefState<W>, h: Handle)
    requires h in s.threads ==> s.threads[h].ref.Unstarted?
    ensures Settled([], s, h)
  {
  }

  // ------------------------------------------- a blocked call, until it unblocks

  /** If the turn runs thread `h`, its frame is usable and its call blocks again. */
  predicate BlocksAgain<W>(m: Machine<W>, s: RefState<W>, d: Decision, h: Handle) {
    var (p, ok) := Prepare(m, s, d.ready);
    ok && Runs(p, d, h) ==>
      var t := p.threads[h];
      && t.ref.Waiting? && !Refused(m, p.world, t.pointer, t.ref)
      && m.handle(p.world, t.ref.handler, t.ref.arguments, t.ref.point.floating, t.ref.point.nonvolatile).1.status == HleBlocked
  }

  /** The frame still holds return address `ip` after a retry of the call. */
  predicate ReturnKept<W>(m: Machine<W>, s: RefState<W>, d: Decision, h: Handle, ip: u64) {
    var (p, ok) := Prepare(m, s, d.ready);
    ok && Runs(p, d, h) && p.threads[h].ref.Waiting? ==>
      var ref := p.threads[h].ref;
      m.returnAt(m.handle(p.world, ref.handler, ref.arguments, ref.point.floating, ref.point.nonvolatile).0, ref.arguments) == ip
  }

  /** The same call, made from the same place with the same registers. */
  predicate SameCall(a: Ref, b: Ref) {
    && a.Waiting? && b.Waiting? && a.handler == b.handler && a.arguments == b.arguments
    && a.point.root == b.point.root && a.point.nonvolatile == b.point.nonvolatile
  }

  ghost predicate Blocked<W>(m: Machine<W>, s: RefState<W>, ds: seq<(Decision, nat)>, h: Handle) {
    forall k :: 0 <= k < |ds| ==> BlocksAgain(m, Turns(m, s, ds[..k]), ds[k].0, h)
  }

  ghost predicate ReturnsKept<W>(m: Machine<W>, s: RefState<W>, ds: seq<(Decision, nat)>, h: Handle, ip: u64) {
    forall k :: 0 <= k < |ds| ==> ReturnKept(m, Turns(m, s, ds[..k]), ds[k].0, h, ip)
  }

  lemma RetryKeepsCall<W>(m: Machine<W>, s: RefState<W>, d: Decision, fuel: nat, h: Handle)
    requires h in s.threads && s.threads[h].ref.Waiting? && BlocksAgain(m, s, d, h)
    ensures var s' := Turn(m, s, d, fuel).0;
      && h in s'.threads && s'.threads[h].pointer == s.threads[h].pointer && SameCall(s.threads[h].ref, s'.threads[h].ref)
      && (ReturnKept(m, s, d, h, s.threads[h].ref.point.ip) ==> s'.threads[h].ref.point.ip == s.threads[h].ref.point.ip)
  {
    hide Prepare;
    PrepareKeeps(m, s, d.ready, h);
  }

  /** While its call blocks, a thread keeps waiting for that call, whatever else runs. */
  lemma {:induction false} WaitsWhileBlocked<W>(m: Machine<W>, s: RefState<W>, ds: seq<(Decision, nat)>, h: Handle)
    requires h in s.threads && s.threads[h].ref.Waiting? && Blocked(m, s, ds, h)
    ensures var s' := Turns(m, s, ds);
      && h in s'.threads && s'.threads[h].pointer == s.threads[h].pointer && SameCall(s.threads[h].ref, s'.threads[h].ref)
      && (ReturnsKept(m, s, ds, h, s.threads[h].ref.point.ip) ==> s'.threads[h].ref.point.ip == s.threads[h].ref.point.ip)
    decreases |ds|
  {
    hide Turn, BlocksAgain, ReturnKept;
    if ds != [] {
      var fewer, d := ds[..|ds| - 1], ds[|ds| - 1];
      forall k | 0 <= k < |fewer|
        ensures BlocksAgain(m, Turns(m, s, fewer[..k]), fewer[k].0, h)
      {
        assert fewer[..k] == ds[..k];
      }
      if ReturnsKept(m, s, ds, h, s.threads[h].ref.point.ip) {
        forall k | 0 <= k < |fewer|
          ensures ReturnKept(m, Turns(m, s, fewer[..k]), fewer[k].0, h, s.threads[h].ref.point.ip)
        {
          assert fewer[..k] == ds[..k];
        }
        assert ReturnKept(m, Turns(m, s, ds[..|fewer|]), ds[|fewer|].0, h, s.threads[h].ref.point.ip);
      }
      assert BlocksAgain(m, Turns(m, s, ds[..|fewer|]), ds[|fewer|].0, h);
      WaitsWhileBlocked(m, s, fewer, h);
      RetryKeepsCall(m, Turns(m, s, fewer), d.0, d.1, h);
    }
  }

  /**
   * The first answer that does not block resumes the thread: at its own return point, with its
   * own registers and the handler's value, however often the call was retried before.
   */
  lemma UnblocksAtOwnPoint<W>(m: Machine<W>, s: RefState<W>, ds: seq<(Decision, nat)>, h: Handle, fuel: nat)
    requires h in s.threads && s.threads[h].ref.Waiting? && Blocked(m, s, ds, h)
    requires ReturnsKept(m, s, ds, h, s.threads[h].ref.point.ip)
    requires h in Turns(m, s, ds).threads && Turns(m, s, ds).threads[h].ref.Waiting?
    requires !Refused(m, Turns(m, s, ds).world, s.threads[h].pointer, Turns(m, s, ds).threads[h].ref)
    ensures var first, t := s.threads[h].ref, Turns(m, s, ds).threads[h];
      var (w, reply) := m.handle(Turns(m, s, ds).world, first.handler, first.arguments, t.ref.point.floating, first.point.nonvolatile);
      reply.status == HleOk && !reply.yielded && fuel > 0 ==>
        var back := Point(first.point.ip, t.ref.point.sp, first.point.root, first.point.nonvolatile, reply.floating);
        var (w', stop) := m.resume(w, t.pointer, back, reply.value);
        Slice(m, Turns(m, s, ds).world, h, t.pointer, t.ref, fuel) == Continue(m, w', t.pointer, first.point.root, stop, fuel - 1)
  {
    hide Continue;
    WaitsWhileBlocked(m, s, ds, h);
  }

  // ----------------------------------------------------- the calls, by a log

  /** The same machine, whose world also writes down every call of a handler. */
  function Logging<W>(m: Machine<W>): Machine<(W, seq<(nat, Frame)>)> {
    Machine(
      m.base, m.end,
      (w: (W, seq<(nat, Frame)>), h) => m.entryOk(w.0, h),
      m.rootOf,
      (w: (W, seq<(nat, Frame)>), h) => var (w', stop) := m.entry(w.0, h); ((w', w.1), stop),
      (w: (W, seq<(nat, Frame)>), pointer, point, value) => var (w', stop) := m.resume(w.0, pointer, point, value); ((w', w.1), stop),
      (w: (W, seq<(nat, Frame)>), handler, arguments, floating, nonvolatile) =>
        var (w', reply) := m.handle(w.0, handler, arguments, floating, nonvolatile);
        ((w', w.1 + [(handler, arguments)]), reply),
      (w: (W, seq<(nat, Frame)>), arguments) => m.returnAt(w.0, arguments),
      (w: (W, seq<(nat, Frame)>), pointer, arguments, ip, root) => m.accessible(w.0, pointer, arguments, ip, root),
      (w: (W, seq<(nat, Frame)>), h) => var (w', pointer) := m.allocate(w.0, h); ((w', w.1), pointer))
  }

  function Names(calls: seq<HandlerCall>): (r: seq<(nat, Frame)>)
    ensures |r| == |calls|
  {
    seq(|calls|, i requires 0 <= i < |calls| => (calls[i].handler, calls[i].arguments))
  }

  lemma NamesConcat(a: seq<HandlerCall>, b: seq<HandlerCall>)
    ensures Names(a + b) == Names(a) + Names(b)
  {
  }

  lemma {:induction false} SettleLogs<W>(
    m: Machine<W>, w: W, log: seq<(nat, Frame)>, pointer: u64, root: u64, handler: nat, arguments: Frame, nonvolatile: seq<u64>, reply: Reply,
    back: Point, fuel: nat)
    ensures var plain := Settle(m, w, pointer, root, handler, arguments, nonvolatile, reply, back, fuel);
      Settle(Logging(m), (w, log), pointer, root, handler, arguments, nonvolatile, reply, back, fuel) ==
        ((plain.0, log + Names(SettleCalls(m, w, pointer, root, reply, back, fuel))), plain.1)
    decreases fuel, 0
  {
    if reply.status == HleOk && !reply.yielded && fuel > 0 {
      var (w', stop) := m.resume(w, pointer, back, reply.value);
      ContinueLogs(m, w', log, pointer, root, stop, fuel - 1);
    } else {
      assert log + [] == log;
    }
  }

  lemma {:induction false} ContinueLogs<W>(m: Machine<W>, w: W, log: seq<(nat, Frame)>, pointer: u64, root: u64, stop: Stop, fuel: nat)
    ensures var plain := Continue(m, w, pointer, root, stop, fuel);
      Continue(Logging(m), (w, log), pointer, root, stop, fuel) ==
        ((plain.0, log + Names(ContinueCalls(m, w, pointer, root, stop, fuel))), plain.1)
    decreases fuel, 1
  {
    hide Settle, SettleCalls;
    if stop.Called? {
      var (w', reply) := m.handle(w, stop.handler, stop.arguments, stop.floating, stop.nonvolatile);
      var back := Captured(m, w', root, stop.arguments, stop.nonvolatile, reply);
      var c, rest := HandlerCall(stop.handler, stop.arguments, reply.status, false), SettleCalls(m, w', pointer, root, reply, back, fuel);
      SettleLogs(m, w', log + [(stop.handler, stop.arguments)], pointer, root, stop.handler, stop.arguments, stop.nonvolatile, reply, back, fuel);
      NamesConcat([c], rest);
      assert log + [(stop.handler, stop.arguments)] + Names(rest) == log + Names([c] + rest);
    } else {
      assert log + [] == log;
    }
  }

  /** The listed calls are exactly the calls a slice makes. */
  lemma SliceLogs<W>(m: Machine<W>, w: W, log: seq<(nat, Frame)>, h: Handle, pointer: u64, ref: Ref, fuel: nat)
    ensures var plain := Slice(m, w, h, pointer, ref, fuel);
      Slice(Logging(m), (w, log), h, pointer, ref, fuel) ==
        ((plain.0, log + Names(SliceCalls(m, w, h, pointer, ref, fuel))), plain.1)
  {
    hide Settle, SettleCalls, Continue, ContinueCalls;
    assert log + [] == log;
    if !Refused(m, w, pointer, ref) {
      match ref
      case Unstarted =>
        var (w', stop) := m.entry(w, h);
        ContinueLogs(m, w', log, pointer, m.rootOf(h), stop, fuel);
      case Waiting(handler, arguments, point) =>
        var (w', reply) := m.handle(w, handler, arguments, point.floating, point.nonvolatile);
        var back := point.(floating := reply.floating);
        var c, rest := HandlerCall(handler, arguments, reply.status, true), SettleCalls(m, w', pointer, point.root, reply, back, fuel);
        SettleLogs(m, w', log + [(handler, arguments)], pointer, point.root, handler, arguments, point.nonvolatile, reply, back, fuel);
        NamesConcat([c], rest);
        assert log + [(handler, arguments)] + Names(rest) == log + Names([c] + rest);
      case Ready(_, _, value, point) =>
        var (w', stop) := m.resume(w, pointer, point, value);
        ContinueLogs(m, w', log, pointer, point.root, stop, fuel);
      case Dead =>
    }
  }
}
