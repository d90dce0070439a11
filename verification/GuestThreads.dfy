/** Guest threads as coroutines: what each slice of each thread does, with no
    execution context in sight. */
module GuestThreads {
  import opened Words

  type Handle = u64

  /** The address of a call's argument frame; a call always has one. */
  type Frame = x: u64 | x != 0 witness 1

  const FRAME_BYTES: u64 := 56

  /** Where a thread continues and the state it continues with. */
  datatype Point = Point(ip: u64, sp: u64, root: u64, nonvolatile: seq<u64>, floating: seq<byte>)

  datatype HleStatus = HleOk | HleBlocked | HleGuestExit | HleFailed

  /** A handler's answer; `floating` is the caller's state with vector results stored. */
  datatype Reply = Reply(value: u64, status: HleStatus, yielded: bool, floating: seq<byte>)

  /** Why guest code stopped running: it returned, faulted, or called a handler. */
  datatype Stop =
    | Finished(value: u64)
    | Faulted
    | Called(handler: nat, arguments: Frame, nonvolatile: seq<u64>, floating: seq<byte>)

  /** Guest code and handlers over a shared world of memory and kernel state. */
  datatype Machine<!W> = Machine(
    base: u64,
    end: u64,
    entryOk: (W, Handle) -> bool,
    rootOf: Handle -> u64,
    entry: (W, Handle) -> (W, Stop),
    resume: (W, u64, Point, u64) -> (W, Stop),
    handle: (W, nat, Frame, seq<byte>, seq<u64>) -> (W, Reply),
    returnAt: (W, Frame) -> u64,
    accessible: (W, u64, Frame, u64, u64) -> bool,
    allocate: (W, Handle) -> (W, Option<u64>))

  datatype ExecStatus = ExecOk | ExecBlocked | ExecYielded | ExecGuestExit | ExecFailed | ExecInvalid

  datatype Exec = Exec(status: ExecStatus, value: u64)

  /** A thread between slices. */
  datatype Ref =
    | Unstarted
    | Waiting(handler: nat, arguments: Frame, point: Point)
    | Ready(handler: nat, arguments: Frame, value: u64, point: Point)
    | Dead

  datatype Outcome = Suspends(ref: Ref) | Ends(exec: Exec) | Endless

  function Captured<W>(m: Machine<W>, w: W, root: u64, arguments: Frame, nonvolatile: seq<u64>, reply: Reply): Point {
    Point(m.returnAt(w, arguments), (arguments + FRAME_BYTES) % TWO64, root, nonvolatile, reply.floating)
  }

  function EndOf(status: HleStatus): Exec { Exec(if status == HleGuestExit then ExecGuestExit else ExecFailed, 0) }

  /**
   * After a handler answered: a blocked call will be made again, a yielding call
   * is complete and its value kept, and an ordinary one returns to `back`.
   */
  function Settle<W>(
    m: Machine<W>, w: W, pointer: u64, root: u64, handler: nat, arguments: Frame, nonvolatile: seq<u64>, reply: Reply, back: Point, fuel: nat)
    : (W, Outcome)
    decreases fuel, 0
  {
    var point := Captured(m, w, root, arguments, nonvolatile, reply);
    if reply.status == HleBlocked then (w, Suspends(Waiting(handler, arguments, point)))
    else if reply.status == HleOk && reply.yielded then (w, Suspends(Ready(handler, arguments, reply.value, point)))
    else if reply.status != HleOk then (w, Ends(EndOf(reply.status)))
    else if fuel == 0 then (w, Endless)
    else
      var (w', stop) := m.resume(w, pointer, back, reply.value);
      Continue(m, w', pointer, root, stop, fuel - 1)
  }

  /** Runs guest code, and the calls that neither block nor yield, for up to `fuel` calls. */
  function Continue<W>(m: Machine<W>, w: W, pointer: u64, root: u64, stop: Stop, fuel: nat): (W, Outcome)
    decreases fuel, 1
  {
    match stop
    case Finished(value) => (w, Ends(Exec(ExecOk, value)))
    case Faulted => (w, Ends(Exec(ExecFailed, 0)))
    case Called(handler, arguments, nonvolatile, floating) =>
      var (w', reply) := m.handle(w, handler, arguments, floating, nonvolatile);
      Settle(m, w', pointer, root, handler, arguments, nonvolatile, reply, Captured(m, w', root, arguments, nonvolatile, reply), fuel)
  }

  /** A saved frame that can no longer be used. */
  predicate Refused<W>(m: Machine<W>, w: W, pointer: u64, ref: Ref) {
    (ref.Waiting? || ref.Ready?)
    && (ref.arguments > TWO64 - 1 - FRAME_BYTES || !m.accessible(w, pointer, ref.arguments, ref.point.ip, ref.point.root))
  }

  function Slice<W>(m: Machine<W>, w: W, h: Handle, pointer: u64, ref: Ref, fuel: nat): (W, Outcome) {
    if Refused(m, w, pointer, ref) then (w, Ends(Exec(ExecInvalid, 0))) else
    match ref
    case Unstarted =>
      if !m.entryOk(w, h) then (w, Ends(Exec(ExecInvalid, 0)))
      else
        var (w', stop) := m.entry(w, h);
        Continue(m, w', pointer, m.rootOf(h), stop, fuel)
    case Waiting(handler, arguments, point) =>
      var (w', reply) := m.handle(w, handler, arguments, point.floating, point.nonvolatile);
      Settle(m, w', pointer, point.root, handler, arguments, point.nonvolatile, reply, point.(floating := reply.floating), fuel)
    case Ready(_, _, value, point) =>
      var (w', stop) := m.resume(w, pointer, point, value);
      Continue(m, w', pointer, point.root, stop, fuel)
    case Dead => (w, Ends(Exec(ExecInvalid, 0)))
  }

  // ----------------------------------------------------------- the scheduler

  /** The scheduler's and kernel's answers during one call of the runner: the threads that are
      ready and known to the thread service, the one selected, and what became of updates. */
  datatype Decision = Decision(
    ready: seq<Handle>, selected: Option<Handle>, running: bool, yieldOk: bool, suspendedOk: bool, exitOk: bool, exitedOk: bool, released: bool)

  datatype RunStatus =
    | LaneBusy | PreparationFailed | Idle | StateInvalid | NotRegistered | UpdateFailed | ThreadBlocked | ThreadYielded
    | ThreadExited | ReleaseFailed | ExecutionFailed | CaptureFailed | StillRunning

  datatype RefThread = RefThread(ref: Ref, pointer: u64)

  datatype RefState<W> = RefState(world: W, threads: map<Handle, RefThread>)

  function Store<W>(s: RefState<W>, h: Handle, w: W, ref: Ref): RefState<W>
    requires h in s.threads
  {
    RefState(w, s.threads[h := s.threads[h].(ref := ref)])
  }

  /** What becomes of a thread whose slice ended. */
  function Finish<W>(s: RefState<W>, h: Handle, w: W, exec: Exec, d: Decision): (RefState<W>, RunStatus)
    requires h in s.threads
  {
    var gone := RefState(w, s.threads - {h});
    if exec.status == ExecOk || exec.status == ExecGuestExit then
      if !(if exec.status == ExecOk then d.exitOk else d.exitedOk) then (Store(s, h, w, Dead), UpdateFailed)
      else (gone, if d.released then ThreadExited else ReleaseFailed)
    else (gone, if !d.exitOk then UpdateFailed else if !d.released then ReleaseFailed else ExecutionFailed)
  }

  function Recorded<W>(s: RefState<W>, h: Handle, w: W, outcome: Outcome, d: Decision): (RefState<W>, RunStatus)
    requires h in s.threads
  {
    match outcome
    case Suspends(ref) =>
      (Store(s, h, w, ref), if !d.suspendedOk then StateInvalid else if ref.Waiting? then ThreadBlocked else ThreadYielded)
    case Ends(exec) => Finish(s, h, w, exec, d)
    case Endless => (s.(world := w), StillRunning)
  }

  /** Gives every ready thread that is not registered yet a stack and registers it, until one
      allocation fails. */
  function Prepare<W>(m: Machine<W>, s: RefState<W>, ready: seq<Handle>): (RefState<W>, bool)
    decreases |ready|
  {
    if ready == [] then (s, true)
    else if ready[0] in s.threads then Prepare(m, s, ready[1..])
    else
      var (w, pointer) := m.allocate(s.world, ready[0]);
      if pointer.None? then (s.(world := w), false)
      else Prepare(m, RefState(w, s.threads[ready[0] := RefThread(Unstarted, pointer.value)]), ready[1..])
  }

  /** The part of a turn that follows preparation. */
  function Chosen<W>(m: Machine<W>, s: RefState<W>, d: Decision, fuel: nat): (RefState<W>, RunStatus) {
    if d.selected.None? then (s, Idle)
    else if !d.running then (s, StateInvalid)
    else
      var h := d.selected.value;
      if h !in s.threads then (s, if d.yieldOk then NotRegistered else UpdateFailed)
      else if s.threads[h].ref.Dead? then (s, StateInvalid)
      else
        var (w, outcome) := Slice(m, s.world, h, s.threads[h].pointer, s.threads[h].ref, fuel);
        Recorded(s, h, w, outcome, d)
  }

  function Turn<W>(m: Machine<W>, s: RefState<W>, d: Decision, fuel: nat): (RefState<W>, RunStatus) {
    var (p, ok) := Prepare(m, s, d.ready);
    if !ok then (p, PreparationFailed) else Chosen(m, p, d, fuel)
  }

  /** How a turn ends when the repeated call of a waiting thread answers with something other
      than success: a blocked call keeps the thread waiting for the same call; a guest exit ends
      it through the exit update; any other answer is a failed execution. */
  lemma AnswerEnds<W>(m: Machine<W>, s: RefState<W>, d: Decision, fuel: nat, h: Handle)
    requires d.selected == Some(h) && d.running && h in s.threads && s.threads[h].ref.Waiting?
    requires !Refused(m, s.world, s.threads[h].pointer, s.threads[h].ref)
    ensures var t := s.threads[h].ref;
      var (w, reply) := m.handle(s.world, t.handler, t.arguments, t.point.floating, t.point.nonvolatile);
      var (n, status) := Chosen(m, s, d, fuel);
      && (reply.status == HleBlocked ==>
            && h in n.threads && n.threads[h].ref.Waiting? && status == (if d.suspendedOk then ThreadBlocked else StateInvalid)
            && n.threads[h].ref.handler == t.handler && n.threads[h].ref.arguments == t.arguments)
      && (reply.status == HleGuestExit ==>
            if d.exitedOk then n == RefState(w, s.threads - {h}) && status == (if d.released then ThreadExited else ReleaseFailed)
            else h in n.threads && n.threads[h].ref.Dead? && status == UpdateFailed)
      && (reply.status == HleFailed ==>
            && n == RefState(w, s.threads - {h})
            && status == (if !d.exitOk then UpdateFailed else if !d.released then ReleaseFailed else ExecutionFailed))
  {
  }

  /** The turn runs into a frame the thread can no longer use. */
  predicate ChosenRefused<W>(m: Machine<W>, s: RefState<W>, d: Decision) {
    && d.selected.Some? && d.running && d.selected.value in s.threads
    && Refused(m, s.world, s.threads[d.selected.value].pointer, s.threads[d.selected.value].ref)
  }

  predicate TurnRefused<W>(m: Machine<W>, s: RefState<W>, d: Decision) {
    var (p, ok) := Prepare(m, s, d.ready);
    ok && ChosenRefused(m, p, d)
  }

  /** Preparation touches no thread that is registered, and new threads are unstarted. */
  lemma {:induction false} PrepareKeeps<W>(m: Machine<W>, s: RefState<W>, ready: seq<Handle>, h: Handle)
    ensures var p := Prepare(m, s, ready).0;
      && (h in s.threads ==> h in p.threads && p.threads[h] == s.threads[h])
      && (h !in s.threads && h in p.threads ==> p.threads[h].ref == Unstarted)
    decreases |ready|
  {
    if ready != [] {
      if ready[0] in s.threads {
        PrepareKeeps(m, s, ready[1..], h);
      } else {
        var (w, pointer) := m.allocate(s.world, ready[0]);
        if pointer.Some? {
          PrepareKeeps(m, RefState(w, s.threads[ready[0] := RefThread(Unstarted, pointer.value)]), ready[1..], h);
        }
      }
    }
  }

  /** The whole run: every turn's decision and length are arbitrary. */
  function Turns<W>(m: Machine<W>, s: RefState<W>, ds: seq<(Decision, nat)>): RefState<W>
    decreases |ds|
  {
    if ds == [] then s else Turn(m, Turns(m, s, ds[..|ds| - 1]), ds[|ds| - 1].0, ds[|ds| - 1].1).0
  }

  /** A thread that is not selected keeps its own point, whatever the others do. */
  lemma {:induction false} OthersKeepTheirPoint<W>(m: Machine<W>, s: RefState<W>, ds: seq<(Decision, nat)>, h: Handle)
    requires h in s.threads && forall k | 0 <= k < |ds| :: ds[k].0.selected != Some(h)
    ensures h in Turns(m, s, ds).threads && Turns(m, s, ds).threads[h] == s.threads[h]
    decreases |ds|
  {
    if ds != [] {
      OthersKeepTheirPoint(m, s, ds[..|ds| - 1], h);
      TurnKeepsOthers(m, Turns(m, s, ds[..|ds| - 1]), ds[|ds| - 1].0, ds[|ds| - 1].1, h);
    }
  }

  lemma TurnKeepsOthers<W>(m: Machine<W>, s: RefState<W>, d: Decision, fuel: nat, h: Handle)
    requires h in s.threads && d.selected != Some(h)
    ensures h in Turn(m, s, d, fuel).0.threads && Turn(m, s, d, fuel).0.threads[h] == s.threads[h]
  {
    hide Slice;
    PrepareKeeps(m, s, d.ready, h);
  }

  /**
   * Whatever ran in between, a yielded thread goes on at its own point with the
   * value its call already returned, and a blocked one repeats its own call
   * with its own saved state.
   */
  lemma ResumesOwnCall<W>(m: Machine<W>, s: RefState<W>, ds: seq<(Decision, nat)>, h: Handle, fuel: nat)
    requires h in s.threads && forall k | 0 <= k < |ds| :: ds[k].0.selected != Some(h)
    requires !Refused(m, Turns(m, s, ds).world, s.threads[h].pointer, s.threads[h].ref)
    ensures var w, t := Turns(m, s, ds).world, s.threads[h];
      && h in Turns(m, s, ds).threads
      && var slice := Slice(m, w, h, t.pointer, Turns(m, s, ds).threads[h].ref, fuel);
      && (t.ref.Ready? ==>
        var (w', stop) := m.resume(w, t.pointer, t.ref.point, t.ref.value);
        slice == Continue(m, w', t.pointer, t.ref.point.root, stop, fuel))
      && (t.ref.Waiting? ==>
        var (w', reply) := m.handle(w, t.ref.handler, t.ref.arguments, t.ref.point.floating, t.ref.point.nonvolatile);
        && (reply.status == HleBlocked ==> slice.0 == w' && slice.1.Suspends? && slice.1.ref.Waiting? && slice.1.ref.handler == t.ref.handler && slice.1.ref.arguments == t.ref.arguments)
        && (reply.status == HleOk && !reply.yielded && fuel > 0 ==>
          var (w'', stop) := m.resume(w', t.pointer, t.ref.point.(floating := reply.floating), reply.value);
          slice == Continue(m, w'', t.pointer, t.ref.point.root, stop, fuel - 1)))
  {
    OthersKeepTheirPoint(m, s, ds, h);
  }

  /** No registered thread was started and then left with nothing to resume. */
  ghost predicate AllAlive<W>(s: RefState<W>) { forall h | h in s.threads :: !s.threads[h].ref.Dead? }

  /** The selected thread ran to its end and the kernel did not record the exit. */
  predicate ExitRefused<W>(m: Machine<W>, s: RefState<W>, d: Decision, fuel: nat) {
    var (p, ok) := Prepare(m, s, d.ready);
    && ok && d.selected.Some? && d.running && d.selected.value in p.threads
    && var t := p.threads[d.selected.value];
    && var outcome := Slice(m, p.world, d.selected.value, t.pointer, t.ref, fuel).1;
    && outcome.Ends?
    && ((outcome.exec.status == ExecOk && !d.exitOk) || (outcome.exec.status == ExecGuestExit && !d.exitedOk))
  }

  lemma PrepareKeepsAlive<W>(m: Machine<W>, s: RefState<W>, ready: seq<Handle>)
    requires AllAlive(s)
    ensures AllAlive(Prepare(m, s, ready).0)
  {
    hide Prepare;
    forall h | h in Prepare(m, s, ready).0.threads
      ensures !Prepare(m, s, ready).0.threads[h].ref.Dead?
    {
      PrepareKeeps(m, s, ready, h);
    }
  }

  /** A started thread is left with nothing to resume exactly where its exit was refused. */
  lemma TurnKeepsAlive<W>(m: Machine<W>, s: RefState<W>, d: Decision, fuel: nat)
    requires AllAlive(s)
    ensures AllAlive(Turn(m, s, d, fuel).0) <==> !ExitRefused(m, s, d, fuel)
  {
    hide Slice, Prepare;
    PrepareKeepsAlive(m, s, d.ready);
    var (p, ok) := Prepare(m, s, d.ready);
    if ok && d.selected.Some? && d.selected.value in p.threads {
      var h := d.selected.value;
      SliceNeverDies(m, p.world, h, p.threads[h].pointer, p.threads[h].ref, fuel);
      if ExitRefused(m, s, d, fuel) {
        assert Turn(m, s, d, fuel).0.threads[h].ref.Dead?;
      }
    }
  }

  lemma SliceNeverDies<W>(m: Machine<W>, w: W, h: Handle, pointer: u64, ref: Ref, fuel: nat)
    ensures Slice(m, w, h, pointer, ref, fuel).1 != Suspends(Dead) && Slice(m, w, h, pointer, ref, fuel).1 != Suspends(Unstarted)
  {
    hide Captured;
    match ref
    case Unstarted =>
      var (w', stop) := m.entry(w, h);
      ContinueNeverDies(m, w', pointer, m.rootOf(h), stop, fuel);
    case Waiting(handler, arguments, point) =>
      var (w', reply) := m.handle(w, handler, arguments, point.floating, point.nonvolatile);
      SettleNeverDies(m, w', pointer, point.root, handler, arguments, point.nonvolatile, reply, point.(floating := reply.floating), fuel);
    case Ready(_, _, value, point) =>
      var (w', stop) := m.resume(w, pointer, point, value);
      ContinueNeverDies(m, w', pointer, point.root, stop, fuel);
    case Dead =>
  }

  lemma {:induction false} ContinueNeverDies<W>(m: Machine<W>, w: W, pointer: u64, root: u64, stop: Stop, fuel: nat)
    ensures Continue(m, w, pointer, root, stop, fuel).1 != Suspends(Dead) && Continue(m, w, pointer, root, stop, fuel).1 != Suspends(Unstarted)
    decreases fuel, 1
  {
    if stop.Called? {
      var (w', reply) := m.handle(w, stop.handler, stop.arguments, stop.floating, stop.nonvolatile);
      SettleNeverDies(m, w', pointer, root, stop.handler, stop.arguments, stop.nonvolatile, reply,
        Captured(m, w', root, stop.arguments, stop.nonvolatile, reply), fuel);
    }
  }

  lemma {:induction false} SettleNeverDies<W>(
    m: Machine<W>, w: W, pointer: u64, root: u64, handler: nat, arguments: Frame, nonvolatile: seq<u64>, reply: Reply, back: Point, fuel: nat)
    ensures Settle(m, w, pointer, root, handler, arguments, nonvolatile, reply, back, fuel).1 != Suspends(Dead)
    ensures Settle(m, w, pointer, root, handler, arguments, nonvolatile, reply, back, fuel).1 != Suspends(Unstarted)
    decreases fuel, 0
  {
    if reply.status == HleOk && !reply.yielded && fuel > 0 {
      var (w', stop) := m.resume(w, pointer, back, reply.value);
      ContinueNeverDies(m, w', pointer, root, stop, fuel - 1);
    }
  }

  lemma {:induction false} TurnsKeepAlive<W>(m: Machine<W>, s: RefState<W>, ds: seq<(Decision, nat)>)
    requires AllAlive(s) && forall k | 0 <= k < |ds| :: ds[k].0.exitOk && ds[k].0.exitedOk
    ensures AllAlive(Turns(m, s, ds))
    decreases |ds|
  {
    if ds != [] {
      TurnsKeepAlive(m, s, ds[..|ds| - 1]);
      TurnKeepsAlive(m, Turns(m, s, ds[..|ds| - 1]), ds[|ds| - 1].0, ds[|ds| - 1].1);
    }
  }

  // ------------------------------------------------------------- enough fuel

  lemma {:induction false} SettleWithMore<W>(
    m: Machine<W>, w: W, pointer: u64, root: u64, handler: nat, arguments: Frame, nonvolatile: seq<u64>, reply: Reply, back: Point,
    fuel: nat, more: nat)
    requires fuel <= more && Settle(m, w, pointer, root, handler, arguments, nonvolatile, reply, back, fuel).1 != Endless
    ensures Settle(m, w, pointer, root, handler, arguments, nonvolatile, reply, back, more) ==
      Settle(m, w, pointer, root, handler, arguments, nonvolatile, reply, back, fuel)
    decreases fuel, 0
  {
    if reply.status == HleOk && !reply.yielded {
      var (w', stop) := m.resume(w, pointer, back, reply.value);
      ContinueWithMore(m, w', pointer, root, stop, fuel - 1, more - 1);
    }
  }

  lemma {:induction false} ContinueWithMore<W>(m: Machine<W>, w: W, pointer: u64, root: u64, stop: Stop, fuel: nat, more: nat)
    requires fuel <= more && Continue(m, w, pointer, root, stop, fuel).1 != Endless
    ensures Continue(m, w, pointer, root, stop, more) == Continue(m, w, pointer, root, stop, fuel)
    decreases fuel, 1
  {
    if stop.Called? {
      var (w', reply) := m.handle(w, stop.handler, stop.arguments, stop.floating, stop.nonvolatile);
      SettleWithMore(m, w', pointer, root, stop.handler, stop.arguments, stop.nonvolatile, reply,
        Captured(m, w', root, stop.arguments, stop.nonvolatile, reply), fuel, more);
    }
  }

  /** A slice that ends is the same for every larger bound on its calls. */
  lemma SliceWithMore<W>(m: Machine<W>, w: W, h: Handle, pointer: u64, ref: Ref, fuel: nat, more: nat)
    requires fuel <= more && Slice(m, w, h, pointer, ref, fuel).1 != Endless
    ensures Slice(m, w, h, pointer, ref, more) == Slice(m, w, h, pointer, ref, fuel)
  {
    hide Settle, Continue;
    if !Refused(m, w, pointer, ref) {
      match ref
      case Unstarted =>
        if m.entryOk(w, h) {
          var (w', stop) := m.entry(w, h);
          ContinueWithMore(m, w', pointer, m.rootOf(h), stop, fuel, more);
        }
      case Waiting(handler, arguments, point) =>
        var (w', reply) := m.handle(w, handler, arguments, point.floating, point.nonvolatile);
        SettleWithMore(m, w', pointer, point.root, handler, arguments, point.nonvolatile, reply, point.(floating := reply.floating), fuel, more);
      case Ready(_, _, value, point) =>
        var (w', stop) := m.resume(w, pointer, point, value);
        ContinueWithMore(m, w', pointer, point.root, stop, fuel, more);
      case Dead =>
    }
  }

  // --------------------------------------------------- a frame that vanishes

  /** A thread that yields once, in a world whose frames cannot be read back. */
  const VANISHING: Machine<int> := Machine(
    0, 1,
    (w, h) => true,
    h => 0,
    (w, h) => (w, Called(0, 1, [], [])),
    (w, pointer, point, value) => (w, Finished(value)),
    (w, handler, arguments, floating, nonvolatile) => (w, Reply(0, HleOk, true, floating)),
    (w, arguments) => 0,
    (w, pointer, arguments, ip, root) => false,
    (w, h) => (w, None))

  /** Refusal does happen: the thread's second turn meets its lost frame. */
  lemma FrameCanVanish()
    ensures var d := Decision([], Some(1), true, true, true, true, true, true);
      var s := RefState(0, map[1 := RefThread(Unstarted, 0)]);
      && Turn(VANISHING, s, d, 0).1 == ThreadYielded
      && TurnRefused(VANISHING, Turn(VANISHING, s, d, 0).0, d)
  {
    var d := Decision([], Some(1), true, true, true, true, true, true);
    var s := RefState(0, map[1 := RefThread(Unstarted, 0)]);
    var m := VANISHING;
    assert Continue(m, 0, 0, 0, Called(0, 1, [], []), 0).1 == Suspends(Ready(0, 1, 0, Point(0, 57, 0, [], [])));
    assert Slice(m, 0, 1, 0, Unstarted, 0).1 == Suspends(Ready(0, 1, 0, Point(0, 57, 0, [], [])));
  }
}
