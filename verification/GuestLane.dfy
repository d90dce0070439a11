/** Many guest threads sharing one execution context: the context is loaded from
    a thread's continuation, run, and saved back. */
module GuestLane {
  import opened Words
  import opened GuestThreads

  datatype Control = NoRequest | BlockRequest | StopRequest | YieldRequest

  datatype Context = Context(
    active: bool, control: Control, retrying: bool, hleStatus: HleStatus, retry: bool, completed: u64,
    handler: Option<nat>, arguments: u64, ip: u64, sp: u64, root: u64, base: u64, end: u64,
    nonvolatile: seq<u64>, floating: seq<byte>)

  function BlankContext(): Context {
    Context(false, NoRequest, false, HleOk, true, 0, None, 0, 0, 0, 0, 0, 0, seq(6, _ => 0), seq(512, _ => 0))
  }

  datatype Continuation = Continuation(
    valid: bool, hleStatus: HleStatus, retry: bool, completed: u64, handler: Option<nat>, arguments: u64,
    ip: u64, sp: u64, root: u64, base: u64, end: u64, nonvolatile: seq<u64>, floating: seq<byte>)

  function BlankContinuation(): Continuation {
    Continuation(false, HleOk, true, 0, None, 0, 0, 0, 0, 0, 0, seq(6, _ => 0), seq(512, _ => 0))
  }

  datatype Thread = Thread(started: bool, saved: Continuation, pointer: u64)

  predicate Suspended(c: Context) { c.control == BlockRequest || c.control == YieldRequest }

  /** A continuation that stands for a suspended call. */
  predicate Holds<W>(m: Machine<W>, c: Continuation) {
    && c.valid && c.handler.Some? && c.arguments != 0 && c.base == m.base && c.end == m.end
    && c.sp == (c.arguments + FRAME_BYTES) % TWO64
  }

  function PointOf(c: Continuation): Point { Point(c.ip, c.sp, c.root, c.nonvolatile, c.floating) }

  /** The coroutine a registered thread stands for. */
  function RefOf<W>(m: Machine<W>, t: Thread): Ref
    requires t.saved.valid ==> Holds(m, t.saved)
  {
    if t.saved.valid then
      if t.saved.retry then Waiting(t.saved.handler.value, t.saved.arguments, PointOf(t.saved))
      else Ready(t.saved.handler.value, t.saved.arguments, t.saved.completed, PointOf(t.saved))
    else if t.started then Dead
    else Unstarted
  }

  predicate ThreadsOk<W>(m: Machine<W>, threads: map<Handle, Thread>) {
    forall h | h in threads :: (threads[h].saved.valid ==> Holds(m, threads[h].saved) && threads[h].started)
  }

  function Abstract<W>(m: Machine<W>, world: W, threads: map<Handle, Thread>): RefState<W>
    requires ThreadsOk(m, threads)
  {
    RefState(world, map h | h in threads :: RefThread(RefOf(m, threads[h]), threads[h].pointer))
  }

  /** What the context holds when a call suspended in it. */
  predicate Caught<W>(m: Machine<W>, c: Context, ref: Ref) {
    && !c.active && !c.retrying && c.handler.Some? && c.arguments != 0 && c.base == m.base && c.end == m.end
    && c.sp == (c.arguments + FRAME_BYTES) % TWO64
    && (c.control == BlockRequest ==> c.retry && ref == Waiting(c.handler.value, c.arguments, Point(c.ip, c.sp, c.root, c.nonvolatile, c.floating)))
    && (c.control == YieldRequest ==> !c.retry && ref == Ready(c.handler.value, c.arguments, c.completed, Point(c.ip, c.sp, c.root, c.nonvolatile, c.floating)))
    && Suspended(c)
  }

  /** The context as guest code leaves it. */
  predicate Ran<W>(m: Machine<W>, c: Context, exec: Exec, outcome: Outcome) {
    match outcome
    case Suspends(ref) => Caught(m, c, ref) && exec.status == (if ref.Waiting? then ExecBlocked else ExecYielded)
    case Ends(e) => exec == e && !c.active && e.status != ExecBlocked && e.status != ExecYielded
    case Endless => c.active
  }

  /** The context as a continuation is loaded into it: always as if the call had blocked. */
  predicate Loaded<W>(m: Machine<W>, c: Context, ref: Ref) {
    && !c.active && !c.retrying && c.control == BlockRequest
    && c.handler.Some? && c.arguments != 0 && c.base == m.base && c.end == m.end
    && c.sp == (c.arguments + FRAME_BYTES) % TWO64
    && var point := Point(c.ip, c.sp, c.root, c.nonvolatile, c.floating);
    && ref == if c.retry then Waiting(c.handler.value, c.arguments, point) else Ready(c.handler.value, c.arguments, c.completed, point)
  }

  /** The context after a slice with the given outcome. */
  predicate Left<W>(m: Machine<W>, c: Context, exec: Exec, outcome: Outcome) {
    match outcome
    case Suspends(ref) => Caught(m, c, ref) && exec.status == (if ref.Waiting? then ExecBlocked else ExecYielded)
    case Ends(e) => exec == e && e.status != ExecBlocked && e.status != ExecYielded && c == BlankContext()
    case Endless => c.active
  }

  function ControlResult(control: Control, status: HleStatus): Exec {
    if control == BlockRequest then Exec(ExecBlocked, 0)
    else if control == YieldRequest then Exec(ExecYielded, 0)
    else EndOf(status)
  }

  class Lane<W> {
    const m: Machine<W>
    var world: W
    var c: Context
    var threads: map<Handle, Thread>

    constructor (machine: Machine<W>, start: W)
      ensures m == machine && world == start && c == BlankContext() && threads == map[]
    {
      m, world, c, threads := machine, start, BlankContext(), map[];
    }

    /** Between slices the context is blank and every continuation stands for a call. */
    predicate AtRest()
      reads this
    {
      c == BlankContext() && ThreadsOk(m, threads)
    }

    /** One handler call; a call that blocks or yields is recorded in the context. */
    method Dispatch(handler: nat, arguments: Frame, floating: seq<byte>, nonvolatile: seq<u64>) returns (value: u64, after: seq<byte>)
      modifies this`world, this`c
      ensures var (w, reply) := m.handle(old(world), handler, arguments, floating, nonvolatile);
        && world == w && value == reply.value && after == reply.floating
        && c == if !(old(c).active || old(c).retrying) then old(c)
          else if reply.status == HleBlocked || (reply.status == HleOk && reply.yielded) then
            old(c).(hleStatus := reply.status, retry := reply.status == HleBlocked, completed := reply.value, handler := Some(handler),
              arguments := arguments, ip := m.returnAt(w, arguments), sp := (arguments + FRAME_BYTES) % TWO64,
              nonvolatile := nonvolatile, floating := reply.floating,
              control := if reply.status == HleBlocked then BlockRequest else YieldRequest)
          else if reply.status != HleOk then old(c).(hleStatus := reply.status, control := StopRequest)
          else old(c).(hleStatus := HleOk)
    {
      var (w, reply) := m.handle(world, handler, arguments, floating, nonvolatile);
      world, value, after := w, reply.value, reply.floating;
      if c.active || c.retrying {
        c := c.(hleStatus := reply.status);
        var blocked := reply.status == HleBlocked;
        var yielded := reply.status == HleOk && reply.yielded;
        if blocked || yielded {
          c := c.(retry := blocked, completed := reply.value, handler := Some(handler), arguments := arguments);
          c := c.(ip := m.returnAt(world, arguments), sp := (arguments + FRAME_BYTES) % TWO64);
          c := c.(nonvolatile := nonvolatile, floating := reply.floating);
          c := c.(control := if blocked then BlockRequest else YieldRequest);
        } else if reply.status != HleOk {
          c := c.(control := StopRequest);
        }
      }
    }

    /** Runs guest code until it ends, suspends, or has made `fuel` more calls. */
    method RunGuest(pointer: u64, first: Stop, fuel: nat) returns (exec: Exec)
      requires c.active && c.control == NoRequest && !c.retrying && c.base == m.base && c.end == m.end
      modifies this`world, this`c
      ensures world == Continue(m, old(world), pointer, old(c).root, first, fuel).0
      ensures Ran(m, c, exec, Continue(m, old(world), pointer, old(c).root, first, fuel).1)
    {
      var stop, left := first, fuel;
      while true
        invariant 0 <= left <= fuel && c.active && c.control == NoRequest && !c.retrying
        invariant c.base == m.base && c.end == m.end && c.root == old(c).root
        invariant Continue(m, world, pointer, c.root, stop, left) == Continue(m, old(world), pointer, c.root, first, fuel)
        decreases left
      {
        if stop.Finished? {
          c := c.(active := false);
          return Exec(ExecOk, stop.value);
        }
        if stop.Faulted? {
          c := c.(active := false);
          return Exec(ExecFailed, 0);
        }
        var value, after := Dispatch(stop.handler, stop.arguments, stop.floating, stop.nonvolatile);
        if c.control != NoRequest {
          c := c.(active := false);
          return ControlResult(c.control, c.hleStatus);
        }
        if left == 0 {
          return Exec(ExecOk, 0);
        }
        var back := Point(m.returnAt(world, stop.arguments), (stop.arguments + FRAME_BYTES) % TWO64, c.root, stop.nonvolatile, after);
        var (w, next) := m.resume(world, pointer, back, value);
        world, stop, left := w, next, left - 1;
      }
    }

    method ExecuteEntry(h: Handle, pointer: u64, fuel: nat) returns (exec: Exec)
      requires c == BlankContext()
      modifies this`world, this`c
      ensures world == Slice(m, old(world), h, pointer, Unstarted, fuel).0
      ensures Left(m, c, exec, Slice(m, old(world), h, pointer, Unstarted, fuel).1)
    {
      if c.active || c.control != NoRequest || !m.entryOk(world, h) {
        return Exec(ExecInvalid, 0);
      }
      c := c.(base := m.base, end := m.end, root := m.rootOf(h));
      var (w, stop) := m.entry(world, h);
      world, c := w, c.(active := true);
      exec := RunGuest(pointer, stop, fuel);
      if !c.active && exec.status != ExecBlocked && exec.status != ExecYielded {
        c := BlankContext();
      }
    }

    /** Goes on at the point the context holds, with the given value. */
    method RunOn(pointer: u64, value: u64, fuel: nat) returns (exec: Exec)
      requires !c.active && c.control == NoRequest && !c.retrying && c.base == m.base && c.end == m.end
      modifies this`world, this`c
      ensures var point := Point(old(c).ip, old(c).sp, old(c).root, old(c).nonvolatile, old(c).floating);
        var (w, stop) := m.resume(old(world), pointer, point, value);
        && world == Continue(m, w, pointer, point.root, stop, fuel).0
        && Left(m, c, exec, Continue(m, w, pointer, point.root, stop, fuel).1)
    {
      hide Continue;
      var (w, stop) := m.resume(world, pointer, Point(c.ip, c.sp, c.root, c.nonvolatile, c.floating), value);
      world, c := w, c.(active := true);
      exec := RunGuest(pointer, stop, fuel);
      if !c.active && exec.status != ExecBlocked && exec.status != ExecYielded {
        c := BlankContext();
      }
    }

    /** Retries a blocked call or delivers a completed one, then runs on. */
    method ResumeContext(h: Handle, pointer: u64, ghost ref: Ref, fuel: nat) returns (exec: Exec)
      requires Loaded(m, c, ref)
      modifies this`world, this`c
      ensures world == Slice(m, old(world), h, pointer, ref, fuel).0
      ensures if Refused(m, old(world), pointer, ref) then exec == Exec(ExecInvalid, 0) && c == old(c)
        else Left(m, c, exec, Slice(m, old(world), h, pointer, ref, fuel).1)
    {
      if c.active || !Suspended(c) || c.base != m.base || c.end != m.end || c.handler.None? || c.arguments == 0
        || c.arguments > TWO64 - 1 - FRAME_BYTES || c.arguments + FRAME_BYTES != c.sp || !m.accessible(world, pointer, c.arguments, c.ip, c.root)
      {
        return Exec(ExecInvalid, 0);
      }
      c := c.(control := NoRequest, hleStatus := HleOk);
      var value := c.completed;
      if c.retry {
        c := c.(retrying := true);
        var after;
        value, after := Dispatch(c.handler.value, c.arguments, c.floating, c.nonvolatile);
        c := c.(retrying := false, floating := after);
      }
      if c.control != NoRequest {
        exec := ControlResult(c.control, c.hleStatus);
        if exec.status != ExecBlocked && exec.status != ExecYielded {
          c := BlankContext();
        }
        return;
      }
      if c.retry && fuel == 0 {
        c := c.(active := true);
        return Exec(ExecOk, 0);
      }
      exec := RunOn(pointer, value, if c.retry then fuel - 1 else fuel);
    }

    /** Loads a thread's continuation, which is then used up, and resumes it. */
    method ResumeThread(h: Handle, fuel: nat) returns (exec: Exec)
      requires ThreadsOk(m, threads) && h in threads && !c.retrying
      modifies this`world, this`c, this`threads
      ensures !old(threads)[h].saved.valid || old(c).active || old(c).control != NoRequest ==>
        exec == Exec(ExecInvalid, 0) && world == old(world) && c == old(c) && threads == old(threads)
      ensures old(AtRest()) && old(threads)[h].saved.valid ==>
        threads == old(threads)[h := old(threads)[h].(saved := BlankContinuation())]
      ensures old(AtRest()) && old(threads)[h].saved.valid ==>
        var ref := RefOf(m, old(threads)[h]);
        && world == Slice(m, old(world), h, old(threads)[h].pointer, ref, fuel).0
        && if Refused(m, old(world), old(threads)[h].pointer, ref) then exec == Exec(ExecInvalid, 0) && !c.active && Suspended(c)
          else Left(m, c, exec, Slice(m, old(world), h, old(threads)[h].pointer, ref, fuel).1)
    {
      hide Slice, Refused, Left;
      var saved, pointer := threads[h].saved, threads[h].pointer;
      if !saved.valid || c.active || c.control != NoRequest || saved.base != m.base || saved.end != m.end {
        return Exec(ExecInvalid, 0);
      }
      c := c.(control := BlockRequest, hleStatus := saved.hleStatus, retry := saved.retry, completed := saved.completed);
      c := c.(handler := saved.handler, arguments := saved.arguments, ip := saved.ip, sp := saved.sp);
      c := c.(root := saved.root, base := saved.base, end := saved.end);
      c := c.(nonvolatile := saved.nonvolatile, floating := saved.floating);
      threads := threads[h := threads[h].(saved := BlankContinuation())];
      exec := ResumeContext(h, pointer, RefOf(m, old(threads)[h]), fuel);
    }

    /** Moves a suspended call out of the context and into the thread. */
    method TakeContinuation(h: Handle) returns (ok: bool)
      requires h in threads
      modifies this`c, this`threads
      ensures ok <==> Suspended(old(c)) && !old(threads)[h].saved.valid
      ensures !ok ==> c == old(c) && threads == old(threads)
      ensures ok ==> c == BlankContext() && h in threads && threads == old(threads)[h := old(threads)[h].(saved := threads[h].saved)]
      ensures forall ref | ok && Caught(m, old(c), ref) :: Holds(m, threads[h].saved) && (old(threads)[h].started ==> RefOf(m, threads[h]) == ref)
    {
      if !Suspended(c) || threads[h].saved.valid {
        return false;
      }
      var saved := Continuation(true, c.hleStatus, c.retry, c.completed, c.handler, c.arguments, c.ip, c.sp, c.root, c.base, c.end,
        c.nonvolatile, c.floating);
      threads := threads[h := threads[h].(saved := saved)];
      c := BlankContext();
      ok := true;
    }

    method RegisterThread(h: Handle, pointer: u64) returns (ok: bool)
      requires ThreadsOk(m, threads)
      modifies this`threads
      ensures ThreadsOk(m, threads) && ok == (h !in old(threads))
      ensures var before := Abstract(m, world, old(threads));
        Abstract(m, world, threads) == if ok then before.(threads := before.threads[h := RefThread(Unstarted, pointer)]) else before
    {
      if h in threads {
        return false;
      }
      threads := threads[h := Thread(false, BlankContinuation(), pointer)];
      ok := true;
    }

    /** Runs one slice of a thread that may run: its continuation, or its entry the first time. */
    method RunThread(h: Handle, fuel: nat) returns (exec: Exec)
      requires AtRest() && h in threads && !RefOf(m, threads[h]).Dead?
      modifies this`world, this`c, this`threads
      ensures var t := old(threads)[h]; var ref := RefOf(m, t); var ran := Slice(m, old(world), h, t.pointer, ref, fuel);
        && threads == old(threads)[h := Thread(true, BlankContinuation(), t.pointer)]
        && world == ran.0
        && if Refused(m, old(world), t.pointer, ref) then exec == Exec(ExecInvalid, 0) && !c.active && Suspended(c)
          else Left(m, c, exec, ran.1)
    {
      hide Slice, Refused, Left;
      if threads[h].saved.valid {
        exec := ResumeThread(h, fuel);
      } else {
        NeverRefused(m, world, threads[h].pointer);
        threads := threads[h := Thread(true, BlankContinuation(), threads[h].pointer)];
        exec := ExecuteEntry(h, threads[h].pointer, fuel);
      }
    }

    /** One slice and its record, for a thread that may run. */
    method TakeTurn(h: Handle, d: Decision, fuel: nat) returns (status: RunStatus)
      requires AtRest() && h in threads && !RefOf(m, threads[h]).Dead?
      modifies this`world, this`c, this`threads
      ensures var t := old(threads)[h]; var before := Abstract(m, old(world), old(threads));
        var ran := Slice(m, old(world), h, t.pointer, RefOf(m, t), fuel);
        var after := Recorded(before, h, ran.0, ran.1, d);
        && status == after.1
        && ThreadsOk(m, threads)
        && (status != StillRunning ==> Abstract(m, world, threads) == after.0)
        && (status != StillRunning && !Refused(m, old(world), t.pointer, RefOf(m, t)) ==> c == BlankContext())
        && (status != StillRunning && Refused(m, old(world), t.pointer, RefOf(m, t)) ==> Suspended(c))
        && (status == StillRunning ==> c.active)
    {
      hide Slice, Refused, Abstract, Holds;
      ghost var before, t := Abstract(m, world, threads), threads[h];
      ghost var ran, refused := Slice(m, world, h, t.pointer, RefOf(m, t), fuel), Refused(m, world, t.pointer, RefOf(m, t));
      RefusedEnds(m, world, h, t.pointer, RefOf(m, t), fuel);
      AbstractUpdate(m, ran.0, threads, h, Thread(true, BlankContinuation(), t.pointer));
      AbstractAt(m, world, ran.0, threads, h);
      var exec := RunThread(h, fuel);
      if c.active {
        return StillRunning;
      }
      status := AfterSlice(h, exec, d, before, ran.1, refused);
    }

    /** Registers the ready threads that are new, until an allocation fails. */
    method PrepareReady(ready: seq<Handle>) returns (ok: bool)
      requires ThreadsOk(m, threads)
      modifies this`world, this`threads
      ensures ThreadsOk(m, threads)
      ensures (Abstract(m, world, threads), ok) == Prepare(m, Abstract(m, old(world), old(threads)), ready)
    {
      hide Abstract, ThreadsOk;
      ghost var start := Abstract(m, world, threads);
      var n := 0;
      assert ready[0..] == ready;
      while n < |ready|
        invariant 0 <= n <= |ready| && ThreadsOk(m, threads)
        invariant Prepare(m, Abstract(m, world, threads), ready[n..]) == Prepare(m, start, ready)
      {
        var h := ready[n];
        assert ready[n..][1..] == ready[n + 1..];
        AbstractHas(m, world, threads, h);
        if h !in threads {
          var (w, pointer) := m.allocate(world, h);
          AbstractWorld(m, world, w, threads);
          world := w;
          if pointer.None? {
            return false;
          }
          var registered := RegisterThread(h, pointer.value);
        }
        n := n + 1;
      }
      assert ready[n..] == [];
      ok := true;
    }

    /**
     * One turn of the runner does what the coroutine semantics says, through
     * the one shared context.  The lane is free again unless a saved frame had
     * become unusable.
     */
    method RunNext(d: Decision, fuel: nat) returns (status: RunStatus)
      requires ThreadsOk(m, threads) && (c == BlankContext() || c.active || Suspended(c))
      modifies this`world, this`c, this`threads
      ensures ThreadsOk(m, threads) && (c == BlankContext() || c.active || Suspended(c))
      ensures old(c) != BlankContext() ==> status == LaneBusy && c == old(c) && world == old(world) && threads == old(threads)
      ensures old(AtRest()) ==>
        var before := Abstract(m, old(world), old(threads));
        && status == Turn(m, before, d, fuel).1
        && (status == StillRunning ==> c.active)
        && (status != StillRunning ==>
          && Abstract(m, world, threads) == Turn(m, before, d, fuel).0
          && (if TurnRefused(m, before, d) then Suspended(c) else AtRest()))
    {
      hide Chosen, ChosenRefused, Prepare, Abstract, ThreadsOk;
      if c.active || Suspended(c) {
        return LaneBusy;
      }
      var ok := PrepareReady(d.ready);
      if !ok {
        return PreparationFailed;
      }
      status := RunChosen(d, fuel);
    }

    method RunChosen(d: Decision, fuel: nat) returns (status: RunStatus)
      requires AtRest()
      modifies this`world, this`c, this`threads
      ensures ThreadsOk(m, threads)
      ensures var before := Abstract(m, old(world), old(threads));
        && status == Chosen(m, before, d, fuel).1
        && (status == StillRunning ==> c.active)
        && (status != StillRunning ==>
          && Abstract(m, world, threads) == Chosen(m, before, d, fuel).0
          && (if ChosenRefused(m, before, d) then Suspended(c) else AtRest()))
    {
      if d.selected.None? {
        return Idle;
      }
      if !d.running {
        return StateInvalid;
      }
      var h := d.selected.value;
      if h !in threads {
        return if d.yieldOk then NotRegistered else UpdateFailed;
      }
      if !threads[h].saved.valid && threads[h].started {
        return StateInvalid;
      }
      hide Slice, Recorded, Holds;
      status := TakeTurn(h, d, fuel);
    }

    /** Records how the slice ended: the call it suspended in, or the thread's exit. */
    method AfterSlice(h: Handle, exec: Exec, d: Decision, ghost before: RefState<W>, ghost outcome: Outcome, ghost refused: bool) returns (status: RunStatus)
      requires ThreadsOk(m, threads) && h in threads && threads[h].started && threads[h].saved == BlankContinuation()
      requires h in before.threads && Abstract(m, world, threads) == Store(before, h, world, Dead)
      requires if refused then exec == Exec(ExecInvalid, 0) && Suspended(c) && outcome == Ends(exec) else Left(m, c, exec, outcome)
      requires outcome != Endless
      modifies this`c, this`threads
      ensures ThreadsOk(m, threads) && (Abstract(m, world, threads), status) == Recorded(before, h, world, outcome, d)
      ensures c == if refused then old(c) else BlankContext()
    {
      hide Abstract, ThreadsOk, Holds;
      AbstractAt(m, world, world, threads, h);
      if exec.status != ExecBlocked && exec.status != ExecYielded {
        AbstractRemove(m, world, threads, h);
        assert Store(before, h, world, Dead).threads - {h} == before.threads - {h};
      }
      ghost var entered := threads;
      if exec.status == ExecBlocked || exec.status == ExecYielded {
        var ok := TakeContinuation(h);
        if !ok {
          return CaptureFailed;
        }
        AbstractUpdate(m, world, entered, h, threads[h]);
        assert Store(before, h, world, Dead).threads[h := RefThread(outcome.ref, threads[h].pointer)] == Store(before, h, world, outcome.ref).threads;
        if !d.suspendedOk {
          return StateInvalid;
        }
        return if exec.status == ExecBlocked then ThreadBlocked else ThreadYielded;
      }
      if exec.status == ExecOk || exec.status == ExecGuestExit {
        if !(if exec.status == ExecOk then d.exitOk else d.exitedOk) {
          return UpdateFailed;
        }
        threads := threads - {h};
        return if d.released then ThreadExited else ReleaseFailed;
      }
      threads := threads - {h};
      status := if !d.exitOk then UpdateFailed else if !d.released then ReleaseFailed else ExecutionFailed;
    }

    /**
     * Sharing the lane is transparent over whole runs: as long as no turn meets
     * an unusable frame or runs on for ever, the threads end up exactly where
     * separate coroutines would.  A lane left busy stays busy.
     */
    method RunMany(ds: seq<(Decision, nat)>) returns (statuses: seq<RunStatus>)
      requires ThreadsOk(m, threads) && (c == BlankContext() || c.active || Suspended(c))
      modifies this`world, this`c, this`threads
      ensures |statuses| == |ds|
      ensures old(AtRest()) && Unhindered(m, Abstract(m, old(world), old(threads)), ds) ==>
        AtRest() && Abstract(m, world, threads) == Turns(m, Abstract(m, old(world), old(threads)), ds)
      ensures old(c) != BlankContext() ==>
        c == old(c) && world == old(world) && threads == old(threads) && forall k | 0 <= k < |ds| :: statuses[k] == LaneBusy
    {
      hide Turn, TurnRefused, ThreadsOk, Abstract;
      statuses := [];
      ghost var start := Abstract(m, world, threads);
      var n := 0;
      while n < |ds|
        invariant 0 <= n <= |ds| && |statuses| == n
        invariant ThreadsOk(m, threads) && (c == BlankContext() || c.active || Suspended(c))
        invariant old(AtRest()) && Unhindered(m, start, ds) ==> AtRest() && Abstract(m, world, threads) == Turns(m, start, ds[..n])
        invariant old(c) != BlankContext() ==>
          c == old(c) && world == old(world) && threads == old(threads) && forall k | 0 <= k < n :: statuses[k] == LaneBusy
      {
        if old(AtRest()) && Unhindered(m, start, ds) {
          UnhinderedAt(m, start, ds, n);
        }
        var status := RunNext(ds[n].0, ds[n].1);
        statuses := statuses + [status];
        n := n + 1;
      }
      assert ds[..n] == ds;
    }
  }

  /** No turn of the run is refused or left running. */
  ghost predicate Unhindered<W>(m: Machine<W>, s: RefState<W>, ds: seq<(Decision, nat)>) {
    forall k | 0 <= k < |ds| :: Free(m, Turns(m, s, ds[..k]), ds[k])
  }

  ghost predicate Free<W>(m: Machine<W>, s: RefState<W>, d: (Decision, nat)) {
    !TurnRefused(m, s, d.0) && Turn(m, s, d.0, d.1).1 != StillRunning
  }

  lemma UnhinderedAt<W>(m: Machine<W>, s: RefState<W>, ds: seq<(Decision, nat)>, n: nat)
    requires n < |ds| && Unhindered(m, s, ds)
    ensures Free(m, Turns(m, s, ds[..n]), ds[n])
    ensures Turns(m, s, ds[..n + 1]) == Turn(m, Turns(m, s, ds[..n]), ds[n].0, ds[n].1).0
  {
    assert ds[..n + 1][..n] == ds[..n];
  }

  /** Abstraction follows the thread table entry by entry. */
  lemma AbstractUpdate<W>(m: Machine<W>, w: W, threads: map<Handle, Thread>, h: Handle, t: Thread)
    requires ThreadsOk(m, threads) && (t.saved.valid ==> Holds(m, t.saved) && t.started)
    ensures ThreadsOk(m, threads[h := t])
    ensures Abstract(m, w, threads[h := t]) == RefState(w, Abstract(m, w, threads).threads[h := RefThread(RefOf(m, t), t.pointer)])
  {
  }

  lemma AbstractAt<W>(m: Machine<W>, w: W, w': W, threads: map<Handle, Thread>, h: Handle)
    requires ThreadsOk(m, threads) && h in threads
    ensures var before := Abstract(m, w, threads);
      && h in before.threads && before.threads[h] == RefThread(RefOf(m, threads[h]), threads[h].pointer)
      && RefState(w', Abstract(m, w', threads).threads[h := RefThread(Dead, threads[h].pointer)]) == Store(before, h, w', Dead)
  {
  }

  lemma AbstractHas<W>(m: Machine<W>, w: W, threads: map<Handle, Thread>, h: Handle)
    requires ThreadsOk(m, threads)
    ensures h in Abstract(m, w, threads).threads <==> h in threads
    ensures Abstract(m, w, threads).world == w
  {
  }

  lemma AbstractWorld<W>(m: Machine<W>, w: W, w': W, threads: map<Handle, Thread>)
    requires ThreadsOk(m, threads)
    ensures Abstract(m, w', threads) == Abstract(m, w, threads).(world := w')
  {
  }

  lemma AbstractRemove<W>(m: Machine<W>, w: W, threads: map<Handle, Thread>, h: Handle)
    requires ThreadsOk(m, threads)
    ensures ThreadsOk(m, threads - {h})
    ensures Abstract(m, w, threads - {h}) == RefState(w, Abstract(m, w, threads).threads - {h})
  {
    assert Abstract(m, w, threads - {h}).threads == Abstract(m, w, threads).threads - {h};
  }

  lemma RefusedEnds<W>(m: Machine<W>, w: W, h: Handle, pointer: u64, ref: Ref, fuel: nat)
    ensures Refused(m, w, pointer, ref) ==> Slice(m, w, h, pointer, ref, fuel) == (w, Ends(Exec(ExecInvalid, 0)))
  {
  }

  lemma NeverRefused<W>(m: Machine<W>, w: W, pointer: u64)
    ensures !Refused(m, w, pointer, Unstarted)
  {
  }
}
