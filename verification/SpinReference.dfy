/** A reference interpreter that calls indirect buffers recursively and busy-waits at every
    wait packet, and the proof that the resumable decoder does the same work. */
module SpinReference {
  import opened Words
  import opened GuestMemory
  import opened Pm4
  import opened CommandProcessor
  import opened DecoderBounds

  /** Whatever happens outside the decoder between two polls: guest code, other queues. */
  type Env<!S> = World<S> -> World<S>

  datatype SpinEnd<!S> =
    | Done(core: Core<S>, env: seq<Env<S>>)
    | Waiting(core: Core<S>, wait: PendingWait)
    | Failed(core: Core<S>, env: seq<Env<S>>, status: Status, address: u64, opcode: u32)

  /** Polls once after each outside step, until the comparison holds. */
  ghost function SpinWait<S>(core: Core<S>, wait: PendingWait, env: seq<Env<S>>): (r: SpinEnd<S>)
    ensures r.core.processed == core.processed && r.core.log == core.log
    decreases |env|
  {
    if env == [] then Waiting(core, wait)
    else
      var c := core.(world := env[0](core.world));
      match Poll(c.world.memory, wait.address, wait.is64)
      case None => Failed(c, env[1..], MemoryFault, wait.packetAddress, wait.opcode)
      case Some(value) =>
        if CompareWait(value, wait.reference, wait.mask, wait.function_) then Done(c, env[1..])
        else SpinWait(c, wait, env[1..])
  }

  /** Interprets the rest of buffer `f`, opened inside the buffers `callers`. */
  ghost function Spin<S>(sink: Sink<S>, limits: Limits, callers: seq<Frame>, f: Frame, core: Core<S>,
                         env: seq<Env<S>>): (r: SpinEnd<S>)
    requires core.processed <= limits.maxProcessedDwords && f.offset <= |f.words|
    ensures core.processed <= r.core.processed <= limits.maxProcessedDwords
    decreases limits.maxProcessedDwords - core.processed
  {
    if f.offset == |f.words| then Done(core, env)
    else
      PacketStepFacts(sink, limits, f, |callers|, core);
      var rest := f.Skip(SizeAt(f));
      match PacketStep(sink, limits, f, |callers|, core)
      case Halt(c, status, address, opcode) => Failed(c, env, status, address, opcode)
      case Go(c, Advance) => Spin(sink, limits, callers, rest, c, env)
      case Go(c, Hold(wait)) =>
        var w := SpinWait(c, wait, env);
        if w.Done? then Spin(sink, limits, callers, rest, w.core, w.env) else w
      case Go(c, Enter(target, dwords)) =>
        match OpenFrame(limits, callers + [f], c.world.memory, target, dwords)
        case Refused(status, address, opcode) => Failed(c, env, status, address, opcode)
        case Opened(callee) =>
          var inner := Spin(sink, limits, callers + [rest], callee, c, env);
          if inner.Done? then Spin(sink, limits, callers, rest, inner.core, inner.env) else inner
  }

  /** Interprets a stack of open buffers, innermost first. */
  ghost function SpinStack<S>(sink: Sink<S>, limits: Limits, frames: seq<Frame>, core: Core<S>,
                              env: seq<Env<S>>): SpinEnd<S>
    requires Bounded(limits, frames, core)
    decreases |frames|
  {
    if frames == [] then Done(core, env)
    else
      var r := Spin(sink, limits, Below(frames), Top(frames), core, env);
      if r.Done? then SpinStack(sink, limits, Below(frames), r.core, r.env) else r
  }

  /** The resumable decoder in the same surroundings: resume, let the outside act, resume. */
  ghost function RunResumed<S>(sink: Sink<S>, cursor: Cursor, w: World<S>, env: seq<Env<S>>)
    : (Cursor, World<S>, seq<Env<S>>)
    requires WellFormed(cursor)
    decreases |env|
  {
    ResumeWellFormed(sink, cursor, w);
    var (c, w') := Resume(sink, cursor, w);
    if c.terminal || env == [] then (c, w', env) else RunResumed(sink, c, env[0](w'), env[1..])
  }

  /** The cursor and the world left behind are those of the reference interpreter. */
  ghost predicate Agrees<S>(run: (Cursor, World<S>, seq<Env<S>>), spin: SpinEnd<S>) {
    && run.0.log == spin.core.log
    && run.0.processed == spin.core.processed
    && run.1 == spin.core.world
    && match spin
       case Done(_, env) => run.2 == env && run.0.terminal && run.0.result == Result(Complete, 0, 0)
       case Waiting(_, wait) =>
         run.2 == [] && !run.0.terminal && run.0.pending == Some(wait)
         && run.0.result == Result(Blocked, wait.packetAddress, wait.opcode)
       case Failed(_, env, status, address, opcode) =>
         run.2 == env && run.0.terminal && run.0.result == Result(status, address, opcode)
  }

  lemma {:induction false} ApplyRegistersNeverBlocked<S(!new)>(
    sink: Sink<S>, limits: Limits, core: Core<S>, space: Space, site: Site, entries: seq<RegisterEntry>)
    requires NeverBlocks(sink)
    ensures var s := ApplyRegisters(sink, limits, core, space, site, entries); s.Halt? ==> s.status != Blocked
    decreases |entries|
  {
    if entries != [] {
      var s := ApplyRegister(sink, limits, core, space, site, entries[0]);
      if s.Go? { ApplyRegistersNeverBlocked(sink, limits, s.core, space, site, entries[1..]); }
    }
  }

  lemma ExecuteNeverBlocked<S(!new)>(sink: Sink<S>, limits: Limits, core: Core<S>, site: Site, i: Instr, depth: nat)
    requires NeverBlocks(sink) && i != Bad(Blocked)
    ensures var s := Execute(sink, limits, core, site, i, depth); s.Halt? ==> s.status != Blocked
  {
    match i {
      case DirectRegisters(space, start, words) =>
        ApplyRegistersNeverBlocked(sink, limits, core, space, site, DirectEntries(start, words));
      case IndirectRegisters(space, table, count) =>
        if count <= limits.maxBufferDwords / 2 {
          var r := ReadDwords(limits, core.world.memory, table, 2 * count);
          if r.Fetched? {
            ApplyRegistersNeverBlocked(sink, limits, core, space, site, TableEntries(table, r.words));
          }
        }
      case _ =>
    }
  }

  lemma PacketStepNeverBlocked<S(!new)>(sink: Sink<S>, limits: Limits, f: Frame, depth: nat, core: Core<S>)
    requires NeverBlocks(sink)
    requires f.offset < |f.words| && core.processed <= limits.maxProcessedDwords
    ensures var s := PacketStep(sink, limits, f, depth, core); s.Halt? ==> s.status != Blocked
  {
    hide Decode, Execute;
    var at := f.address + 4 * f.offset;
    match ParseHeader(f.words[f.offset]) {
      case Type3(opcode, register, dwords) =>
        if at < TWO64 && dwords <= |f.words| - f.offset {
          var p := f.words[f.offset..f.offset + dwords];
          DecodeErrors(opcode, register, p);
          ExecuteNeverBlocked(sink, limits, core.(processed := core.processed + dwords),
                              Site(at, dwords, opcode, register), Decode(opcode, register, p), depth);
        }
      case _ =>
    }
  }

  /** What the resumable decoder does once a stretch of decoding has stopped. */
  ghost function After<S>(sink: Sink<S>, limits: Limits, stop: Stop<S>, env: seq<Env<S>>)
    : (Cursor, World<S>, seq<Env<S>>)
    requires stop.core.processed <= limits.maxProcessedDwords && |stop.core.log| <= limits.maxActions
    requires !stop.Finished? ==> StackOk(limits, stop.frames) && stop.frames != []
    requires stop.Parked? ==> WaitAt(stop.frames, stop.wait)
  {
    var c := Settle(EmptyCursor(limits), stop);
    if c.terminal || env == [] then (c, stop.core.world, env)
    else RunResumed(sink, c, env[0](stop.core.world), env[1..])
  }

  lemma WaitAgrees<S(!new)>(sink: Sink<S>, limits: Limits, frames: seq<Frame>, core: Core<S>, wait: PendingWait,
                            env: seq<Env<S>>)
    requires NeverBlocks(sink)
    requires Bounded(limits, frames, core) && StackOk(limits, frames) && |core.log| <= limits.maxActions
    requires WaitAt(frames, wait)
    ensures
      var w := SpinWait(core, wait, env);
      var rest := Below(frames) + [Top(frames).Skip(wait.packetDwords)];
      Agrees(After(sink, limits, Parked(frames, core, wait), env),
             if w.Done? then SpinStack(sink, limits, rest, w.core, w.env) else w)
    decreases |env|, 0, 0
  {
    hide RunFrames, SizeAt, Spin;
    if env != [] {
      var c := core.(world := env[0](core.world));
      match CheckWait(frames, c.world.memory, wait) {
        case Released(rest) =>
          StackAgrees(sink, limits, rest, c, env[1..]);
        case StillBlocked =>
          WaitAgrees(sink, limits, frames, c, wait, env[1..]);
        case _ =>
      }
    }
  }

  /** One packet of the innermost buffer, seen from the whole stack of open buffers. */
  ghost predicate UnrollsTo<S>(sink: Sink<S>, limits: Limits, frames: seq<Frame>, core: Core<S>, env: seq<Env<S>>,
                               whole: SpinEnd<S>)
    requires Bounded(limits, frames, core) && frames != [] && Top(frames).offset < |Top(frames).words|
  {
    var top, below := Top(frames), Below(frames);
    PacketStepFacts(sink, limits, top, |below|, core);
    var rest := top.Skip(SizeAt(top));
    match PacketStep(sink, limits, top, |below|, core)
    case Halt(c, status, address, opcode) => whole == Failed(c, env, status, address, opcode)
    case Go(c, Advance) => whole == SpinStack(sink, limits, below + [rest], c, env)
    case Go(c, Hold(wait)) =>
      var w := SpinWait(c, wait, env);
      whole == if w.Done? then SpinStack(sink, limits, below + [rest], w.core, w.env) else w
    case Go(c, Enter(target, dwords)) =>
      match OpenFrame(limits, frames, c.world.memory, target, dwords)
      case Refused(status, address, opcode) => whole == Failed(c, env, status, address, opcode)
      case Opened(callee) => whole == SpinStack(sink, limits, below + [rest, callee], c, env)
  }

  lemma SpinStackStep<S>(sink: Sink<S>, limits: Limits, frames: seq<Frame>, core: Core<S>, env: seq<Env<S>>)
    requires Bounded(limits, frames, core) && frames != [] && Top(frames).offset < |Top(frames).words|
    ensures UnrollsTo(sink, limits, frames, core, env, SpinStack(sink, limits, frames, core, env))
  {
    hide PacketStep, SizeAt, SpinWait;
    var top, below := Top(frames), Below(frames);
    PacketStepFacts(sink, limits, top, |below|, core);
    var rest := top.Skip(SizeAt(top));
    assert Below(below + [rest]) == below && Top(below + [rest]) == rest;
    assert below + [top] == frames;
    match PacketStep(sink, limits, top, |below|, core) {
      case Go(c, Enter(target, dwords)) =>
        match OpenFrame(limits, frames, c.world.memory, target, dwords) {
          case Opened(callee) =>
            var deeper := below + [rest, callee];
            assert Below(deeper) == below + [rest] && Top(deeper) == callee;
            var inner := Spin(sink, limits, below + [rest], callee, c, env);
            assert SpinStack(sink, limits, deeper, c, env) ==
              if inner.Done? then SpinStack(sink, limits, below + [rest], inner.core, inner.env) else inner;
          case _ =>
        }
      case _ =>
    }
  }

  lemma HaltAgrees<S>(sink: Sink<S>, limits: Limits, stop: Stop<S>, env: seq<Env<S>>)
    requires stop.Halted? && stop.status != Blocked
    requires stop.core.processed <= limits.maxProcessedDwords && |stop.core.log| <= limits.maxActions
    requires StackOk(limits, stop.frames) && stop.frames != []
    ensures Agrees(After(sink, limits, stop, env), Failed(stop.core, env, stop.status, stop.address, stop.opcode))
  {
  }

  lemma StackAgrees<S(!new)>(sink: Sink<S>, limits: Limits, frames: seq<Frame>, core: Core<S>, env: seq<Env<S>>)
    requires NeverBlocks(sink)
    requires Bounded(limits, frames, core) && StackOk(limits, frames) && |core.log| <= limits.maxActions
    ensures StopOk(limits, core, RunFrames(sink, limits, frames, core))
    ensures Agrees(After(sink, limits, RunFrames(sink, limits, frames, core), env),
                   SpinStack(sink, limits, frames, core, env))
    decreases |env|, limits.maxProcessedDwords - core.processed + 1, |frames|
  {
    hide PacketStep, SizeAt, RunResumed, SpinWait, Spin, OpenFrame;
    RunFramesBounded(sink, limits, frames, core);
    if frames == [] {
      EmptyAgrees(sink, limits, core, env);
    } else if Top(frames).offset == |Top(frames).words| {
      StackAgrees(sink, limits, Below(frames), core, env);
      PopAgrees(sink, limits, frames, core, env);
    } else {
      PacketAgrees(sink, limits, frames, core, env);
    }
  }

  lemma EmptyAgrees<S>(sink: Sink<S>, limits: Limits, core: Core<S>, env: seq<Env<S>>)
    requires core.processed <= limits.maxProcessedDwords && |core.log| <= limits.maxActions
    ensures Agrees(After(sink, limits, Finished(core), env), SpinStack(sink, limits, [], core, env))
  {
  }

  lemma PopAgrees<S>(sink: Sink<S>, limits: Limits, frames: seq<Frame>, core: Core<S>, env: seq<Env<S>>)
    requires Bounded(limits, frames, core) && frames != [] && Top(frames).offset == |Top(frames).words|
    ensures SpinStack(sink, limits, frames, core, env) == SpinStack(sink, limits, Below(frames), core, env)
  {
  }

  lemma PacketAgrees<S(!new)>(sink: Sink<S>, limits: Limits, frames: seq<Frame>, core: Core<S>, env: seq<Env<S>>)
    requires NeverBlocks(sink)
    requires Bounded(limits, frames, core) && StackOk(limits, frames) && |core.log| <= limits.maxActions
    requires frames != [] && Top(frames).offset < |Top(frames).words|
    ensures StopOk(limits, core, RunFrames(sink, limits, frames, core))
    ensures Agrees(After(sink, limits, RunFrames(sink, limits, frames, core), env),
                   SpinStack(sink, limits, frames, core, env))
    decreases |env|, limits.maxProcessedDwords - core.processed + 1, |frames|, 0
  {
    hide PacketStep, SizeAt, RunResumed, SpinWait, SpinStack, Agrees, After;
    var top, below := Top(frames), Below(frames);
    RunFramesBounded(sink, limits, frames, core);
    PacketStepFacts(sink, limits, top, |below|, core);
    PacketStepLog(sink, limits, top, |below|, core);
    PacketStepNeverBlocked(sink, limits, top, |below|, core);
    SpinStackStep(sink, limits, frames, core, env);
    var rest := top.Skip(SizeAt(top));
    match PacketStep(sink, limits, top, |below|, core) {
      case Halt(c, status, address, opcode) =>
        HaltAgrees(sink, limits, Halted(frames, c, status, address, opcode), env);
      case Go(c, Advance) => StackAgrees(sink, limits, below + [rest], c, env);
      case Go(c, Hold(wait)) => WaitAgrees(sink, limits, frames, c, wait, env);
      case Go(c, Enter(target, dwords)) =>
        match OpenFrame(limits, frames, c.world.memory, target, dwords) {
          case Refused(status, address, opcode) =>
            HaltAgrees(sink, limits, Halted(frames, c, status, address, opcode), env);
          case Opened(callee) => StackAgrees(sink, limits, below + [rest, callee], c, env);
        }
    }
  }

  /** Blocking refines spinning. For every buffer in guest memory and every sequence of
      outside steps, a cursor that parks at waits and is resumed after each step submits the
      same actions, is charged the same words, leaves the same memory and registers, and ends
      with the same result as an interpreter that never leaves the packet it waits at. */
  lemma BlockingRefinesSpinning<S(!new)>(sink: Sink<S>, limits: Limits, w: World<S>, now: World<S>, address: u64,
                                         dwords: u32, env: seq<Env<S>>)
    requires NeverBlocks(sink)
    requires !Begin(limits, w.memory, address, dwords).terminal
    ensures WellFormed(Begin(limits, w.memory, address, dwords))
    ensures
      var c := Begin(limits, w.memory, address, dwords);
      Agrees(RunResumed(sink, c, now, env), Spin(sink, limits, [], c.frames[0], Core(now, 0, []), env))
  {
    hide RunFrames, Spin;
    var c := Begin(limits, w.memory, address, dwords);
    BeginWellFormed(limits, w.memory, address, dwords);
    var core := Core(now, 0, []);
    StackAgrees(sink, limits, c.frames, core, env);
    assert Below(c.frames) == [];
    assert RunResumed(sink, c, now, env) == After(sink, limits, RunFrames(sink, limits, c.frames, core), env);
  }
}
