/** The decoder as it runs: one object that owns registers and memory, cursors that are
    updated in place, and the proof that each call is the step the other modules reason about. */
module GpuRuntime {
  import opened Words
  import opened GuestMemory
  import opened ShaderIndex
  import opened Pm4
  import P = CommandProcessor
  import opened DecoderBounds

  class CommandCursor {
    const limits: P.Limits
    var frames: seq<P.Frame>
    var pending: Option<P.PendingWait>
    var processed: nat
    var submitted: nat
    var result: P.Result
    var terminal: bool
    /** The accepted actions, oldest first; only their number is stored. */
    ghost var log: seq<Action>

    constructor (limits: P.Limits)
      ensures Value() == P.EmptyCursor(limits) && submitted == 0
    {
      this.limits := limits;
      frames, pending, processed, submitted := [], None, 0, 0;
      result, terminal, log := P.Result(Complete, 0, 0), false, [];
    }

    ghost function Value(): P.Cursor
      reads this
    {
      P.Cursor(limits, frames, pending, processed, log, result, terminal)
    }

    ghost predicate Valid()
      reads this
    {
      submitted == |log| && WellFormed(Value())
    }

    method Stop(status: Status, address: u64, opcode: u32)
      modifies this`result
      ensures result == P.Result(status, address, opcode)
    {
      result := P.Result(status, address, opcode);
    }
  }

  /** What a step leaves in the cursor, given what was there before it. */
  ghost predicate Took<S>(before: P.Cursor, step: P.Step<S>, status: Status, after: P.Cursor) {
    && after.limits == before.limits && after.terminal == before.terminal
    && after.processed == step.core.processed && after.log == step.core.log
    && match step
       case Halt(_, s, address, opcode) =>
         status == s && after.frames == before.frames && after.pending == before.pending
         && after.result == P.Result(s, address, opcode)
       case Go(_, Advance) =>
         status == Complete && after.frames == before.frames && after.pending == before.pending
         && after.result == before.result
       case Go(_, Hold(wait)) =>
         status == Blocked && after.frames == before.frames && after.pending == Some(wait)
         && after.result == P.Result(Blocked, wait.packetAddress, wait.opcode)
       case Go(core, Enter(target, dwords)) =>
         after.pending == before.pending
         && match P.OpenFrame(before.limits, before.frames, core.world.memory, target, dwords)
            case Refused(s, address, opcode) =>
              status == s && after.frames == before.frames && after.result == P.Result(s, address, opcode)
            case Opened(frame) =>
              status == Complete && after.frames == before.frames + [frame] && after.result == before.result
  }

  /** How a run of the frame stack shows in the cursor. */
  ghost predicate Stopped<S>(stop: P.Stop<S>, status: Status, after: P.Cursor, result: P.Result) {
    match stop
    case Finished(_) => status == Complete && after.frames == [] && after.pending.None? && after.result == result
    case Parked(frames, _, wait) =>
      status == Blocked && after.frames == frames && after.pending == Some(wait)
      && after.result == P.Result(Blocked, wait.packetAddress, wait.opcode)
    case Halted(frames, _, s, address, opcode) =>
      status == s && after.frames == frames && after.pending.None? && after.result == P.Result(s, address, opcode)
  }

  lemma PopsFrame<S>(sink: P.Sink<S>, limits: P.Limits, frames: seq<P.Frame>, core: P.Core<S>)
    requires P.Bounded(limits, frames, core) && frames != [] && P.Top(frames).offset == |P.Top(frames).words|
    ensures P.Bounded(limits, frames[..|frames| - 1], core)
    ensures P.RunFrames(sink, limits, frames, core) == P.RunFrames(sink, limits, frames[..|frames| - 1], core)
  {
  }

  lemma StopsEmpty<S>(sink: P.Sink<S>, limits: P.Limits, core: P.Core<S>, after: P.Cursor)
    requires core.processed <= limits.maxProcessedDwords && after.frames == [] && after.pending.None?
    ensures P.RunFrames(sink, limits, [], core).core == core
    ensures Stopped(P.RunFrames(sink, limits, [], core), Complete, after, after.result)
  {
  }

  /** One packet of the loop: it stops here as the whole run does, or the run goes on from the
      advanced frames. */
  lemma OneStep<S>(sink: P.Sink<S>, before: P.Cursor, core: P.Core<S>, step: P.Step<S>, status: Status, after: P.Cursor)
    requires before.frames != [] && before.pending.None? && P.Bounded(before.limits, before.frames, core)
    requires P.Top(before.frames).offset < |P.Top(before.frames).words|
    requires step == P.PacketStep(sink, before.limits, P.Top(before.frames), |before.frames| - 1, core)
    requires Took(before, step, status, after)
    ensures after.limits == before.limits && after.terminal == before.terminal
    ensures var whole := P.RunFrames(sink, before.limits, before.frames, core); var index := |before.frames| - 1;
      && (status != Complete ==> whole.core == step.core && Stopped(whole, status, after, before.result))
      && (status == Complete ==>
            && core.processed < step.core.processed && after.pending.None? && after.result == before.result && index < |after.frames|
            && var next := after.frames[index := after.frames[index].Skip(P.SizeAt(P.Top(before.frames)))];
            && P.Bounded(before.limits, next, step.core) && P.RunFrames(sink, before.limits, next, step.core) == whole)
  {
    hide P.PacketStep, P.SizeAt, P.OpenFrame;
    var top, below := P.Top(before.frames), P.Below(before.frames);
    P.PacketStepFacts(sink, before.limits, top, |below|, core);
    P.PacketStepHalts(sink, before.limits, top, |below|, core);
    if status == Complete {
      var index := |before.frames| - 1;
      var rest := top.Skip(P.SizeAt(top));
      var next := after.frames[index := after.frames[index].Skip(P.SizeAt(top))];
      assert next == below + [rest] || (|next| == index + 2 && next == below + [rest, next[index + 1]]);
    }
  }

  class Runtime<S> {
    const sink: P.Sink<S>
    var sinkState: S
    var memory: Memory
    var contextRegisters: P.RegisterMap
    var shaderRegisters: P.RegisterMap
    var userConfigRegisters: P.RegisterMap
    var shaders: Index

    constructor (sink: P.Sink<S>, sinkState: S, memory: Memory)
      ensures this.sink == sink
      ensures World() == P.World(memory, P.Registers(map[], map[], map[]), Index(map[], map[]), sinkState)
    {
      this.sink, this.sinkState, this.memory := sink, sinkState, memory;
      contextRegisters, shaderRegisters, userConfigRegisters := map[], map[], map[];
      shaders := Index(map[], map[]);
    }

    ghost function World(): P.World<S>
      reads this
    {
      P.World(memory, P.Registers(contextRegisters, shaderRegisters, userConfigRegisters), shaders, sinkState)
    }

    ghost function CoreOf(c: CommandCursor): P.Core<S>
      reads this, c
    {
      P.Core(World(), c.processed, c.log)
    }

    method Emit(c: CommandCursor, action: Action) returns (status: Status)
      requires c.submitted == |c.log|
      modifies this, c
      ensures c.submitted == |c.log|
      ensures var step := P.Emit(sink, c.limits, old(CoreOf(c)), action);
        CoreOf(c) == step.core && Took(old(c.Value()), step, status, c.Value())
    {
      if c.submitted >= c.limits.maxActions {
        c.Stop(ResourceLimit, action.site.address, action.site.opcode);
        return ResourceLimit;
      }
      var enriched := action;
      if action.kind == Draw || action.kind == Dispatch {
        enriched := action.(bindings := ResolveAll(shaders, P.SnapshotBindings(shaderRegisters, action.kind)));
      }
      var reply := sink(sinkState, memory, enriched);
      sinkState, memory := reply.sink, reply.memory;
      if reply.status != Complete {
        c.Stop(reply.status, action.site.address, action.site.opcode);
        return reply.status;
      }
      c.submitted := c.submitted + 1;
      c.log := c.log + [enriched];
      return Complete;
    }

    method ApplyRegisterWrite(c: CommandCursor, space: Space, site: Site, e: P.RegisterEntry)
      returns (status: Status)
      requires c.submitted == |c.log|
      modifies this, c
      ensures c.submitted == |c.log|
      ensures var step := P.ApplyRegister(sink, c.limits, old(CoreOf(c)), space, site, e);
        CoreOf(c) == step.core && Took(old(c.Value()), step, status, c.Value())
    {
      status := Emit(c, P.RegisterAction(space, site, e));
      if status == Complete {
        var offset := NormalizeRegisterOffset(e.raw);
        match space {
          case Context => contextRegisters := contextRegisters[offset := e.value];
          case Shader => shaderRegisters := shaderRegisters[offset := e.value];
          case UserConfig => userConfigRegisters := userConfigRegisters[offset := e.value];
        }
      }
    }

    /** The loop shared by the direct and the indirect register packets. */
    method ApplyRegisterWrites(c: CommandCursor, space: Space, site: Site, entries: seq<P.RegisterEntry>)
      returns (status: Status)
      requires c.submitted == |c.log|
      modifies this, c
      ensures c.submitted == |c.log|
      ensures var step := P.ApplyRegisters(sink, c.limits, old(CoreOf(c)), space, site, entries);
        CoreOf(c) == step.core && Took(old(c.Value()), step, status, c.Value())
    {
      hide P.Emit, P.OpenFrame;
      var index := 0;
      assert entries[0..] == entries;
      while index < |entries|
        invariant 0 <= index <= |entries|
        invariant c.submitted == |c.log|
        invariant c.Value() == old(c.Value()).(processed := c.processed, log := c.log)
        invariant P.ApplyRegisters(sink, c.limits, CoreOf(c), space, site, entries[index..]) ==
                  P.ApplyRegisters(sink, c.limits, old(CoreOf(c)), space, site, entries)
      {
        assert entries[index..][1..] == entries[index + 1..];
        ghost var here := CoreOf(c);
        status := ApplyRegisterWrite(c, space, site, entries[index]);
        P.EmitFacts(sink, c.limits, here, P.RegisterAction(space, site, entries[index]));
        P.ApplyRegistersHalts(sink, c.limits, here, space, site, entries[index..index + 1]);
        if status != Complete {
          return;
        }
        index := index + 1;
      }
      status := Complete;
    }

    /** Copies command words out of guest memory. */
    method ReadDwords(limits: P.Limits, address: u64, count: u32) returns (r: P.Fetch)
      ensures r == P.ReadDwords(limits, memory, address, count)
    {
      if address == 0 || address % 4 != 0 || count == 0 || count > limits.maxBufferDwords {
        return P.FetchError(InvalidArgument);
      }
      var bytes := memory.Read(address, 4 * count);
      if bytes.None? {
        return P.FetchError(MemoryFault);
      }
      var words := ToWords(bytes.value);
      return P.Fetched(words);
    }

    method ApplyIndirectRegisters(c: CommandCursor, site: Site, i: Instr) returns (status: Status)
      requires i.IndirectRegisters? && c.submitted == |c.log|
      modifies this, c
      ensures c.submitted == |c.log|
      ensures var step := P.ExecuteTable(sink, c.limits, old(CoreOf(c)), site, i);
        CoreOf(c) == step.core && Took(old(c.Value()), step, status, c.Value())
    {
      hide P.ApplyRegisters, P.OpenFrame;
      if i.count == 0 {
        return Complete;
      }
      if i.count > c.limits.maxBufferDwords / 2 || i.count > c.limits.maxActions {
        c.Stop(ResourceLimit, site.address, site.opcode);
        return ResourceLimit;
      }
      var table := ReadDwords(c.limits, i.table, 2 * i.count);
      if table.FetchError? {
        c.Stop(table.status, site.address, site.opcode);
        return table.status;
      }
      status := ApplyRegisterWrites(c, i.space, site, P.TableEntries(i.table, table.words));
    }

    method ProcessWait(c: CommandCursor, site: Site, i: Instr) returns (status: Status)
      requires i.Wait? && c.submitted == |c.log|
      modifies this, c
      ensures c.submitted == |c.log|
      ensures var step := P.ExecuteWait(sink, c.limits, old(CoreOf(c)), site, i);
        CoreOf(c) == step.core && Took(old(c.Value()), step, status, c.Value())
    {
      hide P.OpenFrame, P.Emit, P.Poll, MakeAction, CompareWait;
      var function_ := i.control % 8;
      var current: u64 := 0;
      if function_ != 0 && function_ != 7 {
        if i.address == 0 || i.address % (if i.is64 then 8 else 4) != 0 || i.mask == 0 {
          c.Stop(MalformedPacket, site.address, site.opcode);
          return MalformedPacket;
        }
        var value := P.Poll(memory, i.address, i.is64);
        if value.None? {
          c.Stop(MemoryFault, site.address, site.opcode);
          return MemoryFault;
        }
        current := value.value;
      }
      var action := MakeAction(WaitMemory, site,
        [i.address, i.mask, i.reference, current, function_, if i.is64 then 64 else 32, i.control, i.poll]);
      P.EmitFacts(sink, c.limits, CoreOf(c), action);
      status := Emit(c, action);
      if status != Complete {
        return;
      }
      if !CompareWait(current, i.reference, i.mask, function_) {
        c.pending := Some(P.PendingWait(site.address, i.address, i.mask, i.reference, site.dwords, site.opcode,
                                        function_, i.is64));
        c.Stop(Blocked, site.address, site.opcode);
        return Blocked;
      }
    }

    method SnapshotFrame(c: CommandCursor, address: u64, dwords: u32) returns (status: Status)
      modifies c
      ensures var opening := P.OpenFrame(c.limits, old(c.frames), memory, address, dwords);
        c.Value() == if opening.Opened? then old(c.Value()).(frames := old(c.frames) + [opening.frame])
                     else old(c.Value()).(result := P.Result(opening.status, opening.address, opening.opcode))
      ensures status == match P.OpenFrame(c.limits, old(c.frames), memory, address, dwords)
        case Opened(_) => Complete
        case Refused(s, _, _) => s
      ensures c.submitted == old(c.submitted)
    {
      if |c.frames| > c.limits.maxIndirectDepth {
        c.Stop(ResourceLimit, address, INDIRECT_BUFFER);
        return ResourceLimit;
      }
      for index := 0 to |c.frames|
        invariant forall k :: 0 <= k < index ==> !(c.frames[k].address == address && |c.frames[k].words| == dwords)
        invariant c.Value() == old(c.Value()) && c.submitted == old(c.submitted)
      {
        if c.frames[index].address == address && |c.frames[index].words| == dwords {
          c.Stop(ResourceLimit, address, INDIRECT_BUFFER);
          return ResourceLimit;
        }
      }
      var words := ReadDwords(c.limits, address, dwords);
      if words.FetchError? {
        c.Stop(words.status, address, 0);
        return words.status;
      }
      c.frames := c.frames + [P.Frame(address, words.words, 0)];
      return Complete;
    }

    method ProcessIndirectBuffer(c: CommandCursor, site: Site, target: u64, dwords: u32, control: u32, depth: nat,
                                 branch: u64) returns (status: Status)
      requires c.submitted == |c.log|
      modifies this, c
      ensures c.submitted == |c.log|
      ensures var step := P.ExecuteCall(sink, c.limits, old(CoreOf(c)), site, target, dwords, control, depth, branch);
        CoreOf(c) == step.core && Took(old(c.Value()), step, status, c.Value())
    {
      hide P.OpenFrame;
      status := Emit(c, MakeAction(IndirectBuffer, site, [target, dwords, control, depth % TWO32, branch]));
      if status != Complete || dwords == 0 {
        return;
      }
      status := SnapshotFrame(c, target, dwords);
    }

    /** The decoder's dispatch on one packet that was already charged. */
    method ProcessPacket(c: CommandCursor, site: Site, i: Instr, depth: nat) returns (status: Status)
      requires c.submitted == |c.log|
      modifies this, c
      ensures c.submitted == |c.log|
      ensures var step := P.Execute(sink, c.limits, old(CoreOf(c)), site, i, depth);
        CoreOf(c) == step.core && Took(old(c.Value()), step, status, c.Value())
    {
      hide P.Emit, P.OpenFrame, P.ExecuteWait, P.ExecuteTable, P.ExecuteCall, P.ApplyRegisters, CompareWait;
      match i {
        case Plain(kind, values, payload) => status := Emit(c, Action(kind, site, values, payload, []));
        case SetInstances(count) =>
          userConfigRegisters := userConfigRegisters[INSTANCE_COUNT_SLOT := count];
          status := Emit(c, MakeAction(SetNumInstances, site, [count]));
        case Wait(_, _, _, _, _, _) => status := ProcessWait(c, site, i);
        case DirectRegisters(space, start, words) =>
          status := ApplyRegisterWrites(c, space, site, P.DirectEntries(start, words));
        case IndirectRegisters(_, _, _) => status := ApplyIndirectRegisters(c, site, i);
        case Call(target, dwords, control) =>
          status := ProcessIndirectBuffer(c, site, target, dwords, control, depth, 0);
        case Branch(address, mask, reference, function_, always, control, t, td, e, ed) =>
          var value := P.Poll(memory, address, true);
          if value.None? {
            c.Stop(MemoryFault, site.address, site.opcode);
            return MemoryFault;
          }
          var taken := CompareWait(value.value, reference, mask, function_);
          var dwords := if taken then td else ed;
          status := ProcessIndirectBuffer(c, site, if taken then t else e, if always || taken then dwords else 0,
                                          control, depth, if taken then 1 else 0);
        case Bad(s) =>
          c.Stop(s, site.address, site.opcode);
          status := s;
      }
    }

    /** Decodes the packet the innermost frame stands at. */
    method ProcessOnePacket(c: CommandCursor) returns (status: Status, dwords: nat)
      requires c.submitted == |c.log| && c.frames != []
      requires P.Top(c.frames).offset < |P.Top(c.frames).words| && c.processed <= c.limits.maxProcessedDwords
      modifies this, c
      ensures c.submitted == |c.log|
      ensures dwords == P.SizeAt(P.Top(old(c.frames)))
      ensures var step := P.PacketStep(sink, c.limits, P.Top(old(c.frames)), |old(c.frames)| - 1, old(CoreOf(c)));
        CoreOf(c) == step.core && Took(old(c.Value()), step, status, c.Value())
    {
      hide P.Execute, P.Emit, P.OpenFrame, Decode;
      var top := P.Top(c.frames);
      var depth := |c.frames| - 1;
      dwords := P.SizeAt(top);
      var at := top.address + 4 * top.offset;
      if at >= TWO64 {
        c.Stop(MemoryFault, top.address, 0);
        return MemoryFault, dwords;
      }
      match ParseHeader(top.words[top.offset]) {
        case Type2 =>
          if c.processed >= c.limits.maxProcessedDwords {
            c.Stop(ResourceLimit, at, 0);
            return ResourceLimit, dwords;
          }
          c.processed := c.processed + 1;
          status := Emit(c, MakeAction(Nop, Site(at, 1, 0, 0), []));
        case OtherType =>
          c.Stop(MalformedPacket, at, 0);
          status := MalformedPacket;
        case Type3(opcode, register, size) =>
          if size > |top.words| - top.offset {
            c.Stop(MalformedPacket, at, opcode);
            return MalformedPacket, dwords;
          }
          if size > c.limits.maxProcessedDwords - c.processed {
            c.Stop(ResourceLimit, at, opcode);
            return ResourceLimit, dwords;
          }
          c.processed := c.processed + size;
          status := ProcessPacket(c, Site(at, size, opcode, register),
                                  Decode(opcode, register, top.words[top.offset..top.offset + size]), depth);
      }
    }

    /** The decoding loop. */
    method ProcessFrames(c: CommandCursor) returns (status: Status)
      requires c.submitted == |c.log| && P.Bounded(c.limits, c.frames, CoreOf(c)) && c.pending.None?
      modifies this, c
      ensures c.submitted == |c.log|
      ensures var stop := P.RunFrames(sink, c.limits, old(c.frames), old(CoreOf(c)));
        CoreOf(c) == stop.core && c.terminal == old(c.terminal) && Stopped(stop, status, c.Value(), old(c.result))
    {
      hide P.PacketStep, P.SizeAt, P.OpenFrame, P.RunFrames, Took, Stopped;
      while c.frames != []
        invariant c.submitted == |c.log| && c.pending.None?
        invariant c.terminal == old(c.terminal) && c.result == old(c.result)
        invariant P.Bounded(c.limits, c.frames, CoreOf(c))
        invariant P.RunFrames(sink, c.limits, c.frames, CoreOf(c)) ==
                  P.RunFrames(sink, c.limits, old(c.frames), old(CoreOf(c)))
        decreases c.limits.maxProcessedDwords - c.processed, |c.frames|
      {
        var index := |c.frames| - 1;
        if c.frames[index].offset == |c.frames[index].words| {
          PopsFrame(sink, c.limits, c.frames, CoreOf(c));
          c.frames := c.frames[..index];
          continue;
        }
        ghost var before, core := c.Value(), CoreOf(c);
        ghost var step := P.PacketStep(sink, c.limits, P.Top(c.frames), index, core);
        var size;
        status, size := ProcessOnePacket(c);
        OneStep(sink, before, core, step, status, c.Value());
        if status != Complete {
          return;
        }
        c.frames := c.frames[index := c.frames[index].Skip(size)];
      }
      StopsEmpty(sink, c.limits, CoreOf(c), c.Value());
      status := Complete;
    }

    /** Re-polls the wait a cursor is parked at, and steps over its packet once it holds. The
        check that the packet still fits its frame is left out: it is proved never to fail. */
    method ResumePendingWait(c: CommandCursor) returns (status: Status)
      requires c.Valid()
      modifies c
      ensures c.submitted == old(c.submitted) && c.log == old(c.log) && c.processed == old(c.processed)
      ensures c.terminal == old(c.terminal)
      ensures old(c.pending).None? ==> status == Complete && c.Value() == old(c.Value())
      ensures old(c.pending).Some? ==>
        var wait := old(c.pending).value;
        match P.CheckWait(old(c.frames), memory, wait)
        case Released(frames) =>
          status == Complete && c.frames == frames && c.pending.None? && c.result == old(c.result)
        case Faulted =>
          status == MemoryFault && c.frames == old(c.frames) && c.pending == Some(wait)
          && c.result == P.Result(MemoryFault, wait.packetAddress, wait.opcode)
        case StillBlocked =>
          status == Blocked && c.frames == old(c.frames) && c.pending == Some(wait)
          && c.result == P.Result(Blocked, wait.packetAddress, wait.opcode)
        case Inconsistent => false
    {
      hide P.SizeAt, CompareWait, P.Poll;
      if c.pending.None? {
        return Complete;
      }
      var wait := c.pending.value;
      var value := P.Poll(memory, wait.address, wait.is64);
      if value.None? {
        c.Stop(MemoryFault, wait.packetAddress, wait.opcode);
        return MemoryFault;
      }
      if !CompareWait(value.value, wait.reference, wait.mask, wait.function_) {
        c.Stop(Blocked, wait.packetAddress, wait.opcode);
        return Blocked;
      }
      var last := |c.frames| - 1;
      c.frames := c.frames[last := c.frames[last].Skip(wait.packetDwords)];
      c.pending := None;
      return Complete;
    }

    method BeginCommandBuffer(address: u64, dwords: u32, limits: P.Limits) returns (c: CommandCursor)
      ensures fresh(c) && c.Valid() && c.Value() == P.Begin(limits, memory, address, dwords)
    {
      c := new CommandCursor(limits);
      BeginWellFormed(limits, memory, address, dwords);
      if address == 0 || address % 4 != 0 || dwords == 0 || limits.maxActions == 0 ||
         limits.maxBufferDwords == 0 || limits.maxProcessedDwords == 0 {
        c.Stop(InvalidArgument, address, 0);
        c.terminal := true;
        return;
      }
      var status := SnapshotFrame(c, address, dwords);
      c.terminal := status != Complete;
    }

    /** One resume of one command buffer is exactly one step of the decoder's specification. */
    method ResumeCommandBuffer(c: CommandCursor) returns (result: P.Result)
      requires c.Valid()
      modifies this, c
      ensures c.Valid() && result == c.result
      ensures (c.Value(), World()) == P.Resume(sink, old(c.Value()), old(World()))
    {
      hide P.RunFrames, P.Poll, CompareWait, P.SizeAt;
      ResumeWellFormed(sink, c.Value(), World());
      if c.terminal {
        return c.result;
      }
      c.result := P.Result(Complete, 0, 0);
      var status := ResumePendingWait(c);
      if status == Complete {
        status := ProcessFrames(c);
      }
      c.terminal := status != Blocked;
      result := c.result;
    }
  }
}
