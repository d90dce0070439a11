/** The resumable PM4 decoder: a stack of copied command frames, walked packet by packet. */
module CommandProcessor {
  import opened Words
  import opened GuestMemory
  import opened ShaderIndex
  import opened Pm4

  type RegisterMap = map<u32, u32>

  datatype Registers = Registers(context: RegisterMap, shader: RegisterMap, userConfig: RegisterMap) {
    function In(space: Space): RegisterMap {
      match space
      case Context => context
      case Shader => shader
      case UserConfig => userConfig
    }

    function Set(space: Space, offset: u32, value: u32): Registers {
      match space
      case Context => this.(context := context[offset := value])
      case Shader => this.(shader := shader[offset := value])
      case UserConfig => this.(userConfig := userConfig[offset := value])
    }
  }

  /** What every command buffer of one runtime shares. `sink` is the private state of the
      submission sink. */
  datatype World<S> = World(memory: Memory, regs: Registers, shaders: Index, sink: S)

  datatype SinkReply<S> = SinkReply(sink: S, memory: Memory, status: Status)

  /** A submission sink: it sees an action, may write guest memory, and answers. */
  type Sink<!S> = (S, Memory, Action) -> SinkReply<S>

  ghost predicate NeverBlocks<S(!new)>(sink: Sink<S>) {
    forall s, m, a :: sink(s, m, a).status != Blocked
  }

  datatype Limits = Limits(
    maxActions: u64, maxIndirectDepth: u32, maxProcessedDwords: u64, maxBufferDwords: u32)

  /** The shared world together with one cursor's own progress: the words it was charged
      for and the actions its sink accepted, oldest first. */
  datatype Core<S> = Core(world: World<S>, processed: nat, log: seq<Action>)

  datatype PendingWait = PendingWait(
    packetAddress: u64, address: u64, mask: u64, reference: u64,
    packetDwords: u32, opcode: u32, function_: u32, is64: bool)

  /** What remains to be done with the frame stack after a packet took effect. */
  datatype Effect = Advance | Hold(wait: PendingWait) | Enter(target: u64, dwords: u32)

  datatype Step<S> =
    | Go(core: Core<S>, effect: Effect)
    | Halt(core: Core<S>, status: Status, address: u64, opcode: u32)

  datatype Frame = Frame(address: u64, words: seq<u32>, offset: nat) {
    function Skip(n: nat): Frame { this.(offset := offset + n) }
  }

  // ------------------------------------------------------------------ actions

  datatype ProgramPair = ProgramPair(stage: Stage, lo: u32, hi: u32)

  const GRAPHICS_PAIRS: seq<ProgramPair> := [
    ProgramPair(Pixel, 0x008, 0x009), ProgramPair(Geometry, 0x088, 0x089), ProgramPair(Export, 0x0c8, 0x0c9),
    ProgramPair(Hull, 0x108, 0x109), ProgramPair(Local, 0x148, 0x149)]

  const COMPUTE_PAIR: ProgramPair := ProgramPair(Compute, 0x20c, 0x20d)

  function BindingOf(registers: RegisterMap, pair: ProgramPair): seq<Binding> {
    if pair.lo !in registers || pair.hi !in registers then []
    else
      var program := ProgramAddress(registers[pair.lo], registers[pair.hi]);
      if program == 0 then [] else [Unresolved(pair.stage, program)]
  }

  function BindingsOf(registers: RegisterMap, pairs: seq<ProgramPair>): seq<Binding> {
    if pairs == [] then [] else BindingOf(registers, pairs[0]) + BindingsOf(registers, pairs[1..])
  }

  function SnapshotBindings(registers: RegisterMap, kind: ActionType): seq<Binding> {
    match kind
    case Draw => BindingsOf(registers, GRAPHICS_PAIRS)
    case Dispatch => BindingOf(registers, COMPUTE_PAIR)
    case _ => []
  }

  /** Draws and dispatches leave with their shader programs already looked up. */
  function Enrich<S>(w: World<S>, action: Action): Action {
    if action.kind == Draw || action.kind == Dispatch
    then action.(bindings := ResolveAll(w.shaders, SnapshotBindings(w.regs.shader, action.kind)))
    else action
  }

  function Emit<S>(sink: Sink<S>, limits: Limits, core: Core<S>, action: Action): Step<S> {
    var site := action.site;
    if |core.log| >= limits.maxActions then Halt(core, ResourceLimit, site.address, site.opcode)
    else
      var w := core.world;
      var enriched := Enrich(w, action);
      var reply := sink(w.sink, w.memory, enriched);
      var after := core.(world := w.(sink := reply.sink, memory := reply.memory));
      if reply.status != Complete then Halt(after, reply.status, site.address, site.opcode)
      else Go(after.(log := after.log + [enriched]), Advance)
  }

  // ---------------------------------------------------------------- registers

  datatype RegisterEntry = RegisterEntry(raw: u32, value: u32, table: u64, index: u64)

  function RegisterAction(space: Space, site: Site, e: RegisterEntry): Action {
    MakeAction(RegisterWrite, site,
               [SpaceCode(space), NormalizeRegisterOffset(e.raw), e.value, e.table, e.index])
  }

  /** Each register write is submitted first and applied only if the sink accepted it. */
  function ApplyRegister<S>(sink: Sink<S>, limits: Limits, core: Core<S>, space: Space, site: Site,
                            e: RegisterEntry): Step<S>
  {
    match Emit(sink, limits, core, RegisterAction(space, site, e))
    case Halt(c, status, address, opcode) => Halt(c, status, address, opcode)
    case Go(c, _) =>
      Go(c.(world := c.world.(regs := c.world.regs.Set(space, NormalizeRegisterOffset(e.raw), e.value))), Advance)
  }

  function ApplyRegisters<S>(sink: Sink<S>, limits: Limits, core: Core<S>, space: Space, site: Site,
                             entries: seq<RegisterEntry>): Step<S>
    decreases |entries|
  {
    if entries == [] then Go(core, Advance)
    else
      match ApplyRegister(sink, limits, core, space, site, entries[0])
      case Halt(c, status, address, opcode) => Halt(c, status, address, opcode)
      case Go(c, _) => ApplyRegisters(sink, limits, c, space, site, entries[1..])
  }

  function DirectEntries(start: u32, words: seq<u32>): (r: seq<RegisterEntry>)
    ensures |r| == |words|
  {
    seq(|words|, i requires 0 <= i < |words| => RegisterEntry((start + i) % TWO32, words[i], 0, 0))
  }

  function TableEntries(table: u64, words: seq<u32>): (r: seq<RegisterEntry>)
    requires |words| % 2 == 0 && |words| < TWO32
    ensures |r| == |words| / 2
  {
    seq(|words| / 2, i requires 0 <= i < |words| / 2 => RegisterEntry(words[2 * i], words[2 * i + 1], table, i))
  }

  // ------------------------------------------------------------- guest memory

  datatype Fetch = Fetched(words: seq<u32>) | FetchError(status: Status)

  function ReadDwords(limits: Limits, m: Memory, address: u64, count: u32): (r: Fetch)
    ensures r.Fetched? ==>
      |r.words| == count && 0 < count <= limits.maxBufferDwords && m.CanRead(address, 4 * count) && address % 4 == 0
    ensures r.FetchError? ==> r.status == InvalidArgument || r.status == MemoryFault
  {
    if address == 0 || address % 4 != 0 || count == 0 || count > limits.maxBufferDwords then
      FetchError(InvalidArgument)
    else
      match m.Read(address, 4 * count)
      case None => FetchError(MemoryFault)
      case Some(b) => Fetched(DecodeWords(b))
  }

  function Poll(m: Memory, address: u64, is64: bool): Option<u64> {
    if is64 then m.Read64(address)
    else match m.Read32(address)
      case None => None
      case Some(v) => Some(v)
  }

  // -------------------------------------------------------------- one packet

  function ExecuteWait<S>(sink: Sink<S>, limits: Limits, core: Core<S>, site: Site, i: Instr): Step<S>
    requires i.Wait?
  {
    var function_ := i.control % 8;
    var polls := function_ != 0 && function_ != 7;
    if polls && (i.address == 0 || i.address % (if i.is64 then 8 else 4) != 0 || i.mask == 0) then
      Halt(core, MalformedPacket, site.address, site.opcode)
    else
      match if polls then Poll(core.world.memory, i.address, i.is64) else Some(0)
      case None => Halt(core, MemoryFault, site.address, site.opcode)
      case Some(current) =>
        var action := MakeAction(WaitMemory, site,
          [i.address, i.mask, i.reference, current, function_, if i.is64 then 64 else 32, i.control, i.poll]);
        match Emit(sink, limits, core, action)
        case Halt(c, status, address, opcode) => Halt(c, status, address, opcode)
        case Go(c, _) =>
          if CompareWait(current, i.reference, i.mask, function_) then Go(c, Advance)
          else Go(c, Hold(PendingWait(site.address, i.address, i.mask, i.reference, site.dwords, site.opcode,
                                      function_, i.is64)))
  }

  function ExecuteCall<S>(sink: Sink<S>, limits: Limits, core: Core<S>, site: Site, target: u64, dwords: u32,
                          control: u32, depth: nat, branch: u64): Step<S>
  {
    var action := MakeAction(IndirectBuffer, site, [target, dwords, control, depth % TWO32, branch]);
    match Emit(sink, limits, core, action)
    case Halt(c, status, address, opcode) => Halt(c, status, address, opcode)
    case Go(c, _) => if dwords == 0 then Go(c, Advance) else Go(c, Enter(target, dwords))
  }

  function ExecuteTable<S>(sink: Sink<S>, limits: Limits, core: Core<S>, site: Site, i: Instr): Step<S>
    requires i.IndirectRegisters?
  {
    if i.count == 0 then Go(core, Advance)
    else if i.count > limits.maxBufferDwords / 2 || i.count > limits.maxActions then
      Halt(core, ResourceLimit, site.address, site.opcode)
    else
      match ReadDwords(limits, core.world.memory, i.table, 2 * i.count)
      case FetchError(status) => Halt(core, status, site.address, site.opcode)
      case Fetched(words) => ApplyRegisters(sink, limits, core, i.space, site, TableEntries(i.table, words))
  }

  function ExecuteBranch<S>(sink: Sink<S>, limits: Limits, core: Core<S>, site: Site, i: Instr, depth: nat): Step<S>
    requires i.Branch?
  {
    match Poll(core.world.memory, i.address, true)
    case None => Halt(core, MemoryFault, site.address, site.opcode)
    case Some(value) =>
      var taken := CompareWait(value, i.reference, i.mask, i.function_);
      var dwords := if taken then i.thenDwords else i.elseDwords;
      ExecuteCall(sink, limits, core, site, if taken then i.thenTarget else i.elseTarget,
                  if i.always || taken then dwords else 0, i.control, depth, if taken then 1 else 0)
  }

  function Execute<S>(sink: Sink<S>, limits: Limits, core: Core<S>, site: Site, i: Instr, depth: nat): Step<S> {
    match i
    case Plain(kind, values, payload) => Emit(sink, limits, core, Action(kind, site, values, payload, []))
    case SetInstances(count) =>
      var w := core.world;
      var kept := w.(regs := w.regs.(userConfig := w.regs.userConfig[INSTANCE_COUNT_SLOT := count]));
      Emit(sink, limits, core.(world := kept), MakeAction(SetNumInstances, site, [count]))
    case Wait(_, _, _, _, _, _) => ExecuteWait(sink, limits, core, site, i)
    case DirectRegisters(space, start, words) =>
      ApplyRegisters(sink, limits, core, space, site, DirectEntries(start, words))
    case IndirectRegisters(_, _, _) => ExecuteTable(sink, limits, core, site, i)
    case Call(target, dwords, control) => ExecuteCall(sink, limits, core, site, target, dwords, control, depth, 0)
    case Branch(_, _, _, _, _, _, _, _, _, _) => ExecuteBranch(sink, limits, core, site, i, depth)
    case Bad(status) => Halt(core, status, site.address, site.opcode)
  }

  function SizeAt(f: Frame): (n: nat)
    requires f.offset < |f.words|
    ensures n >= 1
  {
    match ParseHeader(f.words[f.offset])
    case Type3(_, _, dwords) => dwords
    case _ => 1
  }

  function PacketStep<S>(sink: Sink<S>, limits: Limits, f: Frame, depth: nat, core: Core<S>): Step<S>
    requires f.offset < |f.words|
    requires core.processed <= limits.maxProcessedDwords
  {
    var at := f.address + 4 * f.offset;
    if at >= TWO64 then Halt(core, MemoryFault, f.address, 0)
    else
      match ParseHeader(f.words[f.offset])
      case Type2 =>
        if core.processed >= limits.maxProcessedDwords then Halt(core, ResourceLimit, at, 0)
        else Emit(sink, limits, core.(processed := core.processed + 1), MakeAction(Nop, Site(at, 1, 0, 0), []))
      case OtherType => Halt(core, MalformedPacket, at, 0)
      case Type3(opcode, register, dwords) =>
        if dwords > |f.words| - f.offset then Halt(core, MalformedPacket, at, opcode)
        else if dwords > limits.maxProcessedDwords - core.processed then Halt(core, ResourceLimit, at, opcode)
        else
          Execute(sink, limits, core.(processed := core.processed + dwords), Site(at, dwords, opcode, register),
                  Decode(opcode, register, f.words[f.offset..f.offset + dwords]), depth)
  }

  // ------------------------------------------------------------ what a step keeps

  lemma EmitFacts<S>(sink: Sink<S>, limits: Limits, core: Core<S>, action: Action)
    ensures var s := Emit(sink, limits, core, action);
      && s.core.processed == core.processed
      && (|core.log| <= limits.maxActions ==> |s.core.log| <= limits.maxActions)
      && (s.Go? ==> s.effect == Advance)
      && (s.Halt? ==> s.status != Complete)
  {
  }

  lemma {:induction false} ApplyRegistersFacts<S>(sink: Sink<S>, limits: Limits, core: Core<S>, space: Space,
                                                  site: Site, entries: seq<RegisterEntry>)
    ensures var s := ApplyRegisters(sink, limits, core, space, site, entries);
      && s.core.processed == core.processed
      && (|core.log| <= limits.maxActions ==> |s.core.log| <= limits.maxActions)
      && (s.Go? ==> s.effect == Advance)
    decreases |entries|
  {
    if entries != [] {
      var s := ApplyRegister(sink, limits, core, space, site, entries[0]);
      if s.Go? { ApplyRegistersFacts(sink, limits, s.core, space, site, entries[1..]); }
    }
  }

  lemma ExecuteFacts<S>(sink: Sink<S>, limits: Limits, core: Core<S>, site: Site, i: Instr, depth: nat)
    ensures var s := Execute(sink, limits, core, site, i, depth);
      && s.core.processed == core.processed
      && (|core.log| <= limits.maxActions ==> |s.core.log| <= limits.maxActions)
      && (s.Go? && s.effect.Hold? ==> s.effect.wait.packetDwords == site.dwords)
  {
    match i {
      case DirectRegisters(space, start, words) =>
        ApplyRegistersFacts(sink, limits, core, space, site, DirectEntries(start, words));
      case IndirectRegisters(space, table, count) =>
        if count <= limits.maxBufferDwords / 2 {
          var r := ReadDwords(limits, core.world.memory, table, 2 * count);
          if r.Fetched? {
            ApplyRegistersFacts(sink, limits, core, space, site, TableEntries(table, r.words));
          }
        }
      case _ =>
    }
  }

  /** A packet that takes effect is charged exactly its size, and a wait it raises carries
      that size. */
  lemma PacketStepFacts<S>(sink: Sink<S>, limits: Limits, f: Frame, depth: nat, core: Core<S>)
    requires f.offset < |f.words|
    requires core.processed <= limits.maxProcessedDwords
    ensures var s := PacketStep(sink, limits, f, depth, core);
      && core.processed <= s.core.processed <= limits.maxProcessedDwords
      && (|core.log| <= limits.maxActions ==> |s.core.log| <= limits.maxActions)
      && (s.Go? ==> s.core.processed == core.processed + SizeAt(f) && f.offset + SizeAt(f) <= |f.words|)
      && (s.Go? && s.effect.Hold? ==> s.effect.wait.packetDwords == SizeAt(f))
  {
    hide Decode, Execute;
    var at := f.address + 4 * f.offset;
    match ParseHeader(f.words[f.offset]) {
      case Type3(opcode, register, dwords) =>
        if at < TWO64 && dwords <= |f.words| - f.offset {
          ExecuteFacts(sink, limits, core.(processed := core.processed + dwords), Site(at, dwords, opcode, register),
                       Decode(opcode, register, f.words[f.offset..f.offset + dwords]), depth);
        }
      case _ =>
    }
  }

  lemma DecodeErrors(opcode: u32, register: u32, p: seq<u32>)
    requires |p| >= 1
    ensures var i := Decode(opcode, register, p);
      i.Bad? ==> i.status == MalformedPacket || i.status == UnsupportedPacket
  {
  }

  lemma {:induction false} ApplyRegistersHalts<S>(sink: Sink<S>, limits: Limits, core: Core<S>, space: Space,
                                                  site: Site, entries: seq<RegisterEntry>)
    ensures var s := ApplyRegisters(sink, limits, core, space, site, entries); s.Halt? ==> s.status != Complete
    decreases |entries|
  {
    if entries != [] {
      var s := ApplyRegister(sink, limits, core, space, site, entries[0]);
      if s.Go? { ApplyRegistersHalts(sink, limits, s.core, space, site, entries[1..]); }
    }
  }

  lemma ExecuteHalts<S>(sink: Sink<S>, limits: Limits, core: Core<S>, site: Site, i: Instr, depth: nat)
    requires i != Bad(Complete)
    ensures var s := Execute(sink, limits, core, site, i, depth); s.Halt? ==> s.status != Complete
  {
    match i {
      case DirectRegisters(space, start, words) =>
        ApplyRegistersHalts(sink, limits, core, space, site, DirectEntries(start, words));
      case IndirectRegisters(space, table, count) =>
        if count <= limits.maxBufferDwords / 2 {
          var r := ReadDwords(limits, core.world.memory, table, 2 * count);
          if r.Fetched? {
            ApplyRegistersHalts(sink, limits, core, space, site, TableEntries(table, r.words));
          }
        }
      case _ =>
    }
  }

  lemma PacketStepHalts<S>(sink: Sink<S>, limits: Limits, f: Frame, depth: nat, core: Core<S>)
    requires f.offset < |f.words| && core.processed <= limits.maxProcessedDwords
    ensures var s := PacketStep(sink, limits, f, depth, core); s.Halt? ==> s.status != Complete
  {
    hide Decode, Execute;
    var at := f.address + 4 * f.offset;
    match ParseHeader(f.words[f.offset]) {
      case Type3(opcode, register, dwords) =>
        if at < TWO64 && dwords <= |f.words| - f.offset {
          var p := f.words[f.offset..f.offset + dwords];
          DecodeErrors(opcode, register, p);
          ExecuteHalts(sink, limits, core.(processed := core.processed + dwords),
                       Site(at, dwords, opcode, register), Decode(opcode, register, p), depth);
        }
      case _ =>
    }
  }

  // ------------------------------------------------------------- the frame stack

  datatype Opening = Opened(frame: Frame) | Refused(status: Status, address: u64, opcode: u32)

  /** Copies a command buffer onto the stack, unless it would nest too deep or re-enter a
      buffer that is already open. */
  function OpenFrame(limits: Limits, frames: seq<Frame>, m: Memory, address: u64, dwords: u32): (r: Opening)
    ensures r.Opened? ==>
      && r.frame.address == address && |r.frame.words| == dwords && r.frame.offset == 0
      && |frames| <= limits.maxIndirectDepth
      && forall i :: 0 <= i < |frames| ==> !(frames[i].address == address && |frames[i].words| == dwords)
    ensures r.Refused? ==> r.status in {InvalidArgument, MemoryFault, ResourceLimit}
  {
    if |frames| > limits.maxIndirectDepth then Refused(ResourceLimit, address, INDIRECT_BUFFER)
    else if exists i :: 0 <= i < |frames| && frames[i].address == address && |frames[i].words| == dwords then
      Refused(ResourceLimit, address, INDIRECT_BUFFER)
    else
      match ReadDwords(limits, m, address, dwords)
      case FetchError(status) => Refused(status, address, 0)
      case Fetched(words) => Opened(Frame(address, words, 0))
  }

  predicate Bounded<S>(limits: Limits, frames: seq<Frame>, core: Core<S>) {
    && core.processed <= limits.maxProcessedDwords
    && forall i :: 0 <= i < |frames| ==> frames[i].offset <= |frames[i].words|
  }

  datatype Stop<S> =
    | Finished(core: Core<S>)
    | Parked(frames: seq<Frame>, core: Core<S>, wait: PendingWait)
    | Halted(frames: seq<Frame>, core: Core<S>, status: Status, address: u64, opcode: u32)

  function Top(frames: seq<Frame>): Frame requires frames != [] { frames[|frames| - 1] }

  function Below(frames: seq<Frame>): seq<Frame> requires frames != [] { frames[..|frames| - 1] }

  /** Runs the stack until it is empty, a wait is not satisfied, or something stops it. The
      words that may still be charged, then the number of open frames, bound the run. */
  function RunFrames<S>(sink: Sink<S>, limits: Limits, frames: seq<Frame>, core: Core<S>): Stop<S>
    requires Bounded(limits, frames, core)
    decreases limits.maxProcessedDwords - core.processed, |frames|
  {
    if frames == [] then Finished(core)
    else
      var top, below := Top(frames), Below(frames);
      if top.offset == |top.words| then RunFrames(sink, limits, below, core)
      else
        PacketStepFacts(sink, limits, top, |below|, core);
        match PacketStep(sink, limits, top, |below|, core)
        case Halt(c, status, address, opcode) => Halted(frames, c, status, address, opcode)
        case Go(c, Hold(wait)) => Parked(frames, c, wait)
        case Go(c, Advance) => RunFrames(sink, limits, below + [top.Skip(SizeAt(top))], c)
        case Go(c, Enter(target, dwords)) =>
          match OpenFrame(limits, frames, c.world.memory, target, dwords)
          case Refused(status, address, opcode) => Halted(frames, c, status, address, opcode)
          case Opened(frame) => RunFrames(sink, limits, below + [top.Skip(SizeAt(top)), frame], c)
  }

  // ------------------------------------------------------------------- cursors

  datatype Result = Result(status: Status, packetAddress: u64, opcode: u32)

  /** The position of one submitted command buffer. The submitted-action count of the
      runtime's result record is the length of `log`. */
  datatype Cursor = Cursor(
    limits: Limits, frames: seq<Frame>, pending: Option<PendingWait>,
    processed: nat, log: seq<Action>, result: Result, terminal: bool)

  function EmptyCursor(limits: Limits): Cursor {
    Cursor(limits, [], None, 0, [], Result(Complete, 0, 0), false)
  }

  function Begin(limits: Limits, m: Memory, address: u64, dwords: u32): Cursor {
    var blank := EmptyCursor(limits);
    if address == 0 || address % 4 != 0 || dwords == 0 || limits.maxActions == 0 ||
       limits.maxBufferDwords == 0 || limits.maxProcessedDwords == 0 then
      blank.(result := Result(InvalidArgument, address, 0), terminal := true)
    else
      match OpenFrame(limits, [], m, address, dwords)
      case Refused(status, at, opcode) => blank.(result := Result(status, at, opcode), terminal := true)
      case Opened(frame) => blank.(frames := [frame])
  }

  datatype WaitCheck = Released(frames: seq<Frame>) | StillBlocked | Faulted | Inconsistent

  function CheckWait(frames: seq<Frame>, m: Memory, wait: PendingWait): WaitCheck {
    match Poll(m, wait.address, wait.is64)
    case None => Faulted
    case Some(value) =>
      if !CompareWait(value, wait.reference, wait.mask, wait.function_) then StillBlocked
      else if frames == [] || Top(frames).offset + wait.packetDwords > |Top(frames).words| then Inconsistent
      else Released(Below(frames) + [Top(frames).Skip(wait.packetDwords)])
  }

  function Settle<S>(cursor: Cursor, stop: Stop<S>): Cursor {
    match stop
    case Finished(c) =>
      cursor.(frames := [], pending := None, processed := c.processed, log := c.log,
              result := Result(Complete, 0, 0), terminal := true)
    case Parked(frames, c, wait) =>
      cursor.(frames := frames, pending := Some(wait), processed := c.processed, log := c.log,
              result := Result(Blocked, wait.packetAddress, wait.opcode), terminal := false)
    case Halted(frames, c, status, address, opcode) =>
      cursor.(frames := frames, pending := None, processed := c.processed, log := c.log,
              result := Result(status, address, opcode), terminal := status != Blocked)
  }

  predicate Runnable(cursor: Cursor) {
    && cursor.processed <= cursor.limits.maxProcessedDwords
    && forall i :: 0 <= i < |cursor.frames| ==> cursor.frames[i].offset <= |cursor.frames[i].words|
  }

  /** One call of the runtime's resume entry point. */
  function Resume<S>(sink: Sink<S>, cursor: Cursor, w: World<S>): (r: (Cursor, World<S>))
    requires Runnable(cursor)
  {
    if cursor.terminal then (cursor, w)
    else
      var core := Core(w, cursor.processed, cursor.log);
      match cursor.pending
      case None =>
        var stop := RunFrames(sink, cursor.limits, cursor.frames, core);
        (Settle(cursor, stop), stop.core.world)
      case Some(wait) =>
        match CheckWait(cursor.frames, w.memory, wait)
        case Faulted =>
          (cursor.(result := Result(MemoryFault, wait.packetAddress, wait.opcode), terminal := true), w)
        case StillBlocked => (cursor.(result := Result(Blocked, wait.packetAddress, wait.opcode)), w)
        case Inconsistent =>
          (cursor.(result := Result(MalformedPacket, wait.packetAddress, wait.opcode), terminal := true), w)
        case Released(frames) =>
          var stop := RunFrames(sink, cursor.limits, frames, core);
          (Settle(cursor, stop), stop.core.world)
  }
}
