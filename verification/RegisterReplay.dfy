/** Register state as a replay of the submitted actions, over every run of a runtime that
    interleaves any number of command buffers. */
module RegisterReplay {
  import opened Words
  import opened GuestMemory
  import ShaderIndex
  import opened Pm4
  import opened CommandProcessor
  import opened DecoderBounds

  function SpaceOf(code: u64): Space {
    if code == 0 then Context else if code == 1 then Shader else UserConfig
  }

  /** Last write wins. */
  function ReplayOne(regs: Registers, a: Action): Registers {
    if a.kind == RegisterWrite && |a.values| >= 3 && a.values[1] < TWO32 && a.values[2] < TWO32 then
      regs.Set(SpaceOf(a.values[0]), a.values[1], a.values[2])
    else if a.kind == SetNumInstances && |a.values| >= 1 && a.values[0] < TWO32 then
      regs.Set(UserConfig, INSTANCE_COUNT_SLOT, a.values[0])
    else regs
  }

  function Replay(regs: Registers, log: seq<Action>): Registers {
    if log == [] then regs else ReplayOne(Replay(regs, log[..|log| - 1]), log[|log| - 1])
  }

  function ReadRegister(regs: Registers, space: Space, raw: u32): Option<u32> {
    var offset := NormalizeRegisterOffset(raw);
    if offset in regs.In(space) then Some(regs.In(space)[offset]) else None
  }

  /** Equal everywhere but in the slot that keeps the instance count. */
  ghost predicate SameButInstances(a: Registers, b: Registers) {
    && a.context == b.context
    && a.shader == b.shader
    && forall k: u32 :: k != INSTANCE_COUNT_SLOT ==>
         (k in a.userConfig <==> k in b.userConfig) && (k in a.userConfig ==> a.userConfig[k] == b.userConfig[k])
  }

  lemma {:induction false} ReplayConcat(regs: Registers, a: seq<Action>, b: seq<Action>)
    ensures Replay(regs, a + b) == Replay(Replay(regs, a), b)
    decreases |b|
  {
    if b == [] {
      assert a + b == a;
    } else {
      assert (a + b)[..|a + b| - 1] == a + b[..|b| - 1];
      ReplayConcat(regs, a, b[..|b| - 1]);
    }
  }

  lemma ReplayOneMonotone(a: Registers, b: Registers, x: Action)
    requires SameButInstances(a, b)
    ensures SameButInstances(ReplayOne(a, x), ReplayOne(b, x))
  {
  }

  /** What a stretch of decoding from `before` to `after` did to the registers: it replayed the
      actions it submitted, and then the instance count it was `refused`, if any. */
  ghost predicate Exactly<S>(before: Core<S>, after: Core<S>, refused: seq<Action>) {
    && before.log <= after.log
    && after.world.regs == Replay(before.world.regs, after.log[|before.log|..] + refused)
  }

  ghost predicate Replays<S>(before: Core<S>, after: Core<S>) { Exactly(before, after, []) }

  lemma ReplaysTransitive<S>(a: Core<S>, b: Core<S>, c: Core<S>, refused: seq<Action>)
    requires Replays(a, b) && Exactly(b, c, refused)
    ensures Exactly(a, c, refused)
  {
    var first, rest := b.log[|a.log|..], c.log[|b.log|..];
    assert c.log[|a.log|..] == first + rest;
    assert first + [] == first;
    assert first + (rest + refused) == first + rest + refused;
    ReplayConcat(a.world.regs, first, rest + refused);
  }

  lemma NothingReplays<S>(core: Core<S>)
    ensures Replays(core, core)
  {
    assert core.log[|core.log|..] + [] == [];
  }

  /** An emission that is not about registers leaves them alone. */
  lemma EmitReplays<S>(sink: Sink<S>, limits: Limits, core: Core<S>, action: Action)
    ensures var s := Emit(sink, limits, core, action);
      && s.core.world.regs == core.world.regs
      && (action.kind != RegisterWrite && action.kind != SetNumInstances ==> Replays(core, s.core))
  {
    var s := Emit(sink, limits, core, action);
    var added := s.core.log[|core.log|..];
    assert added + [] == added;
    if s.Go? {
      assert added == [Enrich(core.world, action)];
      assert added[..0] == [];
    } else {
      assert added == [];
    }
  }

  lemma ApplyRegisterReplays<S>(sink: Sink<S>, limits: Limits, core: Core<S>, space: Space, site: Site,
                                e: RegisterEntry)
    ensures Replays(core, ApplyRegister(sink, limits, core, space, site, e).core)
  {
    var s := ApplyRegister(sink, limits, core, space, site, e);
    var added := s.core.log[|core.log|..];
    assert added + [] == added;
    if s.Go? {
      assert added == [RegisterAction(space, site, e)];
      assert added[..0] == [];
      assert SpaceOf(SpaceCode(space)) == space;
    } else {
      assert added == [];
    }
  }

  lemma {:induction false} ApplyRegistersReplays<S>(sink: Sink<S>, limits: Limits, core: Core<S>, space: Space,
                                                    site: Site, entries: seq<RegisterEntry>)
    ensures Replays(core, ApplyRegisters(sink, limits, core, space, site, entries).core)
    decreases |entries|
  {
    if entries == [] {
      NothingReplays(core);
    } else {
      var s := ApplyRegister(sink, limits, core, space, site, entries[0]);
      ApplyRegisterReplays(sink, limits, core, space, site, entries[0]);
      if s.Go? {
        ApplyRegistersReplays(sink, limits, s.core, space, site, entries[1..]);
        ReplaysTransitive(core, s.core, ApplyRegisters(sink, limits, s.core, space, site, entries[1..]).core, []);
      }
    }
  }

  // ------------------------------------------------------- the instance count

  function Slot(regs: Registers): Option<u32> {
    if INSTANCE_COUNT_SLOT in regs.userConfig then Some(regs.userConfig[INSTANCE_COUNT_SLOT]) else None
  }

  function CountAction(site: Site, count: u32): Action { MakeAction(SetNumInstances, site, [count]) }

  /** There is room for the action and the sink takes it. */
  predicate Accepts<S>(sink: Sink<S>, limits: Limits, core: Core<S>, a: Action) {
    |core.log| < limits.maxActions && sink(core.world.sink, core.world.memory, a).status == Complete
  }

  /** The instance count that an instruction stores although its action is refused. */
  function RefusedBy<S>(sink: Sink<S>, limits: Limits, core: Core<S>, site: Site, i: Instr): seq<Action> {
    if i.SetInstances? && !Accepts(sink, limits, core, CountAction(site, i.count)) then [CountAction(site, i.count)] else []
  }

  lemma CountStep<S>(sink: Sink<S>, limits: Limits, core: Core<S>, site: Site, count: u32, depth: nat)
    ensures var s := Execute(sink, limits, core, site, SetInstances(count), depth); var a := CountAction(site, count);
      && (s.Go? <==> Accepts(sink, limits, core, a))
      && s.core.world.regs == core.world.regs.Set(UserConfig, INSTANCE_COUNT_SLOT, count)
      && s.core.log == core.log + if s.Go? then [a] else []
  {
  }

  lemma ReplayCount(regs: Registers, site: Site, count: u32)
    ensures Replay(regs, [CountAction(site, count)]) == regs.Set(UserConfig, INSTANCE_COUNT_SLOT, count)
    ensures regs == regs.Set(UserConfig, INSTANCE_COUNT_SLOT, count) <==> Slot(regs) == Some(count)
  {
    var a := CountAction(site, count);
    assert [a][..0] == [];
    var new': RegisterMap := regs.userConfig[INSTANCE_COUNT_SLOT := count];
    assert regs.userConfig == new' <==> Slot(regs) == Some(count);
  }

  /** The instance count is stored before its action is offered to the sink: the registers are
      a replay of the accepted actions exactly when the action is accepted or changes nothing. */
  lemma InstanceCountReplays<S>(sink: Sink<S>, limits: Limits, core: Core<S>, site: Site, count: u32, depth: nat)
    ensures var s := Execute(sink, limits, core, site, SetInstances(count), depth);
      && Exactly(core, s.core, RefusedBy(sink, limits, core, site, SetInstances(count)))
      && (Replays(core, s.core) <==>
            Accepts(sink, limits, core, CountAction(site, count)) || Slot(core.world.regs) == Some(count))
      && (s.Go? <==> Accepts(sink, limits, core, CountAction(site, count)))
  {
    hide Execute, Accepts, Slot, Replay, CountAction;
    var s, a := Execute(sink, limits, core, site, SetInstances(count), depth), CountAction(site, count);
    CountStep(sink, limits, core, site, count, depth);
    ReplayCount(core.world.regs, site, count);
    ReplayNothing(core.world.regs);
    var added := s.core.log[|core.log|..];
    assert added == if s.Go? then [a] else [];
    assert added + [] == added;
    assert [a] + [] == [a] && [] + [a] == [a];
  }

  lemma ReplayNothing(regs: Registers)
    ensures Replay(regs, []) == regs
  {
  }

  predicate KeepsRegisters(kind: ActionType) { kind != RegisterWrite && kind != SetNumInstances }

  lemma DecodeKeepsRegisters(opcode: u32, register: u32, p: seq<u32>)
    requires |p| >= 1
    ensures var i := Decode(opcode, register, p);
      && (i.Plain? ==> KeepsRegisters(i.kind))
      && (i.SetInstances? ==> opcode == NUM_INSTANCES)
  {
  }

  lemma WaitReplays<S>(sink: Sink<S>, limits: Limits, core: Core<S>, site: Site, i: Instr)
    requires i.Wait?
    ensures Replays(core, ExecuteWait(sink, limits, core, site, i).core)
  {
    hide Emit, Replays, CompareWait, Poll;
    NothingReplays(core);
    var function_ := i.control % 8;
    var polled := if function_ != 0 && function_ != 7 then Poll(core.world.memory, i.address, i.is64) else Some(0);
    if polled.Some? {
      EmitReplays(sink, limits, core, MakeAction(WaitMemory, site,
        [i.address, i.mask, i.reference, polled.value, function_, if i.is64 then 64 else 32, i.control, i.poll]));
    }
  }

  lemma CallReplays<S>(sink: Sink<S>, limits: Limits, core: Core<S>, site: Site, target: u64, dwords: u32,
                       control: u32, depth: nat, branch: u64)
    ensures Replays(core, ExecuteCall(sink, limits, core, site, target, dwords, control, depth, branch).core)
  {
    hide Emit, Replays;
    EmitReplays(sink, limits, core,
                MakeAction(IndirectBuffer, site, [target, dwords, control, depth % TWO32, branch]));
  }

  lemma BranchReplays<S>(sink: Sink<S>, limits: Limits, core: Core<S>, site: Site, i: Instr, depth: nat)
    requires i.Branch?
    ensures Replays(core, ExecuteBranch(sink, limits, core, site, i, depth).core)
  {
    hide ExecuteCall, Replays, CompareWait, Poll;
    NothingReplays(core);
    var polled := Poll(core.world.memory, i.address, true);
    if polled.Some? {
      var taken := CompareWait(polled.value, i.reference, i.mask, i.function_);
      var dwords := if taken then i.thenDwords else i.elseDwords;
      CallReplays(sink, limits, core, site, if taken then i.thenTarget else i.elseTarget,
                  if i.always || taken then dwords else 0, i.control, depth, if taken then 1 else 0);
    }
  }

  lemma TableReplays<S>(sink: Sink<S>, limits: Limits, core: Core<S>, site: Site, i: Instr)
    requires i.IndirectRegisters?
    ensures Replays(core, ExecuteTable(sink, limits, core, site, i).core)
  {
    hide ApplyRegisters, Replays;
    NothingReplays(core);
    if i.count <= limits.maxBufferDwords / 2 {
      var r := ReadDwords(limits, core.world.memory, i.table, 2 * i.count);
      if r.Fetched? {
        ApplyRegistersReplays(sink, limits, core, i.space, site, TableEntries(i.table, r.words));
      }
    }
  }

  lemma ExecuteReplays<S>(sink: Sink<S>, limits: Limits, core: Core<S>, site: Site, i: Instr, depth: nat)
    requires i.Plain? ==> KeepsRegisters(i.kind)
    ensures var s := Execute(sink, limits, core, site, i, depth);
      && Exactly(core, s.core, RefusedBy(sink, limits, core, site, i))
      && (s.Go? ==> RefusedBy(sink, limits, core, site, i) == [])
  {
    hide Emit, ExecuteWait, ExecuteCall, ExecuteBranch, ExecuteTable, ApplyRegisters, Replay;
    match i {
      case Plain(kind, values, payload) => EmitReplays(sink, limits, core, Action(kind, site, values, payload, []));
      case SetInstances(count) => InstanceCountReplays(sink, limits, core, site, count, depth);
      case Wait(_, _, _, _, _, _) => WaitReplays(sink, limits, core, site, i);
      case DirectRegisters(space, start, words) =>
        ApplyRegistersReplays(sink, limits, core, space, site, DirectEntries(start, words));
      case IndirectRegisters(_, _, _) => TableReplays(sink, limits, core, site, i);
      case Call(target, dwords, control) => CallReplays(sink, limits, core, site, target, dwords, control, depth, 0);
      case Branch(_, _, _, _, _, _, _, _, _, _) => BranchReplays(sink, limits, core, site, i, depth);
      case Bad(_) => NothingReplays(core);
    }
  }

  /** The same for the packet that `f` stands at, if it is whole and within the budget. */
  function RefusedAt<S>(sink: Sink<S>, limits: Limits, f: Frame, core: Core<S>): seq<Action>
    requires f.offset < |f.words| && core.processed <= limits.maxProcessedDwords
  {
    var at := f.address + 4 * f.offset;
    match ParseHeader(f.words[f.offset])
    case Type3(opcode, register, dwords) =>
      if at >= TWO64 || dwords > |f.words| - f.offset || dwords > limits.maxProcessedDwords - core.processed then []
      else RefusedBy(sink, limits, core, Site(at, dwords, opcode, register), Decode(opcode, register, f.words[f.offset..f.offset + dwords]))
    case _ => []
  }

  lemma PacketStepReplays<S>(sink: Sink<S>, limits: Limits, f: Frame, depth: nat, core: Core<S>)
    requires f.offset < |f.words| && core.processed <= limits.maxProcessedDwords
    ensures var s := PacketStep(sink, limits, f, depth, core);
      && Exactly(core, s.core, RefusedAt(sink, limits, f, core))
      && (s.Go? ==> RefusedAt(sink, limits, f, core) == [])
  {
    hide Decode, Execute, Replay, ReplayOne, RefusedBy;
    var at := f.address + 4 * f.offset;
    NothingReplays(core);
    match ParseHeader(f.words[f.offset]) {
      case Type2 =>
        if at < TWO64 {
          EmitReplays(sink, limits, core.(processed := core.processed + 1), MakeAction(Nop, Site(at, 1, 0, 0), []));
        }
      case OtherType =>
      case Type3(opcode, register, dwords) =>
        if at < TWO64 && dwords <= |f.words| - f.offset && dwords <= limits.maxProcessedDwords - core.processed {
          var p := f.words[f.offset..f.offset + dwords];
          var charged := core.(processed := core.processed + dwords);
          DecodeKeepsRegisters(opcode, register, p);
          ExecuteReplays(sink, limits, charged, Site(at, dwords, opcode, register), Decode(opcode, register, p), depth);
          ChargeIsNothing(sink, limits, core, charged, Site(at, dwords, opcode, register), Decode(opcode, register, p));
        }
    }
  }

  lemma ChargeIsNothing<S>(sink: Sink<S>, limits: Limits, core: Core<S>, charged: Core<S>, site: Site, i: Instr)
    requires charged == core.(processed := charged.processed)
    ensures RefusedBy(sink, limits, charged, site, i) == RefusedBy(sink, limits, core, site, i)
  {
  }

  /** The instance count that ends a stretch of decoding by being refused. */
  function Refusal<S>(sink: Sink<S>, limits: Limits, frames: seq<Frame>, core: Core<S>): seq<Action>
    requires Bounded(limits, frames, core)
    decreases limits.maxProcessedDwords - core.processed, |frames|
  {
    if frames == [] then []
    else
      var top, below := Top(frames), Below(frames);
      if top.offset == |top.words| then Refusal(sink, limits, below, core)
      else
        PacketStepFacts(sink, limits, top, |below|, core);
        match PacketStep(sink, limits, top, |below|, core)
        case Halt(_, _, _, _) => RefusedAt(sink, limits, top, core)
        case Go(_, Hold(_)) => []
        case Go(c, Advance) => Refusal(sink, limits, below + [top.Skip(SizeAt(top))], c)
        case Go(c, Enter(target, dwords)) =>
          match OpenFrame(limits, frames, c.world.memory, target, dwords)
          case Refused(_, _, _) => []
          case Opened(frame) => Refusal(sink, limits, below + [top.Skip(SizeAt(top)), frame], c)
  }

  lemma {:induction false} RunFramesReplays<S>(sink: Sink<S>, limits: Limits, frames: seq<Frame>, core: Core<S>)
    requires Bounded(limits, frames, core)
    ensures Exactly(core, RunFrames(sink, limits, frames, core).core, Refusal(sink, limits, frames, core))
    decreases limits.maxProcessedDwords - core.processed, |frames|
  {
    hide PacketStep, SizeAt, Exactly, OpenFrame;
    NothingReplays(core);
    if frames != [] {
      var top, below := Top(frames), Below(frames);
      if top.offset == |top.words| {
        RunFramesReplays(sink, limits, below, core);
      } else {
        PacketStepFacts(sink, limits, top, |below|, core);
        PacketStepReplays(sink, limits, top, |below|, core);
        var s := PacketStep(sink, limits, top, |below|, core);
        if s.Go? && s.effect.Advance? {
          var next := below + [top.Skip(SizeAt(top))];
          RunFramesReplays(sink, limits, next, s.core);
          ReplaysTransitive(core, s.core, RunFrames(sink, limits, next, s.core).core, Refusal(sink, limits, next, s.core));
        } else if s.Go? && s.effect.Enter? {
          var o := OpenFrame(limits, frames, s.core.world.memory, s.effect.target, s.effect.dwords);
          if o.Opened? {
            var next := below + [top.Skip(SizeAt(top)), o.frame];
            RunFramesReplays(sink, limits, next, s.core);
            ReplaysTransitive(core, s.core, RunFrames(sink, limits, next, s.core).core, Refusal(sink, limits, next, s.core));
          }
        }
      }
    }
  }

  function ResumeRefusal<S>(sink: Sink<S>, c: Cursor, w: World<S>): seq<Action>
    requires Runnable(c)
  {
    var core := Core(w, c.processed, c.log);
    if c.terminal then []
    else match c.pending
      case None => Refusal(sink, c.limits, c.frames, core)
      case Some(wait) =>
        var check := CheckWait(c.frames, w.memory, wait);
        if check.Released? then Refusal(sink, c.limits, check.frames, core) else []
  }

  /** Resuming a cursor changes registers exactly as the actions it adds say, and as the
      instance count it is refused says. */
  lemma ResumeReplays<S>(sink: Sink<S>, c: Cursor, w: World<S>)
    requires WellFormed(c)
    ensures var (c', w') := Resume(sink, c, w);
      && c.log <= c'.log
      && w'.regs == Replay(w.regs, c'.log[|c.log|..] + ResumeRefusal(sink, c, w))
  {
    hide RunFrames, Refusal, Replay, SizeAt;
    ResumeWellFormed(sink, c, w);
    var core := Core(w, c.processed, c.log);
    NothingReplays(core);
    if !c.terminal {
      match c.pending {
        case None => RunFramesReplays(sink, c.limits, c.frames, core);
        case Some(wait) =>
          var check := CheckWait(c.frames, w.memory, wait);
          if check.Released? { RunFramesReplays(sink, c.limits, check.frames, core); }
      }
    }
  }

  // ------------------------------------------------------------- every run

  /** Anything that can happen to a runtime: a buffer is submitted, some cursor is resumed, or
      guest memory and the shader registry change behind the decoder's back. */
  datatype Event =
    | Submit(limits: Limits, address: u64, dwords: u32)
    | ResumeAt(which: nat)
    | Outside(memory: Memory, shaders: ShaderIndex.Index)

  datatype Runtime<S> = Runtime(cursors: seq<Cursor>, world: World<S>, trace: seq<Action>)

  ghost predicate AllWellFormed<S>(r: Runtime<S>) {
    forall k :: 0 <= k < |r.cursors| ==> WellFormed(r.cursors[k])
  }

  ghost function Happen<S>(sink: Sink<S>, r: Runtime<S>, e: Event): (n: Runtime<S>)
    requires AllWellFormed(r)
    ensures AllWellFormed(n)
  {
    match e
    case Submit(limits, address, dwords) =>
      BeginWellFormed(limits, r.world.memory, address, dwords);
      r.(cursors := r.cursors + [Begin(limits, r.world.memory, address, dwords)])
    case ResumeAt(which) =>
      if which >= |r.cursors| then r
      else
        ResumeWellFormed(sink, r.cursors[which], r.world);
        var (c, w) := Resume(sink, r.cursors[which], r.world);
        Runtime(r.cursors[which := c], w, r.trace + c.log[|r.cursors[which].log|..])
    case Outside(memory, shaders) => r.(world := r.world.(memory := memory, shaders := shaders))
  }

  ghost function HappenAll<S>(sink: Sink<S>, r: Runtime<S>, events: seq<Event>): (n: Runtime<S>)
    requires AllWellFormed(r)
    ensures AllWellFormed(n)
  {
    if events == [] then r
    else Happen(sink, HappenAll(sink, r, events[..|events| - 1]), events[|events| - 1])
  }

  /** An action that reached the register file: accepted, or an instance count that was refused. */
  datatype Offer = Offer(action: Action, accepted: bool)

  function Mark(log: seq<Action>, accepted: bool): seq<Offer>
  {
    seq(|log|, i requires 0 <= i < |log| => Offer(log[i], accepted))
  }

  function All(offers: seq<Offer>): (r: seq<Action>)
    ensures |r| == |offers|
  {
    seq(|offers|, i requires 0 <= i < |offers| => offers[i].action)
  }

  function Accepted(offers: seq<Offer>): seq<Action> {
    if offers == [] then []
    else Accepted(offers[..|offers| - 1]) + if offers[|offers| - 1].accepted then [offers[|offers| - 1].action] else []
  }

  lemma {:induction false} AcceptedConcat(a: seq<Offer>, b: seq<Offer>)
    ensures Accepted(a + b) == Accepted(a) + Accepted(b)
    decreases |b|
  {
    if b == [] {
      assert a + b == a;
    } else {
      assert (a + b)[..|a + b| - 1] == a + b[..|b| - 1];
      AcceptedConcat(a, b[..|b| - 1]);
    }
  }

  lemma {:induction false} AcceptedMark(log: seq<Action>, accepted: bool)
    ensures Accepted(Mark(log, accepted)) == if accepted then log else []
    decreases |log|
  {
    if log != [] {
      assert Mark(log, accepted)[..|log| - 1] == Mark(log[..|log| - 1], accepted);
      AcceptedMark(log[..|log| - 1], accepted);
    }
  }

  /** What one event offers to the register file. */
  ghost function OffersOf<S>(sink: Sink<S>, r: Runtime<S>, e: Event): seq<Offer>
    requires AllWellFormed(r)
  {
    if e.ResumeAt? && e.which < |r.cursors| then
      var c := r.cursors[e.which];
      ResumeWellFormed(sink, c, r.world);
      Mark(Resume(sink, c, r.world).0.log[|c.log|..], true) + Mark(ResumeRefusal(sink, c, r.world), false)
    else []
  }

  ghost function Offers<S>(sink: Sink<S>, r: Runtime<S>, events: seq<Event>): seq<Offer>
    requires AllWellFormed(r)
  {
    if events == [] then []
    else
      var before := events[..|events| - 1];
      Offers(sink, r, before) + OffersOf(sink, HappenAll(sink, r, before), events[|events| - 1])
  }

  /** The registers are the replay of all offers, the trace is the accepted ones. */
  ghost predicate Explains<S>(regs: Registers, offers: seq<Offer>, r: Runtime<S>) {
    r.world.regs == Replay(regs, All(offers)) && r.trace == Accepted(offers)
  }

  lemma MarksJoin(offers: seq<Offer>, added: seq<Action>, refused: seq<Action>)
    ensures var new' := Mark(added, true) + Mark(refused, false);
      All(offers + new') == All(offers) + (added + refused) && Accepted(offers + new') == Accepted(offers) + added
  {
    hide Accepted;
    var new' := Mark(added, true) + Mark(refused, false);
    AcceptedConcat(offers, new');
    AcceptedConcat(Mark(added, true), Mark(refused, false));
    AcceptedMark(added, true);
    AcceptedMark(refused, false);
  }

  lemma ExplainsStep<S>(sink: Sink<S>, regs: Registers, offers: seq<Offer>, r: Runtime<S>, e: Event)
    requires AllWellFormed(r) && Explains(regs, offers, r)
    ensures Explains(regs, offers + OffersOf(sink, r, e), Happen(sink, r, e))
  {
    hide Resume, Begin, ResumeRefusal, Replay, Accepted, All, Mark;
    if e.ResumeAt? && e.which < |r.cursors| {
      var c := r.cursors[e.which];
      ResumeWellFormed(sink, c, r.world);
      ResumeReplays(sink, c, r.world);
      var added, refused := Resume(sink, c, r.world).0.log[|c.log|..], ResumeRefusal(sink, c, r.world);
      MarksJoin(offers, added, refused);
      ReplayConcat(regs, All(offers), added + refused);
    } else {
      assert offers + [] == offers;
    }
  }

  /** After any run the whole register file, the instance-count slot included, is the replay of
      the submitted actions together with the instance counts that were refused. */
  lemma {:induction false} OffersExplain<S>(sink: Sink<S>, w: World<S>, events: seq<Event>)
    ensures Explains(w.regs, Offers(sink, Runtime([], w, []), events), HappenAll(sink, Runtime([], w, []), events))
  {
    hide Happen, OffersOf, Explains;
    if events == [] {
      StartExplains(w);
    } else {
      var before := events[..|events| - 1];
      OffersExplain(sink, w, before);
      ExplainsStep(sink, w.regs, Offers(sink, Runtime([], w, []), before), HappenAll(sink, Runtime([], w, []), before), events[|events| - 1]);
    }
  }

  lemma StartExplains<S>(w: World<S>)
    ensures Explains(w.regs, [], Runtime([], w, []))
  {
  }

  // ------------------------------------------------------------- the slot

  /** The last action of a log that writes the slot, or what was there before. */
  function LastCount(start: Option<u32>, log: seq<Action>): Option<u32> {
    if log == [] then start
    else
      var one := Slot(ReplayOne(Registers(map[], map[], map[]), log[|log| - 1]));
      if one.Some? then one else LastCount(start, log[..|log| - 1])
  }

  lemma {:induction false} SlotIsLastCount(regs: Registers, log: seq<Action>)
    ensures Slot(Replay(regs, log)) == LastCount(Slot(regs), log)
  {
    if log != [] {
      SlotIsLastCount(regs, log[..|log| - 1]);
    }
  }

  /** Refused offers are instance counts, so they touch nothing but the slot. */
  ghost predicate OnlyCountsRefused(offers: seq<Offer>) {
    forall i :: 0 <= i < |offers| && !offers[i].accepted ==> offers[i].action.kind == SetNumInstances
  }

  lemma {:induction false} RefusalsAreCounts<S>(sink: Sink<S>, limits: Limits, frames: seq<Frame>, core: Core<S>)
    requires Bounded(limits, frames, core)
    ensures var x := Refusal(sink, limits, frames, core); x == [] || (|x| == 1 && x[0].kind == SetNumInstances)
    decreases limits.maxProcessedDwords - core.processed, |frames|
  {
    hide PacketStep, SizeAt, OpenFrame, Decode, ParseHeader;
    if frames != [] {
      var top, below := Top(frames), Below(frames);
      if top.offset == |top.words| {
        RefusalsAreCounts(sink, limits, below, core);
      } else {
        PacketStepFacts(sink, limits, top, |below|, core);
        var s := PacketStep(sink, limits, top, |below|, core);
        if s.Go? && s.effect.Advance? {
          RefusalsAreCounts(sink, limits, below + [top.Skip(SizeAt(top))], s.core);
        } else if s.Go? && s.effect.Enter? {
          var o := OpenFrame(limits, frames, s.core.world.memory, s.effect.target, s.effect.dwords);
          if o.Opened? {
            RefusalsAreCounts(sink, limits, below + [top.Skip(SizeAt(top)), o.frame], s.core);
          }
        }
      }
    }
  }

  lemma ResumeRefusesCounts<S>(sink: Sink<S>, c: Cursor, w: World<S>)
    requires WellFormed(c)
    ensures Runnable(c)
    ensures var x := ResumeRefusal(sink, c, w); x == [] || (|x| == 1 && x[0].kind == SetNumInstances)
  {
    hide Refusal, SizeAt;
    ResumeWellFormed(sink, c, w);
    var core := Core(w, c.processed, c.log);
    if !c.terminal {
      match c.pending {
        case None => RefusalsAreCounts(sink, c.limits, c.frames, core);
        case Some(wait) =>
          var check := CheckWait(c.frames, w.memory, wait);
          if check.Released? { RefusalsAreCounts(sink, c.limits, check.frames, core); }
      }
    }
  }

  lemma {:induction false} OffersRefuseCounts<S>(sink: Sink<S>, r: Runtime<S>, events: seq<Event>)
    requires AllWellFormed(r)
    ensures OnlyCountsRefused(Offers(sink, r, events))
  {
    hide Resume, ResumeRefusal, Happen;
    if events != [] {
      var before := events[..|events| - 1];
      OffersRefuseCounts(sink, r, before);
      var b, e := HappenAll(sink, r, before), events[|events| - 1];
      if e.ResumeAt? && e.which < |b.cursors| {
        ResumeRefusesCounts(sink, b.cursors[e.which], b.world);
      }
    }
  }

  lemma {:induction false} RefusalsTouchTheSlot(regs: Registers, offers: seq<Offer>)
    requires OnlyCountsRefused(offers)
    ensures SameButInstances(Replay(regs, All(offers)), Replay(regs, Accepted(offers)))
    decreases |offers|
  {
    hide ReplayOne;
    if offers != [] {
      var fewer, last := offers[..|offers| - 1], offers[|offers| - 1];
      RefusalsTouchTheSlot(regs, fewer);
      var a, b := Replay(regs, All(fewer)), Replay(regs, Accepted(fewer));
      assert All(offers)[..|offers| - 1] == All(fewer);
      ReplayOneMonotone(a, b, last.action);
      if last.accepted {
        assert Accepted(offers)[..|Accepted(offers)| - 1] == Accepted(fewer);
      } else {
        assert Accepted(offers) == Accepted(fewer);
        CountTouchesTheSlot(a, last.action);
      }
    }
  }

  lemma CountTouchesTheSlot(regs: Registers, a: Action)
    requires a.kind == SetNumInstances
    ensures SameButInstances(ReplayOne(regs, a), regs)
  {
  }

  /** After any run, from any registers, reading a register at any raw offset gives what the
      submitted actions last wrote there, and two of the three maps are exactly that replay. */
  lemma RegistersAreTheTrace<S>(sink: Sink<S>, w: World<S>, events: seq<Event>)
    ensures var r := HappenAll(sink, Runtime([], w, []), events);
      && SameButInstances(r.world.regs, Replay(w.regs, r.trace))
      && forall space: Space, raw: u32 ::
           ReadRegister(r.world.regs, space, raw) == ReadRegister(Replay(w.regs, r.trace), space, raw)
  {
    hide HappenAll, Offers;
    OffersExplain(sink, w, events);
    OffersRefuseCounts(sink, Runtime([], w, []), events);
    RefusalsTouchTheSlot(w.regs, Offers(sink, Runtime([], w, []), events));
  }

  /** The registers, slot included, are the replay of the trace exactly when the last instance
      count offered in the run was also the last one accepted; so they are whenever none was
      refused. */
  lemma SlotIsTheTrace<S>(sink: Sink<S>, w: World<S>, events: seq<Event>)
    ensures var r, offers := HappenAll(sink, Runtime([], w, []), events), Offers(sink, Runtime([], w, []), events);
      && (r.world.regs == Replay(w.regs, r.trace) <==>
            LastCount(Slot(w.regs), All(offers)) == LastCount(Slot(w.regs), Accepted(offers)))
      && ((forall i :: 0 <= i < |offers| ==> offers[i].accepted) ==> r.world.regs == Replay(w.regs, r.trace))
  {
    hide HappenAll, Offers, Replay, LastCount;
    var r, offers := HappenAll(sink, Runtime([], w, []), events), Offers(sink, Runtime([], w, []), events);
    OffersExplain(sink, w, events);
    RegistersAreTheTrace(sink, w, events);
    SlotIsLastCount(w.regs, All(offers));
    SlotIsLastCount(w.regs, Accepted(offers));
    SameSlot(r.world.regs, Replay(w.regs, r.trace));
    if forall i :: 0 <= i < |offers| ==> offers[i].accepted {
      AllAccepted(offers);
    }
  }

  lemma SameSlot(a: Registers, b: Registers)
    requires SameButInstances(a, b)
    ensures a == b <==> Slot(a) == Slot(b)
  {
    if Slot(a) == Slot(b) {
      assert a.userConfig == b.userConfig;
    }
  }

  lemma {:induction false} AllAccepted(offers: seq<Offer>)
    requires forall i :: 0 <= i < |offers| ==> offers[i].accepted
    ensures Accepted(offers) == All(offers)
    decreases |offers|
  {
    if offers != [] {
      AllAccepted(offers[..|offers| - 1]);
      assert All(offers) == All(offers[..|offers| - 1]) + [offers[|offers| - 1].action];
    }
  }

  // ------------------------------------------------ a refused count, as a run

  const COUNT_PACKET: seq<u32> := [0xc000_2f00, 7]

  const COUNT_AREA: set<u64> := {4, 5, 6, 7, 8, 9, 10, 11}

  function BlankArea(): Memory { Memory(map a | a in COUNT_AREA :: Cell(0, true, true)) }

  function CountMemory(): Memory { BlankArea().Store(4, EncodeWords(COUNT_PACKET)) }

  function CountWorld(): World<()> {
    World(CountMemory(), Registers(map[], map[], map[]), ShaderIndex.Index(map[], map[]), ())
  }

  /** A buffer with one instance-count packet, submitted to a sink that refuses it, leaves the
      count in the registers and nothing in the trace. */
  lemma RefusedInstanceCountStays()
    ensures var refuse: Sink<()> := (s, m, a) => SinkReply(s, m, ResourceLimit);
      var r := HappenAll(refuse, Runtime([], CountWorld(), []), [Submit(Limits(1, 0, 2, 2), 4, 2), ResumeAt(0)]);
      r.trace == [] && Slot(r.world.regs) == Some(7) && r.world.regs != Replay(CountWorld().regs, r.trace)
  {
    hide Begin, CountMemory, Resume, WellFormed, Replay;
    var refuse: Sink<()> := (s, m, a) => SinkReply(s, m, ResourceLimit);
    var limits, w := Limits(1, 0, 2, 2), CountWorld();
    var start := Runtime([], w, []);
    var events := [Submit(limits, 4, 2), ResumeAt(0)];
    assert events[..1] == [Submit(limits, 4, 2)] && events[..1][..0] == [];
    CountBegins(limits);
    var c := EmptyCursor(limits).(frames := [Frame(4, COUNT_PACKET, 0)]);
    assert HappenAll(refuse, start, events[..1]) == Runtime([c], w, []);
    CountHalts(refuse, limits, c, w);
    ReplayNothing(w.regs);
  }

  lemma CountRead()
    ensures CountMemory().Read(4, 8) == Some(EncodeWords(COUNT_PACKET))
  {
    hide EncodeWords, Memory.Store;
    assert BlankArea().CanRead(4, 8);
    assert |EncodeWords(COUNT_PACKET)| == 8;
    ReadStored(BlankArea(), 4, EncodeWords(COUNT_PACKET));
  }

  lemma CountBegins(limits: Limits)
    requires limits == Limits(1, 0, 2, 2)
    ensures Begin(limits, CountMemory(), 4, 2) == EmptyCursor(limits).(frames := [Frame(4, COUNT_PACKET, 0)])
  {
    hide EncodeWords, DecodeWords, CountMemory, Memory.CanRead, Memory.Read;
    CountRead();
    DecodeWordsEncodeWords(COUNT_PACKET);
  }

  lemma CountPacket(sink: Sink<()>, limits: Limits, core: Core<()>)
    requires limits == Limits(1, 0, 2, 2) && core.processed == 0
    ensures PacketStep(sink, limits, Frame(4, COUNT_PACKET, 0), 0, core) ==
      Execute(sink, limits, core.(processed := 2), Site(4, 2, NUM_INSTANCES, 0), SetInstances(7), 0)
  {
    hide Execute;
    assert ParseHeader(0xc000_2f00) == Type3(NUM_INSTANCES, 0, 2);
    assert COUNT_PACKET[0..2] == COUNT_PACKET;
    assert Decode(NUM_INSTANCES, 0, COUNT_PACKET) == SetInstances(7);
  }

  lemma CountHalts(sink: Sink<()>, limits: Limits, c: Cursor, w: World<()>)
    requires limits == Limits(1, 0, 2, 2) && c == EmptyCursor(limits).(frames := [Frame(4, COUNT_PACKET, 0)])
    requires forall s, m, a :: sink(s, m, a) == SinkReply(s, m, ResourceLimit)
    ensures Runnable(c)
    ensures var (c', w') := Resume(sink, c, w);
      c'.log == [] && w'.regs == w.regs.Set(UserConfig, INSTANCE_COUNT_SLOT, 7)
  {
    hide PacketStep, Execute, SizeAt;
    var core := Core(w, 0, []);
    CountPacket(sink, limits, core);
    CountStep(sink, limits, core.(processed := 2), Site(4, 2, NUM_INSTANCES, 0), 7, 0);
  }
}
