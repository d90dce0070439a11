/** What executing a packet does to guest memory, registers and the frame stack, from the
    arguments it was built with. */
module PacketEffects {
  import opened Arith
  import opened Words
  import opened GuestMemory
  import opened Pm4
  import opened CommandProcessor
  import opened PacketBuilder
  import opened PacketRoundTrip
  import opened MemorySink
  import opened WaitMeaning
  import C = ControlWords
  import ShaderPublish

  // ------------------------------------------------------------------ memory

  ghost function Answer<S>(sink: Sink<S>, core: Core<S>, a: Action): SinkReply<S> {
    sink(core.world.sink, core.world.memory, Enrich(core.world, a))
  }

  /** A submission goes through exactly when the log has room and the sink accepts it; either
      way the sink's own effects stay, and only an accepted action is logged. */
  lemma EmitExactly<S>(sink: Sink<S>, limits: Limits, core: Core<S>, a: Action)
    ensures var s, r := Emit(sink, limits, core, a), Answer(sink, core, a);
      if |core.log| >= limits.maxActions then s == Halt(core, ResourceLimit, a.site.address, a.site.opcode)
      else
        && (s.Go? <==> r.status == Complete) && (s.Halt? ==> s.status == r.status)
        && s.core.world == World(r.memory, core.world.regs, core.world.shaders, r.sink)
        && s.core.log == core.log + if s.Go? then [Enrich(core.world, a)] else []
  {
  }

  /** The memory a built release leaves behind, and the timestamp after it. */
  lemma ReleaseEffect<S(!new)>(down: Sink<S>, limits: Limits, core: Core<Timed<S>>, at: u64, args: seq<u64>, depth: nat)
    requires KeepsMemory(down) && ReleaseOk(args)
    ensures var s := Execute(AsSink(down), limits, core, Site(at, 8, NOP, RELEASE_MEMORY_REGISTER), DenoteRelease(args), depth);
      var before, selection, address := core.world, Arg32(args, 6), Down(Arg(args, 5), 4);
      var writes := selection in {1, 2, 3} && Arg32(args, 10) != 4 && address != 0;
      s.Go? ==>
        && selection != 5 && s.effect == Advance
        && s.core.world.memory ==
           (if !writes then before.memory
            else if selection == 1 then before.memory.Store(address, Encode32(Arg32(args, 7)))
            else if selection == 2 then before.memory.Store(address, Encode64(Arg(args, 7)))
            else before.memory.Store(address, Encode64(before.sink.timestamp)))
        && s.core.world.sink.timestamp ==
           (if writes && selection == 3 then (before.sink.timestamp + 1) % TWO64 else before.sink.timestamp)
        && s.core.world.regs == before.regs
  {
    hide ReleaseTarget, DenoteRelease, Encode32, Encode64, Down;
    ReleaseStores(args, at);
    var i := DenoteRelease(args);
    assert i.Plain? && i.kind == ReleaseMemory by { DenotedRelease(args); }
    EmitExactly(AsSink(down), limits, core, Action(i.kind, Site(at, 8, NOP, RELEASE_MEMORY_REGISTER), i.values, i.payload, []));
  }

  lemma DenotedRelease(args: seq<u64>)
    requires ReleaseOk(args)
    ensures DenoteRelease(args).Plain? && DenoteRelease(args).kind == ReleaseMemory
  {
    hide Down, ReleaseAddress, ReleaseValue, ReleaseControl, ReleaseSelect;
  }

  /** So a cursor parked on the released word goes on exactly when the released value meets its
      condition. */
  lemma ReleaseDecidesWait<S(!new)>(down: Sink<S>, limits: Limits, core: Core<Timed<S>>, at: u64, args: seq<u64>,
                                    depth: nat, frames: seq<Frame>, wait: PendingWait)
    requires KeepsMemory(down) && ReleaseOk(args) && Arg32(args, 6) == 2 && Arg32(args, 10) != 4
    requires wait.address == Down(Arg(args, 5), 4) != 0 && wait.is64 && core.world.memory.CanRead(wait.address, 8)
    requires frames != [] && Top(frames).offset + wait.packetDwords <= |Top(frames).words|
    ensures var s := Execute(AsSink(down), limits, core, Site(at, 8, NOP, RELEASE_MEMORY_REGISTER), DenoteRelease(args), depth);
      s.Go? ==> forall w :: Masks(w, Arg(args, 7), wait.mask) ==>
        (CheckWait(frames, s.core.world.memory, wait).Released? <==> WaitMeaning.Meets(wait.function_, w, wait.reference))
  {
    hide Execute, DenoteRelease, CheckWait, Masks, WaitMeaning.Meets, Encode64, Decode64, Down;
    ReleaseEffect(down, limits, core, at, args, depth);
    var s := Execute(AsSink(down), limits, core, Site(at, 8, NOP, RELEASE_MEMORY_REGISTER), DenoteRelease(args), depth);
    if s.Go? {
      ReadStored(core.world.memory, wait.address, Encode64(Arg(args, 7)));
      Decode64Encode64(Arg(args, 7));
      forall w | Masks(w, Arg(args, 7), wait.mask)
        ensures CheckWait(frames, s.core.world.memory, wait).Released? <==> WaitMeaning.Meets(wait.function_, w, wait.reference)
      {
        ParkedUntilMet(frames, s.core.world.memory, wait, Arg(args, 7), w);
      }
    }
  }

  /** The memory a built write leaves behind. */
  lemma WriteEffect<S(!new)>(down: Sink<S>, limits: Limits, core: Core<Timed<S>>, at: u64, dwords: u32, m: Memory,
                             args: seq<u64>, depth: nat)
    requires KeepsMemory(down) && Arg32(args, 5) <= 0x3ffd
    requires Arg32(args, 5) > 0 ==> m.CanRead(Arg(args, 4), 4 * Arg32(args, 5))
    ensures var s := Execute(AsSink(down), limits, core, Site(at, dwords, NOP, WRITE_DATA_REGISTER), DenoteWriteData(m, args), depth);
      var before, address, data := core.world.memory, Down(Arg(args, 3), 4), WritePayload(m, args);
      s.Go? ==>
        && s.effect == Advance && s.core.world.regs == core.world.regs
        && s.core.world.memory ==
           (if Arg32(args, 1) % 0x100 !in {1, 2, 4, 5} || data == [] then before
            else if Arg32(args, 6) % 0x100 == 0 then before.Store(address, EncodeWords(data))
            else before.Store(address, EncodeWords(data[|data| - 1..])))
  {
    hide WriteTarget, Down, EncodeWords, WritePayload, WriteControl;
    C.WriteStores(m, args, at, dwords);
    var i := DenoteWriteData(m, args);
    EmitExactly(AsSink(down), limits, core, Action(i.kind, Site(at, dwords, NOP, WRITE_DATA_REGISTER), i.values, i.payload, []));
  }

  // --------------------------------------------------------------- registers

  /** The register that word `i` of a run of registers goes to. */
  function Destination(start: u32, i: nat): u32 { NormalizeRegisterOffset((start + i) % TWO32) }

  /** Consecutive words go to consecutive registers, selector bits dropped; where two of them
      meet, the later one stays. */
  lemma RegistersEffect<S>(sink: Sink<S>, limits: Limits, core: Core<S>, site: Site, space: Space, start: u32,
                           words: seq<u32>, depth: nat, i: nat)
    requires i < |words| && forall j: nat :: i < j < |words| ==> Destination(start, j) != Destination(start, i)
    ensures var s, k := Execute(sink, limits, core, site, DirectRegisters(space, start, words), depth), Destination(start, i);
      s.Go? ==> s.effect == Advance && k in s.core.world.regs.In(space) && s.core.world.regs.In(space)[k] == words[i]
  {
    hide ApplyRegisters, NormalizeRegisterOffset;
    var entries := DirectEntries(start, words);
    forall j | i < j < |entries| ensures NormalizeRegisterOffset(entries[j].raw) != Destination(start, i) {
      assert Destination(start, j) != Destination(start, i);
    }
    ShaderPublish.LoadedRegister(sink, limits, core, space, site, entries, i, Destination(start, i));
    ApplyRegistersFacts(sink, limits, core, space, site, entries);
  }

  function Logged(space: Space, site: Site, entries: seq<RegisterEntry>): (r: seq<Action>)
    ensures |r| == |entries|
    ensures forall i :: 0 <= i < |r| ==> r[i] == RegisterAction(space, site, entries[i])
  {
    seq(|entries|, i requires 0 <= i < |entries| => RegisterAction(space, site, entries[i]))
  }

  lemma {:induction false} AppliedLog<S>(sink: Sink<S>, limits: Limits, core: Core<S>, space: Space, site: Site,
                                         entries: seq<RegisterEntry>)
    ensures var s := ApplyRegisters(sink, limits, core, space, site, entries);
      s.Go? ==> s.core.log == core.log + Logged(space, site, entries)
    decreases |entries|
  {
    if entries == [] {
      assert core.log + Logged(space, site, []) == core.log;
    } else {
      var s := ApplyRegister(sink, limits, core, space, site, entries[0]);
      if s.Go? {
        AppliedLog(sink, limits, s.core, space, site, entries[1..]);
        var one := RegisterAction(space, site, entries[0]);
        assert [one] + Logged(space, site, entries[1..]) == Logged(space, site, entries);
        assert (core.log + [one]) + Logged(space, site, entries[1..]) == core.log + ([one] + Logged(space, site, entries[1..]));
      }
    }
  }

  /** Each register a table sets is submitted by itself: register file, offset, value, the table
      it came from and its place there; a direct write names no table. */
  lemma RegistersLogged<S>(sink: Sink<S>, limits: Limits, core: Core<S>, space: Space, site: Site, table: u64, start: u32,
                           words: seq<u32>, i: nat)
    requires |words| % 2 == 0 && |words| < TWO32 && i < |words| / 2
    ensures var s := ApplyRegisters(sink, limits, core, space, site, TableEntries(table, words));
      s.Go? ==>
        && |s.core.log| == |core.log| + |words| / 2
        && s.core.log[|core.log| + i] == MakeAction(
             RegisterWrite, site, [SpaceCode(space), NormalizeRegisterOffset(words[2 * i]), words[2 * i + 1], table, i])
    ensures var s := ApplyRegisters(sink, limits, core, space, site, DirectEntries(start, words));
      s.Go? ==>
        && |s.core.log| == |core.log| + |words|
        && s.core.log[|core.log| + i] == MakeAction(
             RegisterWrite, site, [SpaceCode(space), Destination(start, i), words[i], 0, 0])
  {
    hide ApplyRegisters, NormalizeRegisterOffset;
    AppliedLog(sink, limits, core, space, site, TableEntries(table, words));
    AppliedLog(sink, limits, core, space, site, DirectEntries(start, words));
  }

  /** The offset a register write goes to has bits 28 to 30 cleared and all others kept. */
  lemma OffsetBits(raw: u32, k: nat)
    ensures Bit(NormalizeRegisterOffset(raw), k) == if 28 <= k <= 30 then 0 else Bit(raw, k)
  {
    hide Bit;
    PowerWords();
    var top, low := raw / Pow2(31), raw % Pow2(28);
    BitOfRemainder(raw, 28, k);
    if top == 0 {
      TopClear(raw, k);
    } else {
      assert top == 1;
      BitOfRemainder(raw, 28, 31);
      BitSet(low, 31, k);
      TopSet(raw, k);
    }
  }

  lemma PowerWords()
    ensures Pow2(28) == 0x1000_0000 && Pow2(31) == 0x8000_0000 && Pow2(32) == 0x1_0000_0000
  {
    Pow2Words();
    assert Pow2(32) == 2 * Pow2(31);
    assert Pow2(31) == 2 * Pow2(30) && Pow2(30) == 2 * Pow2(29) && Pow2(29) == 2 * Pow2(28);
  }

  lemma TopClear(raw: u32, k: nat)
    requires raw / Pow2(31) == 0
    ensures k >= 31 ==> Bit(raw, k) == 0
  {
    PowerWords();
    if k >= 31 { BitOfSmall(raw, 31, k); }
  }

  lemma TopSet(raw: u32, k: nat)
    requires raw / Pow2(31) == 1
    ensures k >= 31 ==> Bit(raw, k) == if k == 31 then 1 else 0
  {
    PowerWords();
    if k > 31 { BitOfSmall(raw, 32, k); }
  }

  // --------------------------------------------------------- headers and calls

  /** A word of type 2 is a packet of its own: charged one word, submitted as a no-operation.
      Types 0 and 1 are malformed. */
  lemma HeaderTypes<S>(sink: Sink<S>, limits: Limits, f: Frame, depth: nat, core: Core<S>)
    requires f.offset < |f.words| && core.processed <= limits.maxProcessedDwords && f.address + 4 * f.offset < TWO64
    ensures var word, at := f.words[f.offset], f.address + 4 * f.offset;
      var s := PacketStep(sink, limits, f, depth, core);
      && (word < 0x8000_0000 ==> s == Halt(core, MalformedPacket, at, 0))
      && (0x8000_0000 <= word < 0xc000_0000 ==>
            && SizeAt(f) == 1
            && (core.processed == limits.maxProcessedDwords ==> s == Halt(core, ResourceLimit, at, 0))
            && (core.processed < limits.maxProcessedDwords ==>
                  s == Emit(sink, limits, core.(processed := core.processed + 1), MakeAction(Nop, Site(at, 1, 0, 0), []))))
  {
    hide Emit, Execute, Decode;
  }

  /** A call is submitted with its target, size, control word and depth, and then enters the
      target, unless that is empty. */
  lemma CallEnters<S>(sink: Sink<S>, limits: Limits, core: Core<S>, site: Site, target: u64, dwords: u32, control: u32,
                      depth: nat)
    ensures var s := Execute(sink, limits, core, site, Call(target, dwords, control), depth);
      s.Go? ==>
        && s.effect == (if dwords == 0 then Advance else Enter(target, dwords))
        && s.core.log == core.log + [MakeAction(IndirectBuffer, site, [target, dwords, control, depth % TWO32, 0])]
  {
  }
}
