/** From registration to draw: the address written into a shader's register table is the one a
    later draw or dispatch resolves, and it leads back to the registered image. */
module ShaderPublish {
  import opened Words
  import opened GuestMemory
  import opened ShaderIndex
  import Pm4
  import P = CommandProcessor
  import opened ShaderRuntime
  import opened ShaderTransaction

  function StageOf(pair: Pair): Stage {
    match pair.lo
    case 0x008 => Pixel
    case 0x088 => Geometry
    case 0x0c8 => Export
    case 0x108 => Hull
    case 0x148 => Local
    case _ => Compute
  }

  // -------------------------------------------------------- the encoded address

  /** The register pair encodes bits 8..47 and the decoder reads the same bits back. */
  lemma ProgramRoundTrip(program: u64, previous: u32)
    requires Encodable(program)
    ensures ProgramAddress(LowRegister(program), HighRegister(previous, program)) == program
  {
    var q := program / 0x100;
    assert q / TWO32 == program / 0x100_0000_0000;
    assert HighRegister(previous, program) % 0x100 == program / 0x100_0000_0000;
  }

  // ------------------------------------------------------- the table in memory

  lemma {:induction false} ReadTableAt(m: Memory, table: u64, count: nat, i: nat)
    requires ReadTable(m, table, count).Some? && i < count
    ensures ReadTable(m, table, count).value[i].address == table + 8 * i
  {
    if i < count - 1 { ReadTableAt(m, table, count - 1, i); }
  }

  /** A word of a fetched table is the word in memory at its place. */
  lemma FetchedWord(limits: P.Limits, m: Memory, table: u64, count: u32, i: nat, word: u32)
    requires P.ReadDwords(limits, m, table, count).Fetched? && i < count
    requires m.Read(table + 4 * i, 4) == Some(Encode32(word))
    ensures P.ReadDwords(limits, m, table, count).words[i] == word
  {
    var bytes := m.Bytes(table, 4 * count);
    DecodeWordsAt(bytes, i);
    assert bytes[4 * i..4 * i + 4] == m.Bytes(table + 4 * i, 4);
    Decode32Encode32(word);
  }

  // ----------------------------------------------------- the registers it sets

  lemma {:induction false} UntouchedRegister<S>(
    sink: P.Sink<S>, limits: P.Limits, core: P.Core<S>, space: Pm4.Space, site: Pm4.Site,
    entries: seq<P.RegisterEntry>, k: u32)
    requires forall j :: 0 <= j < |entries| ==> Pm4.NormalizeRegisterOffset(entries[j].raw) != k
    ensures var s := P.ApplyRegisters(sink, limits, core, space, site, entries);
      var before, after := core.world.regs.In(space), s.core.world.regs.In(space);
      && (k in before <==> k in after) && (k in before ==> after[k] == before[k])
      && s.core.world.shaders == core.world.shaders
    decreases |entries|
  {
    if entries != [] {
      var s := P.ApplyRegister(sink, limits, core, space, site, entries[0]);
      if s.Go? { UntouchedRegister(sink, limits, s.core, space, site, entries[1..], k); }
    }
  }

  lemma {:induction false} LoadedRegister<S>(
    sink: P.Sink<S>, limits: P.Limits, core: P.Core<S>, space: Pm4.Space, site: Pm4.Site,
    entries: seq<P.RegisterEntry>, i: nat, k: u32)
    requires i < |entries| && Pm4.NormalizeRegisterOffset(entries[i].raw) == k
    requires forall j :: i < j < |entries| ==> Pm4.NormalizeRegisterOffset(entries[j].raw) != k
    ensures var s := P.ApplyRegisters(sink, limits, core, space, site, entries);
      s.Go? ==> k in s.core.world.regs.In(space) && s.core.world.regs.In(space)[k] == entries[i].value
    decreases |entries|
  {
    var s := P.ApplyRegister(sink, limits, core, space, site, entries[0]);
    if s.Go? {
      if i > 0 {
        LoadedRegister(sink, limits, s.core, space, site, entries[1..], i - 1, k);
      } else {
        UntouchedRegister(sink, limits, s.core, space, site, entries[1..], k);
      }
    }
  }

  lemma {:induction false} ShadersStay<S>(
    sink: P.Sink<S>, limits: P.Limits, core: P.Core<S>, space: Pm4.Space, site: Pm4.Site, entries: seq<P.RegisterEntry>)
    ensures P.ApplyRegisters(sink, limits, core, space, site, entries).core.world.shaders == core.world.shaders
    decreases |entries|
  {
    if entries != [] {
      var s := P.ApplyRegister(sink, limits, core, space, site, entries[0]);
      if s.Go? { ShadersStay(sink, limits, s.core, space, site, entries[1..]); }
    }
  }

  // --------------------------------------------------------------- the binding

  lemma {:induction false} BindingListed(registers: P.RegisterMap, pairs: seq<P.ProgramPair>, i: nat)
    requires i < |pairs| && |P.BindingOf(registers, pairs[i])| == 1
    ensures P.BindingOf(registers, pairs[i])[0] in P.BindingsOf(registers, pairs)
  {
    if i > 0 { BindingListed(registers, pairs[1..], i - 1); }
  }

  function KindFor(pair: Pair): Pm4.ActionType { if pair.lo == 0x20c then Pm4.Dispatch else Pm4.Draw }

  predicate StagePair(pair: Pair) { pair.lo in {0x008, 0x088, 0x0c8, 0x108, 0x148, 0x20c} && pair.hi == pair.lo + 1 }

  lemma SnapshotHasProgram(registers: P.RegisterMap, pair: Pair, program: u64)
    requires StagePair(pair) && program != 0
    requires pair.lo in registers && pair.hi in registers
    requires ProgramAddress(registers[pair.lo], registers[pair.hi]) == program
    ensures Unresolved(StageOf(pair), program) in P.SnapshotBindings(registers, KindFor(pair))
  {
    hide ProgramAddress, P.BindingsOf;
    var one := P.ProgramPair(StageOf(pair), pair.lo, pair.hi);
    assert P.BindingOf(registers, one) == [Unresolved(StageOf(pair), program)];
    if pair.lo != 0x20c {
      var i := if pair.lo == 0x008 then 0 else if pair.lo == 0x088 then 1 else if pair.lo == 0x0c8 then 2
               else if pair.lo == 0x108 then 3 else 4;
      assert P.GRAPHICS_PAIRS[i] == one;
      BindingListed(registers, P.GRAPHICS_PAIRS, i);
    }
  }

  function BoundTo(stage: Stage, r: RegisteredShader): Binding {
    Binding(stage, true, r.programAddress, r.codeAddress, r.headerAddress, r.programOffset, r.codeSize, r.binaryType)
  }

  lemma EmittedBinding<S>(sink: P.Sink<S>, limits: P.Limits, core: P.Core<S>, action: Pm4.Action, stage: Stage,
                          r: RegisteredShader)
    requires action.kind == Pm4.Draw || action.kind == Pm4.Dispatch
    requires Unresolved(stage, r.programAddress) in P.SnapshotBindings(core.world.regs.shader, action.kind)
    requires r.programAddress != 0 && LookupProgram(core.world.shaders, r.programAddress) == Some(r)
    ensures var s := P.Emit(sink, limits, core, action);
      s.Go? ==> |core.log| < |s.core.log| && BoundTo(stage, r) in s.core.log[|core.log|].bindings
  {
    hide P.SnapshotBindings, LookupProgram;
    var found := P.SnapshotBindings(core.world.regs.shader, action.kind);
    var i :| 0 <= i < |found| && found[i] == Unresolved(stage, r.programAddress);
    assert ResolveAll(core.world.shaders, found)[i] == BoundTo(stage, r);
  }

  // --------------------------------------------------------------- the theorem

  /** The register table of the header at `header` holds the pair of its own stage, at `found`. */
  ghost predicate HoldsPair(m: Memory, header: u64, code: u64, table: u64, count: nat, expected: Pair, found: Found) {
    var h := CheckHeader(m, header, code);
    && h.Done? && count == h.value.bytes[0x5c] && PairForType(h.value.binaryType) == Some(expected)
    && var pointers := PlanPointers(m, header, code, h.value);
       && pointers.Done? && table == pointers.value.pointers[2]
       && ReadTable(m, table, count).Some?
       && FindPair(ReadTable(m, table, count).value, expected) == Some(found)
  }

  lemma PatchedPair(plan: seq<Mutation>, lo: Entry, hi: Entry, code: u64, codeSize: u32)
    requires PatchProgram(plan, lo, hi, code, codeSize).Done?
    ensures lo.address + 4 < TWO64 && hi.address + 4 < TWO64
    ensures var patch := PatchProgram(plan, lo, hi, code, codeSize).value;
      patch.plan == plan + [Mutation(lo.address + 4, Encode32(LowRegister(patch.program.address))),
                            Mutation(hi.address + 4, Encode32(HighRegister(hi.value, patch.program.address)))]
  {
    hide Encode32, LowRegister, HighRegister;
  }

  /** After the plan is committed, the pair in the table holds the program's address. */
  lemma TablePatched(m: Memory, destination: u64, header: u64, code: u64, table: u64, count: nat, expected: Pair,
                     found: Found)
    requires HoldsPair(m, header, code, table, count, expected, found)
    requires Plan(m, destination, header, code).Done?
    ensures found.lo < count && found.hi < count
    ensures var planned := Plan(m, destination, header, code).value;
      var program := planned.record.programAddress;
      var m' := StoreAll(m, planned.plan);
      && Encodable(program)
      && m'.Read(table + 8 * found.lo + 4, 4) == Some(Encode32(LowRegister(program)))
      && m'.Read(table + 8 * found.hi + 4, 4) ==
         Some(Encode32(HighRegister(ReadTable(m, table, count).value[found.hi].value, program)))
  {
    hide CheckHeader, PlanPointers, PatchProgram, StoreAll, Encode32, Encode64, ReadTable, FindPair, FindFallback, AllApart;
    var planned := Plan(m, destination, header, code).value;
    PlanApart(m, destination, header, code);
    var h := CheckHeader(m, header, code).value;
    var pointers := PlanPointers(m, header, code, h).value;
    var entries := ReadTable(m, table, count).value;
    var lo, hi := entries[found.lo], entries[found.hi];
    var patch := PatchProgram(pointers.plan, lo, hi, code, h.codeSize).value;
    assert PlanProgram(pointers.plan, m, table, count, h.binaryType, code, h.codeSize) == Done(patch);
    PatchedPair(pointers.plan, lo, hi, code, h.codeSize);
    ReadTableAt(m, table, count, found.lo);
    ReadTableAt(m, table, count, found.hi);
    var k := |pointers.plan|;
    assert planned.plan[k] == patch.plan[k] && planned.plan[k + 1] == patch.plan[k + 1];
    assert Patchable(m, planned.plan[k]) && Patchable(m, planned.plan[k + 1]);
    StoreAllLands(m, planned.plan, k);
    StoreAllLands(m, planned.plan, k + 1);
  }

  /** No other entry of the loaded table writes the register of entry `at`. */
  ghost predicate OnlyEntry(words: seq<u32>, at: nat, register: u32) {
    && 2 * at + 1 < |words| && words[2 * at] == register
    && forall j :: 0 <= j < |words| / 2 && j != at ==> Pm4.NormalizeRegisterOffset(words[2 * j]) != register
  }

  lemma LoadedOne<S>(sink: P.Sink<S>, limits: P.Limits, core: P.Core<S>, site: Pm4.Site, table: u64, words: seq<u32>, at: nat, register: u32)
    requires |words| % 2 == 0 && |words| < TWO32 && register < 0x1000 && OnlyEntry(words, at, register)
    ensures var s := P.ApplyRegisters(sink, limits, core, Pm4.Shader, site, P.TableEntries(table, words));
      s.Go? ==> register in s.core.world.regs.shader && s.core.world.regs.shader[register] == words[2 * at + 1]
  {
    hide P.ApplyRegisters;
    var entries := P.TableEntries(table, words);
    assert Pm4.NormalizeRegisterOffset(entries[at].raw) == register;
    hide Pm4.NormalizeRegisterOffset;
    assert forall j :: at < j < |entries| ==> entries[j].raw == words[2 * j];
    LoadedRegister(sink, limits, core, Pm4.Shader, site, entries, at, register);
  }

  lemma LoadedPair<S>(sink: P.Sink<S>, limits: P.Limits, core: P.Core<S>, site: Pm4.Site, table: u64, words: seq<u32>,
                      expected: Pair, found: Found)
    requires |words| % 2 == 0 && |words| < TWO32 && StagePair(expected)
    requires OnlyEntry(words, found.lo, expected.lo) && OnlyEntry(words, found.hi, expected.hi)
    ensures var s := P.ApplyRegisters(sink, limits, core, Pm4.Shader, site, P.TableEntries(table, words));
      var registers := s.core.world.regs.shader;
      && s.core.world.shaders == core.world.shaders
      && (s.Go? ==> expected.lo in registers && registers[expected.lo] == words[2 * found.lo + 1])
      && (s.Go? ==> expected.hi in registers && registers[expected.hi] == words[2 * found.hi + 1])
  {
    hide P.ApplyRegisters, P.TableEntries, OnlyEntry;
    ShadersStay(sink, limits, core, Pm4.Shader, site, P.TableEntries(table, words));
    LoadedOne(sink, limits, core, site, table, words, found.lo, expected.lo);
    LoadedOne(sink, limits, core, site, table, words, found.hi, expected.hi);
  }

  lemma ExpectedPair(binaryType: byte)
    ensures var p := PairForType(binaryType); p.Some? ==> StagePair(p.value)
  {
  }

  /** Registering a shader, loading its table with an indirect-register packet and drawing (or
      dispatching) submits an action whose binding is that very record, at that very address. */
  lemma PublishedProgramResolves<S>(
    sink: P.Sink<S>, limits: P.Limits, index: Index, m: Memory, destination: u64, header: u64, code: u64, planned: Planned,
    table: u64, count: nat, expected: Pair, found: Found, core: P.Core<S>, words: seq<u32>, site: Pm4.Site, action: Pm4.Action)
    requires IndexOk(index) && code != 0 && HoldsPair(m, header, code, table, count, expected, found)
    requires Plan(m, destination, header, code) == Done(planned) && planned.record.hasProgramBinding
    requires Publish(index, planned.record) == Done(core.world.shaders)
    requires core.world.memory == StoreAll(m, planned.plan)
    requires 0 < 2 * count < TWO32 && P.ReadDwords(limits, core.world.memory, table, 2 * count) == P.Fetched(words)
    requires OnlyEntry(words, found.lo, expected.lo) && OnlyEntry(words, found.hi, expected.hi)
    requires P.ExecuteTable(sink, limits, core, site, Pm4.IndirectRegisters(Pm4.Shader, table, count)).Go?
    requires action.kind == KindFor(expected)
    ensures var loaded := P.ExecuteTable(sink, limits, core, site, Pm4.IndirectRegisters(Pm4.Shader, table, count)).core;
      var s := P.Emit(sink, limits, loaded, action);
      s.Go? ==> |loaded.log| < |s.core.log| && BoundTo(StageOf(expected), planned.record) in s.core.log[|loaded.log|].bindings
  {
    hide Plan, StoreAll, IndexOk, Publish, P.ApplyRegisters, P.SnapshotBindings, P.Emit, Encode32, LowRegister, HighRegister,
         ProgramAddress, CheckHeader, PlanPointers, ReadTable, FindPair, LookupProgram, P.ReadDwords, OnlyEntry, PlanProgram;
    var record := planned.record;
    var loaded := P.ExecuteTable(sink, limits, core, site, Pm4.IndirectRegisters(Pm4.Shader, table, count)).core;
    ExpectedPair(CheckHeader(m, header, code).value.binaryType);
    TablePatched(m, destination, header, code, table, count, expected, found);
    var previous := ReadTable(m, table, count).value[found.hi].value;
    FetchedWord(limits, core.world.memory, table, 2 * count, 2 * found.lo + 1, LowRegister(record.programAddress));
    FetchedWord(limits, core.world.memory, table, 2 * count, 2 * found.hi + 1, HighRegister(previous, record.programAddress));
    LoadedPair(sink, limits, core, site, table, words, expected, found);
    ProgramRoundTrip(record.programAddress, previous);
    SnapshotHasProgram(loaded.world.regs.shader, expected, record.programAddress);
    PublishKeepsIndex(index, record);
    EmittedBinding(sink, limits, loaded, action, StageOf(expected), record);
  }
}
