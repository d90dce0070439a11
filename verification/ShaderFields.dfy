/** What a registered record says about the image in guest memory: each field by its place in
    the header as it stood before the call, and exactly which headers are refused. */
module ShaderFields {
  import opened Words
  import opened GuestMemory
  import opened ShaderIndex
  import opened ShaderRuntime
  import opened ShaderTransaction
  import opened ShaderRelocation
  import opened ShaderRegistry
  import P = CommandProcessor
  import Pm4

  // ------------------------------------------------------------ header fields

  ghost function Word32(m: Memory, address: int): u32
    requires m.CanRead(address, 4)
  {
    m.Read32(address).value
  }

  ghost function Byte8(m: Memory, address: int): byte
    requires m.CanRead(address, 1)
  {
    m.Bytes(address, 1)[0]
  }

  /** A self-relative pointer, made absolute; zero stays zero. */
  ghost function Pointer(m: Memory, address: int): int
    requires m.CanRead(address, 8)
  {
    var relative := m.Read64(address).value;
    if relative == 0 then 0 else address + relative
  }

  lemma HeaderWord(m: Memory, header: u64, offset: nat)
    requires m.CanRead(header, HEADER_BYTES) && offset + 4 <= HEADER_BYTES
    ensures m.CanRead(header + offset, 4) && Word(m.Bytes(header, HEADER_BYTES), offset) == Word32(m, header + offset)
  {
    assert m.Bytes(header, HEADER_BYTES)[offset..offset + 4] == m.Bytes(header + offset, 4);
  }

  lemma HeaderPointer(m: Memory, header: u64, offset: nat)
    requires m.CanRead(header, HEADER_BYTES) && offset + 8 <= HEADER_BYTES
    ensures m.CanRead(header + offset, 8)
    ensures m.Read64(header + offset) == Some(Quad(m.Bytes(header, HEADER_BYTES), offset))
  {
    assert m.Bytes(header, HEADER_BYTES)[offset..offset + 8] == m.Bytes(header + offset, 8);
  }

  /** A header is accepted exactly when its magic and version are right, its code size is a
      positive multiple of four of at most 16 MiB, the code can be read, its type is at most 8
      and it declares at most 32 input semantics. */
  lemma HeaderExactly(m: Memory, header: u64, code: u64)
    ensures var r := CheckHeader(m, header, code);
      if !m.CanRead(header, 0x60) then r == Fail(MemoryFault)
      else
        var size := Word32(m, header + 0x44);
        if Word32(m, header) != 0x34333231 || Word32(m, header + 0x04) != 0x18 || size == 0 || size > 0x100_0000 ||
           size % 4 != 0 then r == Fail(InvalidArgument)
        else if !m.CanRead(code, size) then r == Fail(MemoryFault)
        else if Byte8(m, header + 0x5a) > 8 || Word32(m, header + 0x50) > 32 then r == Fail(InvalidArgument)
        else r == Done(Header(m.Bytes(header, 0x60), size, Byte8(m, header + 0x5a), Word32(m, header + 0x50)))
  {
    hide Word, Word32;
    if m.CanRead(header, HEADER_BYTES) {
      HeaderWord(m, header, 0x00);
      HeaderWord(m, header, 0x04);
      HeaderWord(m, header, 0x44);
      HeaderWord(m, header, 0x50);
    }
  }

  // ------------------------------------------------------------ record fields

  /** The record of an image, field by field. */
  ghost predicate Describes(record: RegisteredShader, m: Memory, header: u64, code: u64) {
    && m.CanRead(header, 0x60)
    && record.codeAddress == code && record.headerAddress == header
    && record.codeSize == Word32(m, header + 0x44)
    && record.inputSemanticsCount == Word32(m, header + 0x50)
    && record.binaryType == Byte8(m, header + 0x5a)
    && record.userDataAddress == Pointer(m, header + 0x08)
    && record.inputSemanticsAddress == Pointer(m, header + 0x30)
  }

  lemma HeaderRelocated(m: Memory, header: u64, h: Header, i: nat)
    requires m.CanRead(header, HEADER_BYTES) && h.bytes == m.Bytes(header, HEADER_BYTES) && i < 6
    requires Fits(h.bytes, HEADER_POINTERS) && Relocate([], header, h.bytes, HEADER_POINTERS).Done?
    ensures m.CanRead(header + HEADER_POINTERS[i], 8)
    ensures Relocate([], header, h.bytes, HEADER_POINTERS).value.pointers[i] == Pointer(m, header + HEADER_POINTERS[i])
  {
    hide Relocate, Quad;
    RelocateHolds([], header, h.bytes, HEADER_POINTERS, i);
    HeaderPointer(m, header, HEADER_POINTERS[i]);
  }

  /** The record's program is what the register table at header offset 0x20 yields. */
  ghost predicate ProgramFromTable(before: seq<Mutation>, m: Memory, header: u64, record: RegisteredShader)
    requires m.CanRead(header, 0x60)
  {
    && 0 <= Pointer(m, header + 0x20) < TWO64
    && var patch := PlanProgram(before, m, Pointer(m, header + 0x20), Byte8(m, header + 0x5c), record.binaryType,
                                record.codeAddress, record.codeSize);
    && patch.Done?
    && patch.value.program == Program(record.programAddress, record.programOffset, record.hasProgramBinding)
  }

  /** Every planned record describes its image; the semantics it announces can be read; and its
      program comes from the register table the header names, with as many entries as it says. */
  lemma PlannedRecord(m: Memory, destination: u64, header: u64, code: u64)
    requires Plan(m, destination, header, code).Done?
    ensures var record := Plan(m, destination, header, code).value.record;
      && Describes(record, m, header, code)
      && (record.inputSemanticsCount != 0 ==>
            record.inputSemanticsAddress != 0 && m.CanRead(record.inputSemanticsAddress, 4 * record.inputSemanticsCount))
      && exists before :: ProgramFromTable(before, m, header, record)
  {
    hide CheckHeader, PlanProgram, Relocate, AddMutation, Patchable, Encode64, Word32, Pointer, PlanUserData;
    HeaderExactly(m, header, code);
    var h := CheckHeader(m, header, code).value;
    var pointers := PlanPointers(m, header, code, h).value;
    HeaderRelocated(m, header, h, 0);
    HeaderRelocated(m, header, h, 2);
    HeaderRelocated(m, header, h, 4);
    var patch := PlanProgram(pointers.plan, m, pointers.pointers[2], h.bytes[0x5c], h.binaryType, code, h.codeSize);
    assert ProgramFromTable(pointers.plan, m, header, Plan(m, destination, header, code).value.record);
  }

  // ------------------------------------------------------------- after commit

  ghost predicate Absolute(m: Memory, after: Memory, address: int) {
    m.CanRead(address, 8) && (Pointer(m, address) != 0 ==> after.Read64(address) == Some(Pointer(m, address)))
  }

  ghost predicate HeaderAbsolute(m: Memory, after: Memory, header: u64) {
    && Absolute(m, after, header + 0x08) && Absolute(m, after, header + 0x18) && Absolute(m, after, header + 0x20)
    && Absolute(m, after, header + 0x28) && Absolute(m, after, header + 0x30) && Absolute(m, after, header + 0x38)
  }

  ghost predicate UserAbsolute(m: Memory, after: Memory, user: int) {
    && Absolute(m, after, user) && Absolute(m, after, user + 0x08) && Absolute(m, after, user + 0x10)
    && Absolute(m, after, user + 0x18) && Absolute(m, after, user + 0x20)
  }

  /** After commit the six header pointers are absolute, and so are the five of the user data. */
  lemma PointersAbsolute(m: Memory, destination: u64, header: u64, code: u64, h: Header, planned: Planned)
    requires Plan(m, destination, header, code) == Done(planned) && CheckHeader(m, header, code) == Done(h)
    ensures var after := StoreAll(m, planned.plan);
      && HeaderAbsolute(m, after, header)
      && m.CanRead(header + 0x08, 8)
      && (Pointer(m, header + 0x08) != 0 ==> UserAbsolute(m, after, Pointer(m, header + 0x08)))
  {
    hide Plan, CheckHeader, Memory.Read64, StoreAll, HeaderAbsolute, UserAbsolute, Relocated;
    PlanRelocates(m, destination, header, code, h, planned);
    HeaderExactly(m, header, code);
    HeaderIsAbsolute(m, StoreAll(m, planned.plan), header, h.bytes);
    HeaderPointer(m, header, 0x08);
    var user := Pointer(m, header + 0x08);
    if user != 0 { UserIsAbsolute(m, StoreAll(m, planned.plan), user); }
  }

  lemma HeaderIsAbsolute(m: Memory, after: Memory, header: u64, bytes: seq<byte>)
    requires m.CanRead(header, HEADER_BYTES) && bytes == m.Bytes(header, HEADER_BYTES)
    requires Fits(bytes, HEADER_POINTERS) && Relocated(after, header, bytes, HEADER_POINTERS)
    ensures HeaderAbsolute(m, after, header)
  {
    hide Absolute, Relocated;
    forall i | 0 <= i < 6 ensures Absolute(m, after, header + HEADER_POINTERS[i]) {
      FieldAbsolute(m, after, header, bytes, HEADER_POINTERS, i);
    }
    assert Absolute(m, after, header + HEADER_POINTERS[0]) && Absolute(m, after, header + HEADER_POINTERS[1]);
    assert Absolute(m, after, header + HEADER_POINTERS[2]) && Absolute(m, after, header + HEADER_POINTERS[3]);
    assert Absolute(m, after, header + HEADER_POINTERS[4]) && Absolute(m, after, header + HEADER_POINTERS[5]);
  }

  lemma FieldAbsolute(m: Memory, after: Memory, base: u64, bytes: seq<byte>, offsets: seq<nat>, i: nat)
    requires m.CanRead(base, |bytes|) && bytes == m.Bytes(base, |bytes|) && i < |offsets|
    requires Fits(bytes, offsets) && Relocated(after, base, bytes, offsets)
    ensures Absolute(m, after, base + offsets[i])
  {
    assert FieldRelocated(after, base, bytes, offsets[i]);
    assert bytes[offsets[i]..offsets[i] + 8] == m.Bytes(base + offsets[i], 8);
  }

  lemma UserIsAbsolute(m: Memory, after: Memory, user: int)
    requires UserRelocated(m, after, user)
    ensures UserAbsolute(m, after, user)
  {
    hide Absolute, Relocated;
    var bytes := m.Bytes(user, USER_DATA_BYTES);
    forall i | 0 <= i < 5 ensures Absolute(m, after, user + USER_DATA_POINTERS[i]) {
      FieldAbsolute(m, after, user, bytes, USER_DATA_POINTERS, i);
    }
    assert Absolute(m, after, user + USER_DATA_POINTERS[0]) && Absolute(m, after, user + USER_DATA_POINTERS[1]);
    assert Absolute(m, after, user + USER_DATA_POINTERS[2]) && Absolute(m, after, user + USER_DATA_POINTERS[3]);
    assert Absolute(m, after, user + USER_DATA_POINTERS[4]);
  }

  // -------------------------------------------------------------- publication

  /** Another image is bound to an address. */
  ghost predicate Taken(x: Index, code: u64, address: u64) {
    exists c :: c != code && c in x.records && x.records[c].hasProgramBinding && x.records[c].programAddress == address
  }

  /** A record is refused exactly when another image's program starts where its code does, or
      when its own program starts where another image's program or code does. */
  lemma PublishExactly(x: Index, record: RegisteredShader)
    requires IndexOk(x)
    ensures var code, program := record.codeAddress, record.programAddress;
      Publish(x, record).Fail? <==>
        || Taken(x, code, code)
        || (record.hasProgramBinding && (Taken(x, code, program) || (program != code && program in x.records)))
  {
    hide Encodable;
    TakenIndexed(x, record.codeAddress, record.codeAddress);
    TakenIndexed(x, record.codeAddress, record.programAddress);
  }

  lemma TakenIndexed(x: Index, code: u64, address: u64)
    requires IndexOk(x)
    ensures Taken(x, code, address) <==> address in x.programs && x.programs[address] != code
  {
    hide Encodable;
    if address in x.programs && x.programs[address] != code {
      var c := x.programs[address];
      assert c in x.records && x.records[c].hasProgramBinding && x.records[c].programAddress == address;
    }
  }

  // ------------------------------------------------------------------- stages

  /** The low program register of each stage; the high one follows it. */
  function BaseOf(stage: Stage): u32 {
    match stage
    case Pixel => 0x008
    case Geometry => 0x088
    case Export => 0x0c8
    case Hull => 0x108
    case Local => 0x148
    case Compute => 0x20c
  }

  /** The stage a binary type is bound at; type 8 is bound nowhere. */
  lemma TypeStages(binaryType: byte)
    ensures PairForType(binaryType) ==
      if binaryType > 7 then None
      else
        var base := BaseOf([Compute, Pixel, Export, Local, Geometry, Hull, Geometry, Hull][binaryType]);
        Some(Pair(base, base + 1))
  {
  }

  /** Both registers of a stage are set and hold the address, which is not zero. */
  ghost predicate Programmed(registers: P.RegisterMap, stage: Stage, program: u64) {
    var base := BaseOf(stage);
    base in registers && base + 1 in registers && program != 0 && program == ProgramAddress(registers[base], registers[base + 1])
  }

  lemma BindingExactly(registers: P.RegisterMap, pair: P.ProgramPair, b: Binding)
    requires pair.lo == BaseOf(pair.stage) && pair.hi == BaseOf(pair.stage) + 1
    ensures b in P.BindingOf(registers, pair) <==>
      b == Unresolved(pair.stage, b.programAddress) && Programmed(registers, pair.stage, b.programAddress)
  {
    hide ProgramAddress;
  }

  ghost predicate Among(registers: P.RegisterMap, pairs: seq<P.ProgramPair>, b: Binding) {
    exists i :: 0 <= i < |pairs| && b in P.BindingOf(registers, pairs[i])
  }

  lemma {:induction false} BindingsAmong(registers: P.RegisterMap, pairs: seq<P.ProgramPair>, b: Binding)
    ensures b in P.BindingsOf(registers, pairs) <==> Among(registers, pairs, b)
  {
    hide P.BindingOf;
    if pairs != [] {
      BindingsAmong(registers, pairs[1..], b);
      if Among(registers, pairs[1..], b) {
        var i :| 0 <= i < |pairs[1..]| && b in P.BindingOf(registers, pairs[1..][i]);
        assert b in P.BindingOf(registers, pairs[i + 1]);
      }
      if Among(registers, pairs, b) {
        var i :| 0 <= i < |pairs| && b in P.BindingOf(registers, pairs[i]);
        assert i > 0 ==> b in P.BindingOf(registers, pairs[1..][i - 1]);
      }
    }
  }

  function PlaceOf(stage: Stage): (r: nat)
    requires stage != Compute
    ensures r < 5 && P.GRAPHICS_PAIRS[r] == P.ProgramPair(stage, BaseOf(stage), BaseOf(stage) + 1)
  {
    match stage case Pixel => 0 case Geometry => 1 case Export => 2 case Hull => 3 case Local => 4
  }

  lemma GraphicsPairs(i: nat)
    requires i < 5
    ensures var pair := P.GRAPHICS_PAIRS[i];
      pair.stage != Compute && pair.lo == BaseOf(pair.stage) && pair.hi == BaseOf(pair.stage) + 1
  {
  }

  /** A draw carries a program for a graphics stage, and a dispatch one for the compute stage,
      exactly when the stage is programmed. */
  lemma SnapshotExactly(registers: P.RegisterMap, kind: Pm4.ActionType, b: Binding)
    ensures b in P.SnapshotBindings(registers, kind) <==>
      && b == Unresolved(b.stage, b.programAddress) && Programmed(registers, b.stage, b.programAddress)
      && kind == if b.stage == Compute then Pm4.Dispatch else Pm4.Draw
  {
    hide Programmed, P.BindingOf;
    if kind == Pm4.Draw {
      DrawExactly(registers, b);
    } else {
      BindingExactly(registers, P.COMPUTE_PAIR, b);
    }
  }

  lemma DrawExactly(registers: P.RegisterMap, b: Binding)
    ensures b in P.BindingsOf(registers, P.GRAPHICS_PAIRS) <==>
      b.stage != Compute && b == Unresolved(b.stage, b.programAddress) && Programmed(registers, b.stage, b.programAddress)
  {
    hide Programmed, P.BindingOf, P.BindingsOf;
    var pairs := P.GRAPHICS_PAIRS;
    BindingsAmong(registers, pairs, b);
    if b.stage != Compute {
      BindingExactly(registers, pairs[PlaceOf(b.stage)], b);
    }
    if Among(registers, pairs, b) {
      var i :| 0 <= i < |pairs| && b in P.BindingOf(registers, pairs[i]);
      GraphicsPairs(i);
      BindingExactly(registers, pairs[i], b);
    }
  }

  // ---------------------------------------------------------------- refusals

  /** A patch is planned exactly when it is not empty, ends inside the address space and meets no
      earlier one. */
  lemma PatchesExactly(plan: seq<Mutation>, address: u64, value: seq<byte>)
    requires forall i :: 0 <= i < |plan| ==> plan[i].address + |plan[i].value| < TWO64
    ensures AddMutation(plan, address, value).Done? <==>
      && value != []
      && (plan != [] ==> address + |value| < TWO64)
      && forall i :: 0 <= i < |plan| ==> Disjoint(address, |value|, plan[i].address, |plan[i].value|)
  {
    if plan != [] && address + |value| >= TWO64 {
      assert RangesOverlap(address, |value|, plan[0].address, |plan[0].value|);
    }
  }

  /** The program pairs a fallback may start: every stage's but the image's own. */
  lemma KnownPairs(lo: u32, expected: Pair)
    ensures KnownHi(lo, expected) ==
      if lo in {0x008, 0x048, 0x088, 0x0c8, 0x108, 0x148, 0x20c} - {expected.lo} then Some(lo + 1) else None
  {
  }

  /** A table without any pair is accepted, unbound, exactly for the two front-half types whose
      first entry is one of their own registers. */
  lemma FrontTables(plan: seq<Mutation>, m: Memory, table: u64, count: nat, binaryType: byte, code: u64, codeSize: u32,
                    entries: seq<Entry>, expected: Pair)
    requires table != 0 && count >= 2 && ReadTable(m, table, count) == Some(entries)
    requires PairForType(binaryType) == Some(expected)
    requires FindPair(entries, expected).None? && FindFallback(entries, expected, 0).None?
    ensures var r, first := PlanProgram(plan, m, table, count, binaryType, code, codeSize), entries[0].offset;
      if (binaryType == 4 && first in {0x088, 0x08a}) || (binaryType == 5 && first in {0x108, 0x10a}) then
        r == Done(Patch(plan, Program(0, 0, false)))
      else r == Fail(InvalidArgument)
  {
    hide ReadTable, FindPair, FindFallback;
  }

  /** Announced input semantics must be readable, four bytes each. */
  lemma SemanticsExactly(m: Memory, header: u64, code: u64, h: Header, pointers: Relocation, coded: seq<Mutation>)
    requires |h.bytes| == HEADER_BYTES && header + 0x10 < TWO64
    requires Relocate([], header, h.bytes, HEADER_POINTERS) == Done(pointers)
    requires AddMutation(pointers.plan, header + 0x10, Encode64(code)) == Done(coded)
    requires PlanUserData(coded, m, pointers.pointers[0]).Done?
    ensures var address, bytes := pointers.pointers[4], 4 * h.semantics;
      if h.semantics == 0 || (address != 0 && m.CanRead(address, bytes)) then PlanPointers(m, header, code, h).Done?
      else PlanPointers(m, header, code, h) == Fail(MemoryFault)
  {
    hide Relocate, AddMutation, PlanUserData, Encode64;
  }
}
