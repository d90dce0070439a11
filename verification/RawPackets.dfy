/** Packets a guest writes by hand: an assembler for the forms the builders do not produce, the
    proof that the decoder reads them back, and the exact lengths it takes. */
module RawPackets {
  import opened Arith
  import opened Words
  import opened Pm4
  import opened PacketRoundTrip
  import C = ControlWords
  import MemorySink

  datatype Raw =
    | WaitWord(control: u32, address: u64, reference32: u32, mask32: u32, poll: u32)
    | Table(space: Space, table: u64, spare: u32, count: u32)
    | WrappedTable(space: Space, table: u64, count: u32)
    | IndirectDispatch(arguments: u64, modifier: u32)
    | Release(control: u32, select: u32, address: u64, data: u64, context: u32)
    | Write(control: u32, address: u64, words: seq<u32>)
    | Conditional(mode: u32, condition: u32, spare: u32, address: u64, mask: u64, reference: u64,
                  first: u64, firstDwords: u32, second: u64, secondDwords: u32)

  function OpcodeOf(raw: Raw): u32 {
    match raw
    case WaitWord(_, _, _, _, _) => WAIT_REG_MEM
    case Table(space, _, _, _) =>
      (match space case Context => SET_CONTEXT_REGISTER_INDIRECT case Shader => SET_SH_REGISTER_INDIRECT
                   case UserConfig => SET_UC_REGISTER_INDIRECT)
    case WrappedTable(_, _, _) => NOP
    case IndirectDispatch(_, _) => DISPATCH_INDIRECT
    case Release(_, _, _, _, _) => RELEASE_MEMORY
    case Write(_, _, _) => WRITE_DATA
    case Conditional(_, _, _, _, _, _, _, _, _, _) => INDIRECT_BUFFER
  }

  function RegisterOf(raw: Raw): u32 {
    if !raw.WrappedTable? then 0
    else match raw.space case Context => 0x12 case Shader => 0x11 case UserConfig => 0x13
  }

  predicate Sound(raw: Raw) {
    match raw
    case Conditional(mode, condition, spare, _, _, _, _, _, _, _) => mode < 0x100 && condition < 8 && spare < 0x10_0000
    case Write(_, _, data) => |data| < 0x4000
    case _ => true
  }

  function ControlOf(raw: Raw): u32
    requires raw.Conditional? && Sound(raw)
  {
    raw.mode + raw.condition * 0x100 + raw.spare * 0x1000
  }

  function Body(raw: Raw): seq<u32>
    requires Sound(raw)
  {
    match raw
    case WaitWord(control, address, reference, mask, poll) => [control, Low(address), High(address), reference, mask, poll]
    case Table(_, table, spare, count) => [Low(table), High(table), spare, count]
    case WrappedTable(_, table, count) => [count, Low(table), High(table)]
    case IndirectDispatch(arguments, modifier) => [Low(arguments), High(arguments), modifier]
    case Release(control, select, address, data, context) =>
      [control, select, Low(address), High(address), Low(data), High(data), context]
    case Write(control, address, data) => [control, Low(address), High(address)] + data
    case Conditional(_, _, _, address, mask, reference, first, firstDwords, second, secondDwords) =>
      [ControlOf(raw), Low(address), High(address), Low(mask), High(mask), Low(reference), High(reference),
       Low(first), High(first), firstDwords, Low(second), High(second), secondDwords]
  }

  function Nth(data: seq<u32>, i: nat): u32 { if i < |data| then data[i] else 0 }

  function Meaning(raw: Raw): Instr
    requires Sound(raw)
  {
    match raw
    case WaitWord(control, address, reference, mask, poll) => Wait(address, mask, reference, control, poll, false)
    case Table(space, table, _, count) => IndirectRegisters(space, Down(table, 4), count % 0x4000)
    case WrappedTable(space, table, count) => IndirectRegisters(space, table, count)
    case IndirectDispatch(arguments, modifier) => Plain(Dispatch, [arguments, modifier, 1], [])
    case Release(control, select, address, data, context) =>
      Plain(ReleaseMemory, [address, data, control, select, context], [])
    case Write(control, address, data) =>
      Plain(WriteData, [address, control, |data|, Nth(data, 0), Nth(data, 1)], data)
    case Conditional(mode, condition, _, address, mask, reference, first, firstDwords, second, secondDwords) =>
      if Down(address, 8) == 0 || mask == 0 || condition == 7 || mode % 4 !in {1, 2} then Bad(MalformedPacket)
      else Branch(Down(address, 8), mask, reference, condition, mode % 4 == 2, ControlOf(raw),
                  Down(first, 4), firstDwords % 0x10_0000, Down(second, 4), secondDwords % 0x10_0000)
  }

  /** The decoder reads every assembled packet back, whatever its header's other bits are. */
  lemma RawReadsBack(raw: Raw, header: u32)
    requires Sound(raw)
    ensures Decode(OpcodeOf(raw), RegisterOf(raw), [header] + Body(raw)) == Meaning(raw)
  {
    match raw {
      case Conditional(_, _, _, _, _, _, _, _, _, _) => ConditionalReadsBack(raw, header);
      case Write(_, _, _) => WriteReadsBack(raw, header);
      case _ => PlainReadsBack(raw, header);
    }
  }

  lemma PlainReadsBack(raw: Raw, header: u32)
    requires Sound(raw) && !raw.Conditional? && !raw.Write?
    ensures Decode(OpcodeOf(raw), RegisterOf(raw), [header] + Body(raw)) == Meaning(raw)
  {
    hide Join, Down, RoundDown, Low, High;
    match raw {
      case WaitWord(_, address, _, _, _) => JoinParts(address);
      case Table(_, table, _, _) => JoinDown(table, 4);
      case WrappedTable(_, table, _) => JoinParts(table);
      case IndirectDispatch(arguments, _) => JoinParts(arguments);
      case Release(_, _, address, data, _) =>
        JoinParts(address);
        JoinParts(data);
    }
  }

  lemma WriteReadsBack(raw: Raw, header: u32)
    requires Sound(raw) && raw.Write?
    ensures Decode(OpcodeOf(raw), RegisterOf(raw), [header] + Body(raw)) == Meaning(raw)
  {
    hide Join, Low, High;
    JoinParts(raw.address);
    var p := [header] + Body(raw);
    assert p[4..] == raw.words;
  }

  lemma ConditionalReadsBack(raw: Raw, header: u32)
    requires Sound(raw) && raw.Conditional?
    ensures Decode(OpcodeOf(raw), RegisterOf(raw), [header] + Body(raw)) == Meaning(raw)
  {
    hide Join, Down, RoundDown, Low, High, ControlOf;
    JoinDown(raw.address, 8);
    JoinDown(raw.first, 4);
    JoinDown(raw.second, 4);
    JoinParts(raw.mask);
    JoinParts(raw.reference);
    ControlFields(raw);
  }

  lemma ControlFields(raw: Raw)
    requires Sound(raw) && raw.Conditional?
    ensures ControlOf(raw) % 4 == raw.mode % 4 && ControlOf(raw) / 0x100 % 8 == raw.condition
  {
    C.Digits(raw.mode, raw.condition, 0, 2 * raw.spare, 0x100, 8, 1);
    ModOfMod(ControlOf(raw), 4, 0x40);
  }

  // ------------------------------------------------- what a standard packet stores

  /** The standard write stores by its own field layout: the destination in bits 8 to 11, and
      all words unless bit 16 asks for a single address. */
  lemma StandardWriteStores(raw: Raw, at: u64, dwords: u32)
    requires raw.Write? && Sound(raw)
    ensures var i := Meaning(raw);
      MemorySink.WriteTarget(Action(i.kind, Site(at, dwords, WRITE_DATA, 0), i.values, i.payload, [])) ==
        if raw.control / 0x100 % 0x10 !in {1, 2, 4, 5} then MemorySink.Pass
        else if raw.address == 0 || raw.address % 4 != 0 then MemorySink.BadStore
        else if raw.control / 0x1_0000 % 2 == 0 || raw.words == [] then MemorySink.Words(raw.address, raw.words)
        else MemorySink.Words(raw.address, raw.words[|raw.words| - 1..])
  {
    var data := raw.words;
    assert data != [] ==> data[|data| - 1..] == [data[|data| - 1]];
  }

  /** The standard release: a selection above five is malformed, five is not supported, zero, a
      destination above one and address zero write nothing, and three and four write a time. */
  lemma StandardReleaseStores(raw: Raw, at: u64, dwords: u32)
    requires raw.Release?
    ensures var i, selection := Meaning(raw), raw.select / 0x2000_0000;
      var target := MemorySink.ReleaseTarget(Action(i.kind, Site(at, dwords, RELEASE_MEMORY, 0), i.values, i.payload, []));
      if selection > 5 then target == MemorySink.Malformed
      else if selection == 5 then target == MemorySink.Unsupported
      else if selection == 0 || raw.select / 0x1_0000 % 4 > 1 || raw.address == 0 then target == MemorySink.NoWrite
      else if raw.address % 4 != 0 then target == MemorySink.Malformed
      else if selection == 1 then target == MemorySink.Write32(raw.address, Low(raw.data))
      else if selection == 2 then target == MemorySink.Write64(raw.address, raw.data)
      else target == MemorySink.WriteTimed(raw.address)
  {
  }

  // ----------------------------------------------------------------- lengths

  /** The lengths a packet may have. */
  datatype Lengths = Exact(n: nat) | Either(a: nat, b: nat) | AtLeast(n: nat) | NotSupported

  function Admits(l: Lengths, n: nat): bool {
    match l
    case Exact(k) => n == k
    case Either(a, b) => n == a || n == b
    case AtLeast(k) => n >= k
    case NotSupported => false
  }

  function LengthsOf(opcode: u32, register: u32): Lengths {
    match opcode
    case 0x10 =>
      (match register case 0x00 => AtLeast(1) case 0x0a => Exact(7) case 0x11 => Exact(4) case 0x12 => Exact(4)
                      case 0x13 => Exact(4) case 0x15 => AtLeast(4) case 0x16 => Exact(9) case 0x18 => Exact(8)
                      case _ => NotSupported)
    case 0x11 => AtLeast(4) case 0x13 => AtLeast(2) case 0x15 => Exact(5) case 0x16 => Either(3, 4)
    case 0x20 => AtLeast(4) case 0x24 => AtLeast(2) case 0x25 => AtLeast(2) case 0x26 => AtLeast(3)
    case 0x27 => AtLeast(2) case 0x2a => AtLeast(2) case 0x2c => AtLeast(2) case 0x2d => AtLeast(2)
    case 0x2f => AtLeast(2) case 0x35 => AtLeast(2) case 0x37 => AtLeast(4) case 0x38 => AtLeast(2)
    case 0x3a => AtLeast(2) case 0x3c => AtLeast(7) case 0x3f => Either(4, 14) case 0x46 => Either(2, 4)
    case 0x49 => Exact(8) case 0x59 => AtLeast(2) case 0x63 => Exact(5) case 0x64 => Exact(5)
    case 0x69 => AtLeast(3) case 0x76 => AtLeast(3) case 0x79 => AtLeast(3) case 0x7a => AtLeast(3)
    case 0x8e => Exact(5) case 0x9f => Exact(5)
    case _ => NotSupported
  }

  /** A packet is unsupported exactly when its code is not in the table; a supported packet of
      a wrong length is malformed, and one of a right length is understood, unless it is a
      conditional branch with a bad operand. */
  lemma LengthsAreExact(opcode: u32, register: u32, p: seq<u32>)
    requires |p| >= 1
    ensures var i, l := Decode(opcode, register, p), LengthsOf(opcode, register);
      && (i == Bad(UnsupportedPacket) <==> l == NotSupported)
      && (l != NotSupported && !Admits(l, |p|) ==> i == Bad(MalformedPacket))
      && (Admits(l, |p|) && !(opcode == INDIRECT_BUFFER && |p| == 14) ==> !i.Bad?)
  {
    hide Join, RoundDown;
  }

  /** What the remaining plain packets say, by the place of their words. */
  lemma PlainForms(p: seq<u32>, header: u32, a: u32, b: u32, c: u32)
    ensures Decode(INDEX_TYPE, 0, [header, a]) == Plain(SetIndexSize, [a], [])
    ensures Decode(DRAW_INDIRECT, 0, [header, a, b, c]) == Plain(Draw, [a, b, c], [])
    ensures |p| > 8 ==> Decode(DRAW_INDEX_INDIRECT_MULTI, 0, [header] + p) == Plain(Draw, p[..8], [])
    ensures 1 <= |p| <= 8 ==> Decode(DRAW_INDIRECT_MULTI, 0, [header] + p) == Plain(Draw, p, [])
    ensures |p| >= 1 ==> Decode(SET_UC_REGISTER_INDEX, 0, [header, a] + p) == DirectRegisters(UserConfig, a, p)
  {
    assert [header, a, b, c][1..] == [a, b, c];
    assert ([header] + p)[1..] == p;
    assert |p| > 8 ==> ([header] + p)[1..9] == p[..8];
    assert ([header, a] + p)[2..] == p;
  }

  /** A hand-written wrapped release: event index 5 or 6 reads the packed fields, any other the
      older byte-wide selection; selection 4 is malformed in both. */
  lemma WrappedReleaseStores(a: Action)
    requires a.site.opcode == NOP && a.site.register == RELEASE_MEMORY_REGISTER
    requires |a.values| == 5 && a.values[2] < TWO32 && a.values[3] < TWO32
    ensures var packed := a.values[2] / 0x100 % 8 in {5, 6};
      var selection := if packed then a.values[3] / 0x2000_0000 else a.values[3] / 0x1_0000 % 0x100;
      var memory := !packed || a.values[3] / 0x1_0000 % 4 <= 1;
      var target := MemorySink.ReleaseTarget(a);
      if selection == 4 || selection > 5 then target == MemorySink.Malformed
      else if selection == 5 then target == MemorySink.Unsupported
      else if selection == 0 || !memory || a.values[0] == 0 then target == MemorySink.NoWrite
      else if a.values[0] % 4 != 0 then target == MemorySink.Malformed
      else
        && (selection == 1 ==> target == MemorySink.Write32(a.values[0], a.values[1] % TWO32))
        && (selection == 2 ==> target == MemorySink.Write64(a.values[0], a.values[1]))
        && (selection == 3 ==> target == MemorySink.WriteTimed(a.values[0]))
  {
  }
}
