/** The guest-facing packet builders and the proof that the decoder undoes them. */
module PacketBuilder {
  import opened Arith
  import opened Words
  import opened GuestMemory
  import opened Pm4

  const MAXIMUM_PACKET_DWORDS := 0x4001

  datatype AgcType =
    | SetShRegisterDirect | SetCxRegisterDirect | SetUcRegisterDirect | IndexSize | IndexBuffer
    | IndexCount | InstanceCount | DrawIndex | DrawIndexMultiInstanced | DrawIndexAuto | DrawIndexOffset
    | BaseIndirectArgs | DispatchIndirect | Jump | RewindPacket | SetPredication | WriteDataPacket
    | ReleaseMemoryPacket | EventWritePacket | GetLodStats | WaitRegMem

  function Arg(args: seq<u64>, i: nat): u64 { if i < |args| then args[i] else 0 }

  function Arg32(args: seq<u64>, i: nat): u32 { Low(Arg(args, i)) }

  function MakeHeader(dwords: int, opcode: u32, register: u32): (r: u32)
    requires 2 <= dwords <= MAXIMUM_PACKET_DWORDS && opcode < 0x100 && register < 0x40
  {
    0xc000_0000 + (dwords - 2) * 0x1_0000 + opcode * 0x100 + register * 4
  }

  /** A header parses back to its own fields, except that a NOP-opcode packet of the greatest
      length reads as a packet of one word. */
  lemma HeaderRoundTrip(dwords: int, opcode: u32, register: u32)
    requires 2 <= dwords <= MAXIMUM_PACKET_DWORDS && opcode < 0x100 && register < 0x40
    ensures ParseHeader(MakeHeader(dwords, opcode, register)) == Type3(opcode, register, dwords) <==>
      !(opcode == NOP && dwords == MAXIMUM_PACKET_DWORDS)
    ensures opcode == NOP && dwords == MAXIMUM_PACKET_DWORDS ==>
      PacketDwords(MakeHeader(dwords, opcode, register)) == 1
  {
    var h := MakeHeader(dwords, opcode, register);
    var length := dwords - 2;
    DivModUnique(h, 4, 0x3000_0000 + length * 0x4000 + opcode * 0x40 + register, 0);
    ModShift(register, 0xc0_0000 + length * 0x100 + opcode, 0x40);
    DivModUnique(h, 0x100, 0xc0_0000 + length * 0x100 + opcode, register * 4);
    ModShift(opcode, 0xc000 + length, 0x100);
    DivModUnique(h, 0x1_0000, 0xc000 + length, opcode * 0x100 + register * 4);
    ModShift(length, 3, 0x4000);
    DivModUnique(h, 0x4000_0000, 3, length * 0x1_0000 + opcode * 0x100 + register * 4);
  }

  function DrawIndexInitiator(modifier: u64): (r: u32)
    ensures r == 0 || r == 0x20
  {
    if modifier / TWO32 % 2 == 1 then 0 else modifier / 0x100 % 2 * 0x20
  }

  function AtLeastOne(v: u32): u32 { if v == 0 then 1 else v }

  /** The dispatch bits a caller may choose, and the two that are always set. */
  function DispatchModifier(v: u32): (r: u32) { And(v, 0xa038) + 0x41 }

  function WaitPoll(cycles: u32): u32 { if cycles / 16 < 0xffff then cycles / 16 else 0xffff }

  function Wait32Control(compare: u32, operation: u32, cache: u32): (r: u32)
    ensures r % 8 == compare % 8
  {
    0x10 + compare % 8 + operation % 4 * 0x100 + operation / 4 % 4 * 0x40 + cache % 4 * 0x200_0000
  }

  function Wait64Control(compare: u32, operation: u32, cache: u32): (r: u32)
    ensures r % 8 == compare % 8
  {
    0x10 + compare % 8 + operation % 2 * 0x100 + operation / 2 % 4 * 0x40 + cache % 4 * 0x200_0000
  }

  datatype BuildStatus = Ok | BadArgument | Fault | BufferTooSmall | CallbackRequired

  datatype Build = Built(opcode: u32, register: u32, words: seq<u32>) | BuildError(status: BuildStatus)

  /** A packet of the given opcode around the given body. */
  function Packet(opcode: u32, register: u32, body: seq<u32>): (r: Build)
    requires 1 <= |body| < MAXIMUM_PACKET_DWORDS && opcode < 0x100 && register < 0x40
    ensures r.Built? && |r.words| == |body| + 1
  {
    Built(opcode, register, [MakeHeader(|body| + 1, opcode, register)] + body)
  }

  function BuildNop(dwords: u32): Build {
    if dwords < 2 || dwords > MAXIMUM_PACKET_DWORDS then BuildError(BadArgument)
    else Packet(NOP, 0, seq(dwords - 1, _ => 0))
  }

  function BuildDispatch(x: u32, y: u32, z: u32, modifier: u32): Build {
    Packet(DISPATCH_DIRECT, 0, [x, y, z, DispatchModifier(modifier)])
  }

  function BuildDraw(t: AgcType, args: seq<u64>): Build
    requires t in {DrawIndex, DrawIndexMultiInstanced, DrawIndexAuto, DrawIndexOffset}
  {
    if t == DrawIndex then
      var count, address := Arg32(args, 1), Arg(args, 2);
      if address == 0 || address % 2 != 0 then BuildError(BadArgument)
      else Packet(DRAW_INDEX, 0, [AtLeastOne(count), Low(address), High(address), count, DrawIndexInitiator(Arg(args, 3))])
    else if t == DrawIndexMultiInstanced then
      var index, object', instances := Arg(args, 2), Arg(args, 3), Arg32(args, 4);
      if index == 0 || object' == 0 || index % 2 != 0 then BuildError(BadArgument)
      else Packet(DRAW_INDEX_MULTI_INSTANCED, 0,
                  [Arg32(args, 1), Low(index), High(index), AtLeastOne(instances), Low(object'), High(object'), instances,
                   DrawIndexInitiator(Arg(args, 5)) + 0x80])
    else if t == DrawIndexAuto then
      Packet(DRAW_INDEX_AUTO, 0, [Arg32(args, 1), DrawIndexInitiator(Arg(args, 2)) + 2])
    else
      var count := Arg32(args, 2);
      Packet(DRAW_INDEX_OFFSET, 0, [AtLeastOne(count), Arg32(args, 1), count, DrawIndexInitiator(Arg(args, 3))])
  }

  function WriteControl(args: seq<u64>): u32 {
    var destination := Arg32(args, 1);
    var confirm := if destination == 0 then 0 else Arg32(args, 7) % 2;
    destination % 0x100 + Arg32(args, 2) % 0x100 * 0x100 + Arg32(args, 6) % 0x100 * 0x1_0000 + confirm * 0x100_0000
  }

  function BuildWriteData(m: Memory, args: seq<u64>): Build {
    var source, count := Arg(args, 4), Arg32(args, 5);
    if source == 0 || count > 0x3ffd then BuildError(BadArgument)
    else
      match if count == 0 then Some([]) else m.Read(source, 4 * count)
      case None => BuildError(Fault)
      case Some(data) =>
        Packet(NOP, WRITE_DATA_REGISTER,
               [WriteControl(args), RoundDown(Arg32(args, 3), 4), High(Arg(args, 3))] + DecodeWords(data))
  }

  /** A release with the cache writeback bit also invalidates. */
  function GcrControl(v: u32): u32 { if v / 0x100 % 4 == 1 then v + 0x200 else v }

  function ReleaseAddress(args: seq<u64>): u64 { if Arg32(args, 10) == 4 then 0 else Arg(args, 5) }

  function ReleaseValue(args: seq<u64>): u64 {
    if Arg32(args, 10) == 4 then 0
    else if Arg32(args, 6) == 5 then Arg32(args, 8) % 0x1_0000 + Arg32(args, 9) % 0x1_0000 * 0x1_0000
    else Arg(args, 7)
  }

  function ReleaseControl(args: seq<u64>): u32 {
    var index := if Arg32(args, 1) >= 0x2f then 6 else 5;
    Arg32(args, 1) % 0x40 + index * 0x100 + GcrControl(Arg32(args, 2)) % 0x1000 * 0x1000 + Arg32(args, 4) % 4 * 0x200_0000
  }

  predicate ReleaseOk(args: seq<u64>) {
    Arg32(args, 3) <= 1 && (Arg32(args, 6) <= 3 || Arg32(args, 6) == 5) && Arg32(args, 10) <= 4
  }

  function ReleaseSelect(args: seq<u64>): u32
    requires ReleaseOk(args)
  {
    Arg32(args, 3) * 0x1_0000 + Arg32(args, 10) * 0x100_0000 + Arg32(args, 6) * 0x2000_0000
  }

  function BuildRelease(args: seq<u64>): Build {
    if !ReleaseOk(args) then BuildError(BadArgument)
    else
      var address, data := ReleaseAddress(args), ReleaseValue(args);
      Packet(NOP, RELEASE_MEMORY_REGISTER,
             [ReleaseControl(args), ReleaseSelect(args), RoundDown(Low(address), 4), High(address), Low(data), High(data),
              Arg32(args, 11) % 0x800_0000])
  }

  function EventControl(kind: u32): u32
    requires kind <= 0x3f
  {
    if kind == 0x38 || kind == 0x39 then 0x100 + kind else if kind in {7, 15, 16} then 0x400 + kind else kind
  }

  function BuildEvent(args: seq<u64>): Build {
    var kind, address := Arg32(args, 1), Arg(args, 2);
    if kind > 0x3f then BuildError(BadArgument)
    else if kind == 0x38 || kind == 0x39 then
      Packet(EVENT_WRITE, 0, [EventControl(kind), RoundDown(Low(address), 8), High(address)])
    else Packet(EVENT_WRITE, 0, [EventControl(kind)])
  }

  /** The shader type is shifted into the header without a mask. */
  function BuildBase(args: seq<u64>): Build {
    var header := MakeHeader(4, SET_BASE, 0);
    var shifted := 2 * Arg32(args, 1) % TWO32;
    OrWord(header, shifted);
    Built(SET_BASE, 0, [Or(header, shifted), 1, RoundDown(Arg32(args, 2), 8), High(Arg(args, 2))])
  }

  lemma OrWord(a: u32, b: u32)
    ensures Or(a, b) < TWO32
  {
    hide Or, Pow2;
    OrField(a, b, 32);
    Pow2Words();
    assert Or(0, 0) == 0 by { OrHalf(0, 0); }
  }

  function BuildWait(args: seq<u64>): Build {
    var size, compare, operation, cache := Arg32(args, 1), Arg32(args, 2), Arg32(args, 3), Arg32(args, 4);
    var address, reference, mask, poll := Arg(args, 5), Arg(args, 6), Arg(args, 7), WaitPoll(Arg32(args, 8));
    if size > 1 || compare > 7 || operation > 4 || cache > 3 then BuildError(BadArgument)
    else if size == 0 then
      Packet(NOP, WAIT_MEMORY_32,
             [RoundDown(Low(address), 4), High(address) % 0x4_0000, Low(mask), Low(reference),
              Wait32Control(compare, operation, cache), poll])
    else
      Packet(NOP, WAIT_MEMORY_64,
             [RoundDown(Low(address), 8), High(address) % 0x4_0000, Low(mask), High(mask), Low(reference),
              High(reference), Wait64Control(compare, operation, cache), poll])
  }

  function BuildSimple(t: AgcType, args: seq<u64>): Build
    requires t in {SetShRegisterDirect, SetCxRegisterDirect, SetUcRegisterDirect, IndexSize, IndexBuffer, IndexCount,
                   InstanceCount, DispatchIndirect, Jump, RewindPacket, SetPredication, GetLodStats}
  {
    var a1, w1, w2 := Arg(args, 1), Arg32(args, 1), Arg32(args, 2);
    match t
    case SetShRegisterDirect => Packet(SET_SH_REGISTER, 0, [w1 % 0x1_0000, High(a1)])
    case SetCxRegisterDirect => Packet(SET_CONTEXT_REGISTER, 0, [w1 % 0x1_0000, High(a1)])
    case SetUcRegisterDirect => Packet(SET_UC_REGISTER, 0, [w1 % 0x1_0000, High(a1)])
    case IndexSize => Packet(SET_UC_REGISTER_INDEX, 0, [0x2000_0243, 0x400 + w1 % 4 + w2 % 4 * 0x40])
    case IndexBuffer =>
      if a1 % 2 != 0 then BuildError(BadArgument) else Packet(INDEX_BASE, 0, [Low(a1), High(a1)])
    case IndexCount => Packet(INDEX_BUFFER_SIZE, 0, [w1])
    case InstanceCount => Packet(NUM_INSTANCES, 0, [w1])
    case DispatchIndirect => Packet(DISPATCH_INDIRECT, 0, [w1, DispatchModifier(w2)])
    case Jump =>
      Packet(INDIRECT_BUFFER, 0,
             [RoundDown(Arg32(args, 3), 4), High(Arg(args, 3)),
              0x0f20_0000 + w2 % 4 * 0x1000_0000 + w1 % 2 * 0x10_0000 + Arg32(args, 4) % 0x10_0000])
    case RewindPacket => Packet(REWIND, 0, [w1 % 2 * 0x8000_0000])
    case SetPredication =>
      Packet(SET_PREDICATION, 0,
             [w1 % 2 * 0x100 + Arg32(args, 3) % 2 * 0x1000 + w2 % 8 * 0x1_0000,
              RoundDown(Arg32(args, 4), 16), High(Arg(args, 4))])
    case GetLodStats =>
      Packet(GET_LOD_STATS, 0,
             [Arg32(args, 3), RoundDown(Low(Arg(args, 2)), 64), High(Arg(args, 2)),
              w1 % 4 * 0x1000_0000 + Arg32(args, 6) % 2 * 0x8_0000 + Arg32(args, 5) % 2 * 0x4_0000
              + Arg32(args, 4) % 0x100 * 0x400 + Arg32(args, 7) % 0x100 * 4])
  }
}
