/** PM4 packets: headers, the instruction one packet denotes, and the actions the
    decoder hands to its sink. */
module Pm4 {
  import opened Words
  import opened ShaderIndex

  datatype Status =
    | Complete | Blocked | InvalidArgument | MemoryFault | MalformedPacket | UnsupportedPacket | ResourceLimit

  datatype Space = Context | Shader | UserConfig

  datatype ActionType =
    | Nop | RegisterWrite | SetBase | SetIndexBuffer | SetIndexSize | SetIndexCount | SetNumInstances
    | Draw | Dispatch | Predication | WriteData | ReleaseMemory | EventWrite | WaitMemory
    | IndirectBuffer | Rewind | LodStats

  /** Where a packet was found and what its header says. */
  datatype Site = Site(address: u64, dwords: u32, opcode: u32, register: u32)

  datatype Action = Action(
    kind: ActionType, site: Site, values: seq<u64>, payload: seq<u32>, bindings: seq<Binding>)

  function MakeAction(kind: ActionType, site: Site, values: seq<u64>): Action {
    Action(kind, site, values, [], [])
  }

  function SpaceCode(space: Space): (r: u64) {
    match space
    case Context => 0
    case Shader => 1
    case UserConfig => 2
  }

  const NOP: u32 := 0x10
  const SET_BASE: u32 := 0x11
  const INDEX_BUFFER_SIZE: u32 := 0x13
  const DISPATCH_DIRECT: u32 := 0x15
  const DISPATCH_INDIRECT: u32 := 0x16
  const SET_PREDICATION: u32 := 0x20
  const DRAW_INDIRECT: u32 := 0x24
  const DRAW_INDEX_INDIRECT: u32 := 0x25
  const INDEX_BASE: u32 := 0x26
  const DRAW_INDEX: u32 := 0x27
  const INDEX_TYPE: u32 := 0x2a
  const DRAW_INDIRECT_MULTI: u32 := 0x2c
  const DRAW_INDEX_AUTO: u32 := 0x2d
  const NUM_INSTANCES: u32 := 0x2f
  const DRAW_INDEX_OFFSET: u32 := 0x35
  const WRITE_DATA: u32 := 0x37
  const DRAW_INDEX_INDIRECT_MULTI: u32 := 0x38
  const DRAW_INDEX_MULTI_INSTANCED: u32 := 0x3a
  const WAIT_REG_MEM: u32 := 0x3c
  const INDIRECT_BUFFER: u32 := 0x3f
  const EVENT_WRITE: u32 := 0x46
  const RELEASE_MEMORY: u32 := 0x49
  const REWIND: u32 := 0x59
  const SET_SH_REGISTER_INDIRECT: u32 := 0x63
  const SET_UC_REGISTER_INDIRECT: u32 := 0x64
  const SET_CONTEXT_REGISTER: u32 := 0x69
  const SET_SH_REGISTER: u32 := 0x76
  const SET_UC_REGISTER: u32 := 0x79
  const SET_UC_REGISTER_INDEX: u32 := 0x7a
  const GET_LOD_STATS: u32 := 0x8e
  const SET_CONTEXT_REGISTER_INDIRECT: u32 := 0x9f

  const WAIT_MEMORY_32: u32 := 0x0a
  const SHADER_REGISTERS_INDIRECT: u32 := 0x11
  const CONTEXT_REGISTERS_INDIRECT: u32 := 0x12
  const USER_CONFIG_REGISTERS_INDIRECT: u32 := 0x13
  const WRITE_DATA_REGISTER: u32 := 0x15
  const WAIT_MEMORY_64: u32 := 0x16
  const RELEASE_MEMORY_REGISTER: u32 := 0x18

  /** The user-config slot that keeps the instance count of the next draw. */
  const INSTANCE_COUNT_SLOT: u32 := 0xffff_fff0

  datatype Header = Type2 | Type3(opcode: u32, register: u32, dwords: u32) | OtherType

  /** Bits 16..29 hold the length less two, except that the NOP opcode with an
      all-ones length stands for a packet of one word. */
  function ParseHeader(header: u32): Header {
    var kind := header / 0x4000_0000;
    if kind == 2 then Type2
    else if kind != 3 then OtherType
    else Type3(header / 0x100 % 0x100, header / 4 % 0x40, PacketDwords(header))
  }

  function PacketDwords(header: u32): (r: u32)
    ensures 1 <= r <= 0x4000 || (r == 0x4001 && header / 0x100 % 0x100 != NOP)
  {
    var length: int := header / 0x1_0000 % 0x4000;
    if length == 0x3fff && header / 0x100 % 0x100 == NOP then 1 else length + 2
  }

  /** Drops the selector bits 28..30 of a raw register offset. */
  function NormalizeRegisterOffset(raw: u32): (r: u32)
    ensures r != INSTANCE_COUNT_SLOT
  {
    raw / 0x8000_0000 * 0x8000_0000 + raw % 0x1000_0000
  }

  /** What one packet asks the decoder to do. */
  datatype Instr =
    | Plain(kind: ActionType, values: seq<u64>, payload: seq<u32>)
    | SetInstances(count: u32)
    | Wait(address: u64, mask: u64, reference: u64, control: u32, poll: u32, is64: bool)
    | DirectRegisters(space: Space, start: u32, words: seq<u32>)
    | IndirectRegisters(space: Space, table: u64, count: u32)
    | Call(target: u64, dwords: u32, control: u32)
    | Branch(address: u64, mask: u64, reference: u64, function_: u32, always: bool, control: u32,
             thenTarget: u64, thenDwords: u32, elseTarget: u64, elseDwords: u32)
    | Bad(status: Status)

  function RoundDown(v: u32, align: int): (r: u32)
    requires align > 0
  {
    v - v % align
  }

  predicate IsDraw(opcode: u32) {
    opcode in {DRAW_INDEX, DRAW_INDEX_MULTI_INSTANCED, DRAW_INDEX_AUTO, DRAW_INDEX_OFFSET, DRAW_INDIRECT,
               DRAW_INDEX_INDIRECT, DRAW_INDIRECT_MULTI, DRAW_INDEX_INDIRECT_MULTI}
  }

  function DecodeNop(register: u32, p: seq<u32>): Instr
    requires |p| >= 1
  {
    if register == 0 then Plain(Nop, [], [])
    else if register == WAIT_MEMORY_32 then
      if |p| != 7 then Bad(MalformedPacket)
      else Wait(Join(p[1], p[2]), p[3], p[4], p[5], p[6], false)
    else if register == WAIT_MEMORY_64 then
      if |p| != 9 then Bad(MalformedPacket)
      else Wait(Join(p[1], p[2]), Join(p[3], p[4]), Join(p[5], p[6]), p[7], p[8], true)
    else if register in {CONTEXT_REGISTERS_INDIRECT, SHADER_REGISTERS_INDIRECT, USER_CONFIG_REGISTERS_INDIRECT} then
      if |p| != 4 then Bad(MalformedPacket)
      else
        var space := if register == CONTEXT_REGISTERS_INDIRECT then Context
                     else if register == SHADER_REGISTERS_INDIRECT then Shader else UserConfig;
        IndirectRegisters(space, Join(p[2], p[3]), p[1])
    else if register == WRITE_DATA_REGISTER then DecodeWriteData(p)
    else if register == RELEASE_MEMORY_REGISTER then DecodeReleaseMemory(p)
    else Bad(UnsupportedPacket)
  }

  function DecodeWriteData(p: seq<u32>): Instr {
    if |p| < 4 then Bad(MalformedPacket)
    else
      var data := p[4..];
      Plain(WriteData, [Join(p[2], p[3]), p[1], |data| % TWO32,
                        if |data| > 0 then data[0] else 0, if |data| > 1 then data[1] else 0], data)
  }

  function DecodeReleaseMemory(p: seq<u32>): Instr {
    if |p| != 8 then Bad(MalformedPacket)
    else Plain(ReleaseMemory, [Join(p[3], p[4]), Join(p[5], p[6]), p[1], p[2], p[7]], [])
  }

  function DecodeIndirectBuffer(p: seq<u32>): Instr {
    if |p| == 4 then Call(Join(RoundDown(p[1], 4), p[2]), p[3] % 0x10_0000, p[3])
    else if |p| == 14 then
      var address := Join(RoundDown(p[2], 8), p[3]);
      var mask := Join(p[4], p[5]);
      var mode := p[1] % 4;
      var function_ := p[1] / 0x100 % 8;
      if address == 0 || mask == 0 || function_ > 6 || (mode != 1 && mode != 2) then Bad(MalformedPacket)
      else Branch(address, mask, Join(p[6], p[7]), function_, mode == 2, p[1],
                  Join(RoundDown(p[8], 4), p[9]), p[10] % 0x10_0000,
                  Join(RoundDown(p[11], 4), p[12]), p[13] % 0x10_0000)
    else Bad(MalformedPacket)
  }

  /** The instruction of a type-3 packet, header first. */
  function Decode(opcode: u32, register: u32, p: seq<u32>): Instr
    requires |p| >= 1
  {
    var n := |p|;
    if opcode == NOP then DecodeNop(register, p)
    else if opcode == WAIT_REG_MEM then
      if n < 7 then Bad(MalformedPacket) else Wait(Join(p[2], p[3]), p[5], p[4], p[1], p[6], false)
    else if opcode in {SET_CONTEXT_REGISTER, SET_SH_REGISTER, SET_UC_REGISTER, SET_UC_REGISTER_INDEX} then
      if n < 3 then Bad(MalformedPacket)
      else DirectRegisters(if opcode == SET_CONTEXT_REGISTER then Context
                           else if opcode == SET_SH_REGISTER then Shader else UserConfig, p[1], p[2..])
    else if opcode in {SET_CONTEXT_REGISTER_INDIRECT, SET_SH_REGISTER_INDIRECT, SET_UC_REGISTER_INDIRECT} then
      if n != 5 then Bad(MalformedPacket)
      else IndirectRegisters(if opcode == SET_CONTEXT_REGISTER_INDIRECT then Context
                             else if opcode == SET_SH_REGISTER_INDIRECT then Shader else UserConfig,
                             Join(RoundDown(p[1], 4), p[2]), p[4] % 0x4000)
    else if opcode == SET_BASE then
      if n < 4 then Bad(MalformedPacket) else Plain(SetBase, [p[1], Join(p[2], p[3]), p[0] / 2 % 2], [])
    else if opcode == INDEX_BASE then
      if n < 3 then Bad(MalformedPacket) else Plain(SetIndexBuffer, [Join(p[1], p[2])], [])
    else if opcode == INDEX_BUFFER_SIZE || opcode == INDEX_TYPE then
      if n < 2 then Bad(MalformedPacket)
      else Plain(if opcode == INDEX_TYPE then SetIndexSize else SetIndexCount, [p[1]], [])
    else if opcode == NUM_INSTANCES then
      if n < 2 then Bad(MalformedPacket) else SetInstances(if p[1] == 0 then 1 else p[1])
    else if opcode == DISPATCH_DIRECT then
      if n != 5 then Bad(MalformedPacket) else Plain(Dispatch, [p[1], p[2], p[3], p[4], 0], [])
    else if opcode == DISPATCH_INDIRECT then
      if n == 3 then Plain(Dispatch, [p[1], p[2], 0], [])
      else if n == 4 then Plain(Dispatch, [Join(p[1], p[2]), p[3], 1], [])
      else Bad(MalformedPacket)
    else if IsDraw(opcode) then
      if n < 2 then Bad(MalformedPacket) else Plain(Draw, if n > 9 then p[1..9] else p[1..], [])
    else if opcode == SET_PREDICATION then
      if n < 4 then Bad(MalformedPacket) else Plain(Predication, [Join(RoundDown(p[2], 16), p[3]), p[1]], [])
    else if opcode == WRITE_DATA then DecodeWriteData(p)
    else if opcode == RELEASE_MEMORY then DecodeReleaseMemory(p)
    else if opcode == EVENT_WRITE then
      if n == 2 then Plain(EventWrite, [p[1] % 0x40, 0, p[1]], [])
      else if n == 4 then Plain(EventWrite, [p[1] % 0x40, Join(RoundDown(p[2], 8), p[3]), p[1]], [])
      else Bad(MalformedPacket)
    else if opcode == INDIRECT_BUFFER then DecodeIndirectBuffer(p)
    else if opcode == REWIND then
      if n < 2 then Bad(MalformedPacket) else Plain(Rewind, [p[1]], [])
    else if opcode == GET_LOD_STATS then
      if n != 5 then Bad(MalformedPacket) else Plain(LodStats, [Join(p[2], p[3]), p[1], p[4]], [])
    else Bad(UnsupportedPacket)
  }

  /** Bitwise AND of two words. */
  function And(a: u64, b: u64): (r: u64)
    ensures r <= a && r <= b
  {
    if a == 0 || b == 0 then 0 else 2 * And(a / 2, b / 2) + (if a % 2 == 1 && b % 2 == 1 then 1 else 0)
  }

  function CompareWait(value: u64, reference: u64, mask: u64, function_: u32): bool {
    var masked := And(value, mask);
    match function_
    case 1 => masked < reference
    case 2 => masked <= reference
    case 3 => masked == reference
    case 4 => masked != reference
    case 5 => masked >= reference
    case 6 => masked > reference
    case _ => true
  }
}
