/** What an argument list of a packet builder denotes, and the proof that decoding the built
    packet gives exactly that. */
module PacketRoundTrip {
  import opened Arith
  import opened Words
  import opened GuestMemory
  import opened Pm4
  import opened PacketBuilder
  import MemorySink

  const TWO50: int := 0x4_0000_0000_0000

  function Down(a: u64, align: int): (r: u64)
    requires align > 0
  {
    a - a % align
  }

  lemma JoinParts(a: u64)
    ensures Join(Low(a), High(a)) == a
  {
  }

  /** Clearing low bits of the low half clears them in the whole. */
  lemma JoinDown(a: u64, align: int)
    requires align in {4, 8, 16, 64}
    ensures Join(RoundDown(Low(a), align), High(a)) == Down(a, align)
  {
    ModOfMod(a, align, TWO32 / align);
    assert align * (TWO32 / align) == TWO32;
  }

  /** Waits keep bits 0..49 of their address. */
  lemma JoinWait(a: u64, align: int)
    requires align in {4, 8}
    ensures Join(RoundDown(Low(a), align), High(a) % 0x4_0000) == Down(a % TWO50, align)
  {
    var b := a % TWO50;
    assert a == Low(a) + High(a) * TWO32;
    assert High(b) == High(a) % 0x4_0000 && Low(b) == Low(a) by {
      var q, r := High(a) / 0x4_0000, High(a) % 0x4_0000;
      assert a == (Low(a) + r * TWO32) + q * TWO50;
      assert b == Low(a) + r * TWO32;
    }
    JoinDown(b, align);
  }

  function DenoteSimple(t: AgcType, args: seq<u64>): Instr
    requires t in {SetShRegisterDirect, SetCxRegisterDirect, SetUcRegisterDirect, IndexSize, IndexBuffer, IndexCount,
                   InstanceCount, DispatchIndirect, Jump, RewindPacket, SetPredication, GetLodStats}
  {
    var a1 := Arg(args, 1);
    match t
    case SetShRegisterDirect => DirectRegisters(Shader, a1 % 0x1_0000, [High(a1)])
    case SetCxRegisterDirect => DirectRegisters(Context, a1 % 0x1_0000, [High(a1)])
    case SetUcRegisterDirect => DirectRegisters(UserConfig, a1 % 0x1_0000, [High(a1)])
    case IndexSize => DirectRegisters(UserConfig, 0x2000_0243, [0x400 + a1 % 4 + Arg(args, 2) % 4 * 0x40])
    case IndexBuffer => Plain(SetIndexBuffer, [a1], [])
    case IndexCount => Plain(SetIndexCount, [a1 % TWO32], [])
    case InstanceCount => SetInstances(AtLeastOne(Low(a1)))
    case DispatchIndirect => Plain(Dispatch, [a1 % TWO32, DispatchModifier(Arg32(args, 2)), 0], [])
    case Jump =>
      Call(Down(Arg(args, 3), 4), Arg(args, 4) % 0x10_0000,
           0x0f20_0000 + Arg(args, 2) % 4 * 0x1000_0000 + a1 % 2 * 0x10_0000 + Arg(args, 4) % 0x10_0000)
    case RewindPacket => Plain(Rewind, [a1 % 2 * 0x8000_0000], [])
    case SetPredication =>
      Plain(Predication, [Down(Arg(args, 4), 16),
                          a1 % 2 * 0x100 + Arg(args, 3) % 2 * 0x1000 + Arg(args, 2) % 8 * 0x1_0000], [])
    case GetLodStats =>
      Plain(LodStats, [Down(Arg(args, 2), 64), Arg(args, 3) % TWO32,
                       a1 % 4 * 0x1000_0000 + Arg(args, 6) % 2 * 0x8_0000 + Arg(args, 5) % 2 * 0x4_0000
                       + Arg(args, 4) % 0x100 * 0x400 + Arg(args, 7) % 0x100 * 4], [])
  }

  lemma RegisterRoundTrip(t: AgcType, args: seq<u64>)
    requires t in {SetShRegisterDirect, SetCxRegisterDirect, SetUcRegisterDirect, IndexSize}
    ensures var b := BuildSimple(t, args);
      b.Built? && Decode(b.opcode, b.register, b.words) == DenoteSimple(t, args)
  {
    hide MakeHeader, Join;
    LowFields(Arg(args, 1));
    LowFields(Arg(args, 2));
    var b := BuildSimple(t, args);
    assert b.words[2..] == [b.words[2]];
  }

  lemma IndexRoundTrip(t: AgcType, args: seq<u64>)
    requires t in {IndexBuffer, IndexCount, InstanceCount, DispatchIndirect, RewindPacket}
    ensures var b := BuildSimple(t, args);
      b.Built? ==> Decode(b.opcode, b.register, b.words) == DenoteSimple(t, args)
  {
    hide MakeHeader, Join, DispatchModifier;
    JoinParts(Arg(args, 1));
    LowFields(Arg(args, 1));
  }

  lemma AddressRoundTrip(t: AgcType, args: seq<u64>)
    requires t in {Jump, SetPredication, GetLodStats}
    ensures var b := BuildSimple(t, args);
      b.Built? && Decode(b.opcode, b.register, b.words) == DenoteSimple(t, args)
  {
    hide BuildSimple, Decode, DenoteSimple;
    match t {
      case Jump => JumpRoundTrip(args);
      case SetPredication => PredicationRoundTrip(args);
      case GetLodStats => LodStatsRoundTrip(args);
    }
  }

  lemma JumpRoundTrip(args: seq<u64>)
    ensures var b := BuildSimple(Jump, args);
      b.Built? && Decode(b.opcode, b.register, b.words) == DenoteSimple(Jump, args)
  {
    hide MakeHeader, Join, RoundDown, Down;
    JoinDown(Arg(args, 3), 4);
    LowFields(Arg(args, 1));
    LowFields(Arg(args, 2));
    LowFields(Arg(args, 4));
    JumpControl(Arg32(args, 2), Arg32(args, 1), Arg32(args, 4));
    RoundDownTwice(Arg32(args, 3), 4);
  }

  lemma PredicationRoundTrip(args: seq<u64>)
    ensures var b := BuildSimple(SetPredication, args);
      b.Built? && Decode(b.opcode, b.register, b.words) == DenoteSimple(SetPredication, args)
  {
    hide MakeHeader, Join, RoundDown, Down;
    JoinDown(Arg(args, 4), 16);
    LowFields(Arg(args, 1));
    LowFields(Arg(args, 2));
    LowFields(Arg(args, 3));
    RoundDownTwice(Arg32(args, 4), 16);
  }

  lemma LodStatsRoundTrip(args: seq<u64>)
    ensures var b := BuildSimple(GetLodStats, args);
      b.Built? && Decode(b.opcode, b.register, b.words) == DenoteSimple(GetLodStats, args)
  {
    hide MakeHeader, Join, RoundDown, Down;
    JoinDown(Arg(args, 2), 64);
    LowFields(Arg(args, 1));
    LowFields(Arg(args, 4));
    LowFields(Arg(args, 5));
    LowFields(Arg(args, 6));
    LowFields(Arg(args, 7));
  }

  lemma RoundDownTwice(v: u32, align: int)
    requires align in {4, 8, 16}
    ensures RoundDown(RoundDown(v, align), align) == RoundDown(v, align)
  {
  }

  lemma JumpControl(cache: u32, mode: u32, size: u32)
    ensures (0x0f20_0000 + cache % 4 * 0x1000_0000 + mode % 2 * 0x10_0000 + size % 0x10_0000) % 0x10_0000 == size % 0x10_0000
  {
    ModShift(size % 0x10_0000, 0xf2 + cache % 4 * 0x100 + mode % 2, 0x10_0000);
  }

  /** A field below bit 32 is the same before and after truncation to a word. */
  lemma LowFields(a: u64)
    ensures Low(a) % 2 == a % 2 && Low(a) % 4 == a % 4 && Low(a) % 8 == a % 8
    ensures Low(a) % 0x100 == a % 0x100 && Low(a) % 0x1_0000 == a % 0x1_0000 && Low(a) % 0x10_0000 == a % 0x10_0000
  {
    ModOfMod(a, 2, 0x8000_0000);
    ModOfMod(a, 4, 0x4000_0000);
    ModOfMod(a, 8, 0x2000_0000);
    ModOfMod(a, 0x100, 0x100_0000);
    ModOfMod(a, 0x1_0000, 0x1_0000);
    ModOfMod(a, 0x10_0000, 0x1000);
  }

  // -------------------------------------------------------------------- draws

  function DrawValues(t: AgcType, args: seq<u64>): seq<u64>
    requires t in {DrawIndex, DrawIndexMultiInstanced, DrawIndexAuto, DrawIndexOffset}
  {
    var one, two, three := Arg(args, 1), Arg(args, 2), Arg(args, 3);
    if t == DrawIndex then
      [AtLeastOne(Low(one)), Low(two), High(two), Low(one), DrawIndexInitiator(three)]
    else if t == DrawIndexMultiInstanced then
      [Low(one), Low(two), High(two), AtLeastOne(Arg32(args, 4)), Low(three), High(three), Arg32(args, 4),
       DrawIndexInitiator(Arg(args, 5)) + 0x80]
    else if t == DrawIndexAuto then [Low(one), DrawIndexInitiator(two) + 2]
    else [AtLeastOne(Low(two)), Low(one), Low(two), DrawIndexInitiator(three)]
  }

  lemma DrawRoundTrip(t: AgcType, args: seq<u64>)
    requires t in {DrawIndex, DrawIndexMultiInstanced, DrawIndexAuto, DrawIndexOffset}
    ensures var b := BuildDraw(t, args);
      b.Built? ==> Decode(b.opcode, b.register, b.words) == Plain(Draw, DrawValues(t, args), [])
  {
    hide MakeHeader, DrawIndexInitiator;
    var b := BuildDraw(t, args);
    if b.Built? {
      assert |b.words| <= 9;
      assert b.words[1..] == DrawValues(t, args);
    }
  }

  lemma DispatchRoundTrip(x: u32, y: u32, z: u32, modifier: u32)
    ensures var b := BuildDispatch(x, y, z, modifier);
      && b.Built?
      && Decode(b.opcode, b.register, b.words) == Plain(Dispatch, [x, y, z, DispatchModifier(modifier), 0], [])
  {
    hide MakeHeader, DispatchModifier;
  }

  // -------------------------------------------------------------------- waits

  function DenoteWait(args: seq<u64>): Instr {
    var compare, operation, cache := Arg32(args, 2), Arg32(args, 3), Arg32(args, 4);
    var address, reference, mask, poll := Arg(args, 5) % TWO50, Arg(args, 6), Arg(args, 7), WaitPoll(Arg32(args, 8));
    if Arg32(args, 1) == 0 then
      Wait(Down(address, 4), mask % TWO32, reference % TWO32, Wait32Control(compare, operation, cache), poll, false)
    else Wait(Down(address, 8), mask, reference, Wait64Control(compare, operation, cache), poll, true)
  }

  lemma WaitRoundTrip(args: seq<u64>)
    ensures var b := BuildWait(args);
      b.Built? ==> Decode(b.opcode, b.register, b.words) == DenoteWait(args)
  {
    hide MakeHeader, Join, RoundDown, Down, Wait32Control, Wait64Control, WaitPoll;
    var b := BuildWait(args);
    JoinParts(Arg(args, 6));
    JoinParts(Arg(args, 7));
    if b.Built? {
      JoinWait(Arg(args, 5), if Arg32(args, 1) == 1 then 8 else 4);
    }
  }

  // ------------------------------------------------------------------- events

  function DenoteEvent(args: seq<u64>): Instr
    requires Arg32(args, 1) <= 0x3f
  {
    var kind := Arg32(args, 1);
    Plain(EventWrite, [kind, if kind == 0x38 || kind == 0x39 then Down(Arg(args, 2), 8) else 0, EventControl(kind)], [])
  }

  lemma EventRoundTrip(args: seq<u64>)
    ensures var b := BuildEvent(args);
      b.Built? ==> Arg32(args, 1) <= 0x3f && Decode(b.opcode, b.register, b.words) == DenoteEvent(args)
  {
    hide MakeHeader, Join, Down;
    var b := BuildEvent(args);
    var kind := Arg32(args, 1);
    if b.Built? {
      JoinDown(Arg(args, 2), 8);
      RoundDownTwice(Low(Arg(args, 2)), 8);
      ModShift(kind, 4, 0x40);
      ModShift(kind, 0x10, 0x40);
    }
  }

  // ------------------------------------------------- the unmasked base-address type

  function DenoteBase(args: seq<u64>): Instr { Plain(SetBase, [1, Down(Arg(args, 2), 8), Arg32(args, 1)], []) }

  /** Shifted into the header, the type sets no bit of the register, opcode or length fields
      that is not set already. */
  predicate FitsHeader(shaderType: u32) {
    && shaderType / 2 % 0x40 == 0
    && 2 * shaderType / 0x100 % 0x100 in {0, 1, 0x10, 0x11}
    && FitsLength(shaderType)
  }

  predicate FitsLength(shaderType: u32) { 2 * shaderType % TWO32 / 0x1_0000 % 0x4000 in {0, 2} }

  lemma OrWithOpcode(x: nat)
    requires x < 0x100
    ensures Or(0x11, x) == 0x11 <==> x in {0, 1, 0x10, 0x11}
  {
    hide Or;
    OrHalf(0x11, x);
    OrHalf(8, x / 2);
    OrHalf(4, x / 4);
    OrHalf(2, x / 8);
    OrHalf(1, x / 16);
    OrNothing(x / 32);
  }

  lemma OrWithLength(x: nat)
    requires x < 0x4000
    ensures Or(2, x) == 2 <==> x in {0, 2}
  {
    hide Or;
    OrHalf(2, x);
    OrHalf(1, x / 2);
    OrNothing(x / 4);
  }

  lemma OrNothing(x: nat)
    ensures Or(0, x) == x
  {
  }

  /** A base-address packet is read back as built exactly for the two real types, 0 and 1. */
  lemma BaseRoundTrip(args: seq<u64>)
    ensures var b := BuildBase(args);
      (ParseHeader(b.words[0]) == Type3(SET_BASE, 0, 4) && Decode(SET_BASE, 0, b.words) == DenoteBase(args)) <==>
        Arg32(args, 1) <= 1
  {
    hide Or, Join, RoundDown, Down, ParseHeader;
    var s := Arg32(args, 1);
    var header, shifted := MakeHeader(4, SET_BASE, 0), 2 * s % TWO32;
    assert header == 0xc002_1100;
    JoinDown(Arg(args, 2), 8);
    BaseBit(header, shifted, s);
    BaseHeader(args);
  }

  /** Its header alone survives exactly when the type fits. */
  lemma BaseHeader(args: seq<u64>)
    ensures var h := ParseHeader(BuildBase(args).words[0]);
      && (h == Type3(SET_BASE, 0, 4) <==> FitsHeader(Arg32(args, 1)))
      && h.Type3? && (h.dwords == 4 <==> FitsLength(Arg32(args, 1)))
  {
    hide Or, RoundDown, Pow2;
    var s := Arg32(args, 1);
    var header, shifted := MakeHeader(4, SET_BASE, 0), 2 * s % TWO32;
    assert header == 0xc002_1100;
    BaseFields(header, shifted);
    OrWord(header, shifted);
    OrWithOpcode(shifted / 0x100 % 0x100);
    OrWithLength(shifted / 0x1_0000 % 0x4000);
    ShiftedOpcode(s);
    ShiftedRegister(s);
  }

  lemma ShiftedRegister(s: u32)
    ensures 2 * s % TWO32 / 4 % 0x40 == s / 2 % 0x40
  {
    var q := 2 * s / TWO32;
    ModShift(2 * s % TWO32, q * 0x4000_0000, 4);
    ModShift(2 * s % TWO32 / 4, q * 0x100_0000, 0x40);
  }

  /** Type 2 keeps the opcode and the length, yet reads back with register 1 and as type 0. */
  lemma BaseTypeTwoIsLost()
    ensures var b := BuildBase([0, 2]);
      && ParseHeader(b.words[0]) == Type3(SET_BASE, 1, 4)
      && Decode(SET_BASE, 1, b.words) == Plain(SetBase, [1, 0, 0], [])
  {
    hide BuildBase;
    TypeTwoWords();
  }

  lemma TypeTwoWords()
    ensures BuildBase([0, 2]).words == [0xc002_1104, 1, 0, 0]
  {
    hide Or;
    OrFour();
    assert MakeHeader(4, SET_BASE, 0) == 0xc002_1100;
    var args: seq<u64> := [0, 2];
    assert Arg32(args, 1) == 2 && Arg(args, 2) == 0;
  }

  lemma OrFour()
    ensures Or(0xc002_1100, 4) == 0xc002_1104
  {
    hide Or;
    OrHalf(0xc002_1100, 4);
    OrHalf(0x6001_0880, 2);
    OrHalf(0x3000_8440, 1);
    assert Or(0x1800_4220, 0) == 0x1800_4220 by { OrZero(0x1800_4220); }
  }

  lemma OrZero(a: nat)
    ensures Or(a, 0) == a
  {
  }

  lemma ShiftedOpcode(s: u32)
    ensures 2 * s % TWO32 / 0x100 % 0x100 == 2 * s / 0x100 % 0x100
  {
    var q := 2 * s / TWO32;
    ModShift(2 * s % TWO32, q * 0x100_0000, 0x100);
    ModShift(2 * s % TWO32 / 0x100, q * 0x1_0000, 0x100);
  }

  lemma BaseBit(header: u32, shifted: u32, s: u32)
    requires header == 0xc002_1100 && shifted == 2 * s % TWO32
    ensures Or(header, shifted) / 2 % 2 == s % 2
  {
    hide Or;
    OrHalf(header, shifted);
    OrHalf(header / 2, shifted / 2);
    assert shifted / 2 % 2 == s % 2;
  }

  lemma OrFieldAt(a: nat, b: nat, k: nat, n: nat)
    ensures var p, q := Pow2(k), Pow2(n); Or(a, b) / p % q == Or(a / p % q, b / p % q)
  {
    hide Or, Pow2;
    OrField(a, b, k);
    OrField(a / Pow2(k), b / Pow2(k), n);
  }

  lemma FieldSizes()
    ensures Pow2(2) == 4 && Pow2(6) == 0x40 && Pow2(8) == 0x100 && Pow2(14) == 0x4000 && Pow2(16) == 0x1_0000 && Pow2(30) == 0x4000_0000
  {
    assert Pow2(6) == 0x40;
    assert Pow2(8) == 0x100;
    assert Pow2(16) == 0x1_0000;
    assert Pow2(24) == 0x100_0000;
  }

  lemma BaseFields(header: u32, shifted: u32)
    requires header == 0xc002_1100
    ensures var word := Or(header, shifted);
      && word / 4 % 0x40 == shifted / 4 % 0x40
      && word / 0x100 % 0x100 == Or(0x11, shifted / 0x100 % 0x100)
      && word / 0x1_0000 % 0x4000 == Or(2, shifted / 0x1_0000 % 0x4000)
      && word / 0x4000_0000 % 4 == 3
  {
    hide Or, Pow2;
    FieldSizes();
    OrFieldAt(header, shifted, 2, 6);
    OrNothing(shifted / 4 % 0x40);
    OrFieldAt(header, shifted, 8, 8);
    OrFieldAt(header, shifted, 16, 14);
    OrFieldAt(header, shifted, 30, 2);
    var top := shifted / 0x4000_0000 % 4;
    OrHalf(3, top);
    OrHalf(1, top / 2);
    OrNothing(0);
  }

  // ------------------------------------------------------- memory-writing packets

  function DenoteRelease(args: seq<u64>): Instr
    requires ReleaseOk(args)
  {
    Plain(ReleaseMemory, [Down(ReleaseAddress(args), 4), ReleaseValue(args), ReleaseControl(args), ReleaseSelect(args),
                          Arg32(args, 11) % 0x800_0000], [])
  }

  lemma ReleaseRoundTrip(args: seq<u64>)
    ensures var b := BuildRelease(args);
      b.Built? ==> ReleaseOk(args) && Decode(b.opcode, b.register, b.words) == DenoteRelease(args)
  {
    hide MakeHeader, Join, Down, ReleaseControl, ReleaseSelect, RoundDown;
    if ReleaseOk(args) {
      JoinDown(ReleaseAddress(args), 4);
      JoinParts(ReleaseValue(args));
    }
  }

  /** The denoted release stores what its arguments say: the selected width of the data, at the
      aligned address. */
  lemma ReleaseStores(args: seq<u64>, at: u64)
    requires ReleaseOk(args)
    ensures var i := DenoteRelease(args);
      var selection, address := Arg32(args, 6), Down(Arg(args, 5), 4);
      MemorySink.ReleaseTarget(Action(i.kind, Site(at, 8, NOP, RELEASE_MEMORY_REGISTER), i.values, i.payload, [])) ==
        if selection == 5 then MemorySink.Unsupported
        else if selection == 0 || Arg32(args, 10) == 4 || address == 0 then MemorySink.NoWrite
        else if selection == 1 then MemorySink.Write32(address, Arg32(args, 7))
        else if selection == 2 then MemorySink.Write64(address, Arg(args, 7))
        else MemorySink.WriteTimed(address)
  {
    hide MemorySink.Field, MemorySink.ReleaseTarget, ReleaseControl, ReleaseSelect;
    var i := DenoteRelease(args);
    ReleaseFields(args);
    DownAligned(Arg(args, 5));
    ReleaseResolves(Action(i.kind, Site(at, 8, NOP, RELEASE_MEMORY_REGISTER), i.values, i.payload, []),
                    Arg32(args, 3), Arg32(args, 6));
  }

  lemma DownAligned(address: u64)
    ensures Down(address, 4) % 4 == 0 && Down(0, 4) == 0
  {
  }

  lemma ReleaseFields(args: seq<u64>)
    requires ReleaseOk(args)
    ensures MemorySink.Field(ReleaseControl(args), 0x100, 8) in {5, 6}
    ensures MemorySink.Field(ReleaseSelect(args), 0x1_0000, 4) == Arg32(args, 3)
    ensures MemorySink.Field(ReleaseSelect(args), 0x2000_0000, 8) == Arg32(args, 6)
  {
    hide GcrControl, MemorySink.Field;
    var action := Arg32(args, 1);
    ControlField(action % 0x40, if action >= 0x2f then 6 else 5, GcrControl(Arg32(args, 2)) % 0x1000, Arg32(args, 4) % 4);
    SelectFields(Arg32(args, 3), Arg32(args, 10), Arg32(args, 6));
  }

  lemma ControlField(action: int, index: int, gcr: int, cache: int)
    requires 0 <= action < 0x40 && 0 <= index < 8 && 0 <= gcr < 0x1000 && 0 <= cache < 4
    ensures MemorySink.Field(action + index * 0x100 + gcr * 0x1000 + cache * 0x200_0000, 0x100, 8) == index
  {
    var one := action + index * 0x100 + gcr * 0x1000 + cache * 0x200_0000;
    DivModUnique(one, 0x100, index + gcr * 0x10 + cache * 0x2_0000, action);
    ModShift(index, gcr * 2 + cache * 0x4000, 8);
  }

  lemma SelectFields(destination: int, interrupt: int, selection: int)
    requires 0 <= destination < 4 && 0 <= interrupt < 8 && 0 <= selection < 8
    ensures var two := destination * 0x1_0000 + interrupt * 0x100_0000 + selection * 0x2000_0000;
      && MemorySink.Field(two, 0x1_0000, 4) == destination
      && MemorySink.Field(two, 0x2000_0000, 8) == selection
  {
    var two := destination * 0x1_0000 + interrupt * 0x100_0000 + selection * 0x2000_0000;
    DivModUnique(two, 0x1_0000, destination + interrupt * 0x100 + selection * 0x2000, 0);
    ModShift(destination, interrupt * 0x40 + selection * 0x800, 4);
    DivModUnique(two, 0x2000_0000, selection, destination * 0x1_0000 + interrupt * 0x100_0000);
  }

  lemma ReleaseResolves(a: Action, destination: u32, selection: u32)
    requires |a.values| == 5 && a.site.opcode == NOP && a.site.register == RELEASE_MEMORY_REGISTER
    requires MemorySink.Field(a.values[2], 0x100, 8) in {5, 6}
    requires MemorySink.Field(a.values[3], 0x1_0000, 4) == destination <= 1
    requires MemorySink.Field(a.values[3], 0x2000_0000, 8) == selection
    requires selection <= 3 || selection == 5
    requires a.values[0] % 4 == 0
    ensures MemorySink.ReleaseTarget(a) ==
      if selection == 5 then MemorySink.Unsupported
      else if selection == 0 || a.values[0] == 0 then MemorySink.NoWrite
      else if selection == 1 then MemorySink.Write32(a.values[0], Low(a.values[1]))
      else if selection == 2 then MemorySink.Write64(a.values[0], a.values[1])
      else MemorySink.WriteTimed(a.values[0])
  {
    hide MemorySink.Field;
  }

  /** A write carries the words that were in memory at its source. */
  function WritePayload(m: Memory, args: seq<u64>): seq<u32>
    requires Arg32(args, 5) > 0 ==> m.CanRead(Arg(args, 4), 4 * Arg32(args, 5))
  {
    if Arg32(args, 5) == 0 then [] else DecodeWords(m.Bytes(Arg(args, 4), 4 * Arg32(args, 5)))
  }

  function DenoteWriteData(m: Memory, args: seq<u64>): Instr
    requires Arg32(args, 5) > 0 ==> m.CanRead(Arg(args, 4), 4 * Arg32(args, 5))
  {
    var data := WritePayload(m, args);
    Plain(WriteData, [Down(Arg(args, 3), 4), WriteControl(args), Arg32(args, 5),
                      if |data| > 0 then data[0] else 0, if |data| > 1 then data[1] else 0], data)
  }

  lemma WriteDataRoundTrip(m: Memory, args: seq<u64>)
    ensures var b := BuildWriteData(m, args);
      b.Built? ==>
        && |b.words| == Arg32(args, 5) + 4
        && (Arg32(args, 5) > 0 ==> m.CanRead(Arg(args, 4), 4 * Arg32(args, 5)))
        && Decode(b.opcode, b.register, b.words) == DenoteWriteData(m, args)
  {
    hide MakeHeader, Join, DecodeWords, RoundDown, WriteControl;
    var b := BuildWriteData(m, args);
    if b.Built? {
      JoinDown(Arg(args, 3), 4);
      EmptyWords();
      var data := WritePayload(m, args);
      assert b.words[4..] == data;
    }
  }

  lemma EmptyWords()
    ensures DecodeWords([]) == []
  {
  }
}
