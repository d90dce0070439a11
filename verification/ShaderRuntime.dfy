/** Registration of guest shader images: a planned set of guest-memory patches, applied all or
    not at all, and the two indexes that are swapped in afterwards. */
module ShaderRuntime {
  import opened Words
  import opened GuestMemory
  import opened ShaderIndex

  datatype Status = Ok | InvalidArgument | MemoryFault

  type Failure = s: Status | s != Ok witness InvalidArgument

  datatype Attempt<+T> = Done(value: T) | Fail(status: Failure) {
    predicate IsFailure() { Fail? }
    function PropagateFailure<U>(): Attempt<U> requires Fail? { Fail(status) }
    function Extract(): T requires Done? { value }
  }

  datatype Mutation = Mutation(address: u64, value: seq<byte>)

  const HEADER_BYTES := 0x60
  const USER_DATA_BYTES := 0x28
  const MAXIMUM_SHADER_BYTES := 16 * 1024 * 1024
  const MAXIMUM_INPUT_SEMANTICS := 32

  const HEADER_POINTERS: seq<nat> := [0x08, 0x18, 0x20, 0x28, 0x30, 0x38]
  const USER_DATA_POINTERS: seq<nat> := [0x00, 0x08, 0x10, 0x18, 0x20]

  predicate Encodable(address: u64) { address % 0x100 == 0 && address < 0x1_0000_0000_0000 }

  function Word(b: seq<byte>, offset: nat): u32
    requires offset + 4 <= |b|
  {
    Decode32(b[offset..offset + 4])
  }

  function Quad(b: seq<byte>, offset: nat): u64
    requires offset + 8 <= |b|
  {
    Decode64(b[offset..offset + 8])
  }

  // ------------------------------------------------------------- planned patches

  /** Two byte ranges meet, or one of them runs past the end of the address space. */
  predicate RangesOverlap(a: u64, n: nat, b: u64, k: nat) {
    a + n >= TWO64 || b + k >= TWO64 || (a < b + k && b < a + n)
  }

  function AddMutation(plan: seq<Mutation>, address: u64, value: seq<byte>): (r: Attempt<seq<Mutation>>)
    ensures r.Fail? ==> r.status == InvalidArgument
  {
    if value == [] || exists i :: 0 <= i < |plan| && RangesOverlap(address, |value|, plan[i].address, |plan[i].value|)
    then Fail(InvalidArgument)
    else Done(plan + [Mutation(address, value)])
  }

  function AddAddress(a: u64, b: u64): Attempt<u64> {
    if a + b < TWO64 then Done(a + b) else Fail(InvalidArgument)
  }

  predicate Fits(bytes: seq<byte>, offsets: seq<nat>) {
    |bytes| < TWO64 && forall i :: 0 <= i < |offsets| ==> offsets[i] + 8 <= |bytes|
  }

  datatype Relocation = Relocation(plan: seq<Mutation>, pointers: seq<u64>)

  /** Turns the non-zero self-relative pointers of a structure into absolute ones. */
  function Relocate(plan: seq<Mutation>, base: u64, bytes: seq<byte>, offsets: seq<nat>): (r: Attempt<Relocation>)
    requires Fits(bytes, offsets)
    ensures r.Done? ==> |r.value.pointers| == |offsets|
    decreases |offsets|
  {
    if offsets == [] then Done(Relocation(plan, []))
    else
      var last := offsets[|offsets| - 1];
      var before :- Relocate(plan, base, bytes, offsets[..|offsets| - 1]);
      var field :- AddAddress(base, last);
      var relative := Quad(bytes, last);
      if relative == 0 then Done(before.(pointers := before.pointers + [0]))
      else
        var pointer :- AddAddress(field, relative);
        var extended :- AddMutation(before.plan, field, Encode64(pointer));
        Done(Relocation(extended, before.pointers + [pointer]))
  }

  // -------------------------------------------------------- program register pairs

  datatype Pair = Pair(lo: u32, hi: u32)

  function PairForType(binaryType: byte): Option<Pair> {
    match binaryType
    case 0 => Some(Pair(0x20c, 0x20d))
    case 1 => Some(Pair(0x008, 0x009))
    case 2 => Some(Pair(0x0c8, 0x0c9))
    case 3 => Some(Pair(0x148, 0x149))
    case 4 => Some(Pair(0x088, 0x089))
    case 5 => Some(Pair(0x108, 0x109))
    case 6 => Some(Pair(0x088, 0x089))
    case 7 => Some(Pair(0x108, 0x109))
    case _ => None
  }

  predicate IsFrontTableStart(binaryType: byte, first: u32) {
    (binaryType == 5 && (first == 0x10a || first == 0x108)) || (binaryType == 4 && (first == 0x08a || first == 0x088))
  }

  datatype Entry = Entry(address: u64, offset: u32, value: u32)

  function ReadTable(m: Memory, address: u64, count: nat): (r: Option<seq<Entry>>)
    ensures r.Some? ==> |r.value| == count
  {
    if count == 0 then Some([])
    else
      var at := address + 8 * (count - 1);
      match ReadTable(m, address, count - 1)
      case None => None
      case Some(entries) =>
        if at >= TWO64 then None
        else
          match m.Read(at, 8)
          case None => None
          case Some(b) => Some(entries + [Entry(at, Word(b, 0), Word(b, 4))])
  }

  /** The last entry for a register. */
  function LastWith(entries: seq<Entry>, offset: u32): (r: Option<nat>)
    ensures r.Some? ==> r.value < |entries| && entries[r.value].offset == offset
    ensures r.None? <==> forall i :: 0 <= i < |entries| ==> entries[i].offset != offset
    ensures r.Some? ==> forall i :: r.value < i < |entries| ==> entries[i].offset != offset
  {
    if entries == [] then None
    else if entries[|entries| - 1].offset == offset then Some(|entries| - 1)
    else LastWith(entries[..|entries| - 1], offset)
  }

  /** The first entry for a register, not looking at one position. */
  function FirstWith(entries: seq<Entry>, offset: u32, from: nat, skip: nat): (r: Option<nat>)
    requires from <= |entries|
    ensures r.Some? ==> r.value < |entries| && r.value != skip && entries[r.value].offset == offset
    ensures forall i :: from <= i < (if r.Some? then r.value else |entries|) && i != skip ==> entries[i].offset != offset
    decreases |entries| - from
  {
    if from == |entries| then None
    else if from != skip && entries[from].offset == offset then Some(from)
    else FirstWith(entries, offset, from + 1, skip)
  }

  function KnownHi(lo: u32, expected: Pair): Option<u32> {
    if lo == expected.lo then None
    else if lo in {0x20c, 0x008, 0x048, 0x0c8, 0x088, 0x108, 0x148} then Some(lo + 1) else None
  }

  /** Another entry holds the high register of the known pair that this entry starts. */
  predicate HasPartner(entries: seq<Entry>, expected: Pair, i: nat)
    requires i < |entries|
  {
    var hi := KnownHi(entries[i].offset, expected);
    hi.Some? && exists j :: 0 <= j < |entries| && j != i && entries[j].offset == hi.value
  }

  datatype Found = Found(lo: nat, hi: nat)

  /** Where another stage's pair stands, in table order of its low register; the entry right
      after it is preferred for the high one. */
  function FindFallback(entries: seq<Entry>, expected: Pair, from: nat): (r: Option<Found>)
    requires from <= |entries|
    ensures r.Some? ==>
      && from <= r.value.lo < |entries| && r.value.hi < |entries| && r.value.lo != r.value.hi
      && KnownHi(entries[r.value.lo].offset, expected) == Some(entries[r.value.hi].offset)
    ensures forall i :: from <= i < (if r.Some? then r.value.lo else |entries|) ==> !HasPartner(entries, expected, i)
    ensures r.Some? && r.value.hi != r.value.lo + 1 ==>
      && (r.value.lo + 1 < |entries| ==> entries[r.value.lo + 1].offset != entries[r.value.hi].offset)
      && (forall j :: 0 <= j < r.value.hi && j != r.value.lo ==> entries[j].offset != entries[r.value.hi].offset)
    decreases |entries| - from
  {
    if from == |entries| then None
    else
      match KnownHi(entries[from].offset, expected)
      case None => FindFallback(entries, expected, from + 1)
      case Some(hi) =>
        if from + 1 < |entries| && entries[from + 1].offset == hi then Some(Found(from, from + 1))
        else
          match FirstWith(entries, hi, 0, from)
          case Some(at) => Some(Found(from, at))
          case None => FindFallback(entries, expected, from + 1)
  }

  function FindPair(entries: seq<Entry>, expected: Pair): (r: Option<Found>)
    ensures r.Some? ==>
      && r.value.lo < |entries| && r.value.hi < |entries|
      && entries[r.value.lo].offset == expected.lo && entries[r.value.hi].offset == expected.hi
      && (forall i :: r.value.lo < i < |entries| ==> entries[i].offset != expected.lo)
      && (forall i :: r.value.hi < i < |entries| ==> entries[i].offset != expected.hi)
    ensures r.None? ==> forall i, j :: 0 <= i < |entries| && 0 <= j < |entries| ==>
      entries[i].offset != expected.lo || entries[j].offset != expected.hi
  {
    var lo, hi := LastWith(entries, expected.lo), LastWith(entries, expected.hi);
    if lo.Some? && hi.Some? then Some(Found(lo.value, hi.value)) else None
  }

  // ---------------------------------------------------------------------- planning

  datatype Program = Program(address: u64, offset: u64, bound: bool)

  datatype Patch = Patch(plan: seq<Mutation>, program: Program)

  /** The pair's two register values for a program address; the high register keeps its upper bits. */
  function LowRegister(program: u64): u32 { program / 0x100 % TWO32 }

  function HighRegister(value: u32, program: u64): u32 {
    value - value % 0x100 + program / 0x100_0000_0000 % 0x100
  }

  /** The program address the image's register pair encodes, written back into the pair. */
  function PatchProgram(plan: seq<Mutation>, lo: Entry, hi: Entry, code: u64, codeSize: u32): (r: Attempt<Patch>)
    ensures r.Done? ==> r.value.program.address == code + r.value.program.offset && Encodable(r.value.program.address)
    ensures r.Done? ==> (r.value.program.bound <==> r.value.program.offset < codeSize)
  {
    var offset := ProgramAddress(lo.value, hi.value);
    var loAt :- AddAddress(lo.address, 4);
    var hiAt :- AddAddress(hi.address, 4);
    var program :- AddAddress(code, offset);
    if !Encodable(program) then Fail(InvalidArgument) else
    var one :- AddMutation(plan, loAt, Encode32(LowRegister(program)));
    var two :- AddMutation(one, hiAt, Encode32(HighRegister(hi.value, program)));
    Done(Patch(two, Program(program, offset, offset < codeSize)))
  }

  function PlanProgram(plan: seq<Mutation>, m: Memory, table: u64, count: nat, binaryType: byte, code: u64, codeSize: u32)
    : (r: Attempt<Patch>)
    ensures r.Done? && r.value.program.bound ==>
      && r.value.program.address == code + r.value.program.offset && Encodable(r.value.program.address)
      && r.value.program.offset < codeSize
  {
    hide Encodable, ReadTable, FindPair, FindFallback, PatchProgram;
    match PairForType(binaryType)
    case None => Done(Patch(plan, Program(0, 0, false)))
    case Some(expected) =>
      if table == 0 || count < 2 then Fail(InvalidArgument) else
      match ReadTable(m, table, count)
      case None => Fail(MemoryFault)
      case Some(entries) =>
        var preferred := FindPair(entries, expected);
        match if preferred.Some? then preferred else FindFallback(entries, expected, 0)
        case None =>
          if IsFrontTableStart(binaryType, entries[0].offset) then Done(Patch(plan, Program(0, 0, false)))
          else Fail(InvalidArgument)
        case Some(found) => PatchProgram(plan, entries[found.lo], entries[found.hi], code, codeSize)
  }

  datatype Header = Header(bytes: seq<byte>, codeSize: u32, binaryType: byte, semantics: u32)

  /** The fixed fields of a shader header, once the image they describe is known to be readable. */
  function CheckHeader(m: Memory, header: u64, code: u64): (r: Attempt<Header>)
    ensures r.Done? ==> |r.value.bytes| == HEADER_BYTES && r.value.codeSize > 0
  {
    match m.Read(header, HEADER_BYTES)
    case None => Fail(MemoryFault)
    case Some(h) =>
      var codeSize, binaryType, semantics := Word(h, 0x44), h[0x5a], Word(h, 0x50);
      if Word(h, 0x00) != 0x34333231 || Word(h, 0x04) != 0x18 then Fail(InvalidArgument)
      else if codeSize == 0 || codeSize > MAXIMUM_SHADER_BYTES || codeSize % 4 != 0 then Fail(InvalidArgument)
      else if !m.CanRead(code, codeSize) then Fail(MemoryFault)
      else if binaryType > 8 || semantics > MAXIMUM_INPUT_SEMANTICS then Fail(InvalidArgument)
      else Done(Header(h, codeSize, binaryType, semantics))
  }

  /** The patches of the header and of the user data it points to. */
  function PlanPointers(m: Memory, header: u64, code: u64, h: Header): (r: Attempt<Relocation>)
    requires |h.bytes| == HEADER_BYTES
    ensures r.Done? ==> |r.value.pointers| == 6
  {
    var pointers :- Relocate([], header, h.bytes, HEADER_POINTERS);
    var codeField :- AddAddress(header, 0x10);
    var withCode :- AddMutation(pointers.plan, codeField, Encode64(code));
    var withUser :- PlanUserData(withCode, m, pointers.pointers[0]);
    var semantics := pointers.pointers[4];
    if h.semantics != 0 && (semantics == 0 || !m.CanRead(semantics, 4 * h.semantics)) then Fail(MemoryFault)
    else Done(pointers.(plan := withUser))
  }

  datatype Planned = Planned(plan: seq<Mutation>, record: RegisteredShader)

  /** Everything `CreateShader` decides from memory alone, before it writes anything. */
  function Plan(m: Memory, destination: u64, header: u64, code: u64): (r: Attempt<Planned>)
    ensures r.Done? ==> r.value.record.codeAddress == code && r.value.record.headerAddress == header
    ensures r.Done? && r.value.record.hasProgramBinding ==>
      var record := r.value.record;
      && record.programAddress == code + record.programOffset && Encodable(record.programAddress)
      && record.programOffset < record.codeSize
    ensures r.Done? ==> forall i :: 0 <= i < |r.value.plan| ==> Patchable(m, r.value.plan[i])
  {
    hide CheckHeader, PlanPointers, PlanProgram, AddMutation, Patchable, Encodable, Encode64;
    var h :- CheckHeader(m, header, code);
    var pointers :- PlanPointers(m, header, code, h);
    var patch :- PlanProgram(pointers.plan, m, pointers.pointers[2], h.bytes[0x5c], h.binaryType, code, h.codeSize);
    var plan :- if destination == 0 then Done(patch.plan) else AddMutation(patch.plan, destination, Encode64(header));
    if exists i :: 0 <= i < |plan| && !Patchable(m, plan[i]) then Fail(MemoryFault)
    else
      Done(Planned(plan, RegisteredShader(code, patch.program.address, header, patch.program.offset, h.codeSize,
                                          h.binaryType, patch.program.bound, pointers.pointers[0],
                                          pointers.pointers[4], h.semantics)))
  }

  function PlanUserData(plan: seq<Mutation>, m: Memory, userData: u64): Attempt<seq<Mutation>> {
    if userData == 0 then Done(plan)
    else
      match m.Read(userData, USER_DATA_BYTES)
      case None => Fail(MemoryFault)
      case Some(b) =>
        var r :- Relocate(plan, userData, b, USER_DATA_POINTERS);
        Done(r.plan)
  }

  /** A patched range must be writable, and readable so that it can be restored. */
  predicate Patchable(m: Memory, x: Mutation) { m.CanWrite(x.address, |x.value|) && m.CanRead(x.address, |x.value|) }
}
