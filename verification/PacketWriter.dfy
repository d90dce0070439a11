/** Appending packets to a guest command buffer, and what the decoder then finds there. */
module PacketWriter {
  import opened Words
  import opened GuestMemory
  import opened Pm4
  import P = CommandProcessor
  import opened PacketBuilder

  const CURSOR_UP := 0x10
  const CURSOR_DOWN := 0x18
  const CALLBACK := 0x20
  const RESERVED := 0x30
  const STRUCT_BYTES := 0x38

  datatype BufferState = BufferState(up: u64, down: u64, callback: u64, reserved: u32)

  function ReadState(m: Memory, buffer: u64): Option<BufferState> {
    var up, down, callback, reserved :=
      m.Read64(buffer + CURSOR_UP), m.Read64(buffer + CURSOR_DOWN), m.Read64(buffer + CALLBACK),
      m.Read32(buffer + RESERVED);
    if up.Some? && down.Some? && callback.Some? && reserved.Some?
    then Some(BufferState(up.value, down.value, callback.value, reserved.value)) else None
  }

  /** The whole words between the cursors, less the reserved ones. */
  function Usable(s: BufferState): (r: nat)
    requires s.up <= s.down
    ensures r > 0 ==> s.up + 4 * r + 4 * s.reserved <= s.down
  {
    var available: int := (s.down - s.up) / 4;
    if available > s.reserved then available - s.reserved else 0
  }

  datatype Appended = Appended(memory: Memory, at: u64) | Refused(status: BuildStatus)

  function Append(m: Memory, buffer: u64, packet: seq<u32>): Appended {
    if buffer == 0 || |packet| < 2 || |packet| > MAXIMUM_PACKET_DWORDS then Refused(BadArgument)
    else if buffer + RESERVED >= TWO64 then Refused(Fault)
    else
      match ReadState(m, buffer)
      case None => Refused(Fault)
      case Some(s) =>
        if s.up == 0 || s.down <= s.up || s.up % 4 != 0 || s.down % 4 != 0 then Refused(BufferTooSmall)
        else
          if |packet| > Usable(s) then Refused(if s.callback != 0 then CallbackRequired else BufferTooSmall)
          else
            var next := s.up + 4 * |packet|;
            if next >= TWO64 || !m.CanWrite(s.up, 4 * |packet|) || !m.CanWrite(buffer + CURSOR_UP, 8) then Refused(Fault)
            else Appended(m.Store(s.up, EncodeWords(packet)).Store(buffer + CURSOR_UP, Encode64(next)), s.up)
  }

  class CommandBufferWriter {
    var memory: Memory

    constructor (memory: Memory)
      ensures this.memory == memory
    {
      this.memory := memory;
    }

    /** Serialises the words of a packet. */
    method PacketBytes(packet: seq<u32>) returns (bytes: seq<byte>)
      ensures bytes == EncodeWords(packet)
    {
      hide Encode32;
      bytes := [];
      var index := 0;
      assert packet[0..] == packet;
      while index < |packet|
        invariant 0 <= index <= |packet|
        invariant bytes + EncodeWords(packet[index..]) == EncodeWords(packet)
      {
        assert packet[index..][1..] == packet[index + 1..];
        assert bytes + (Encode32(packet[index]) + EncodeWords(packet[index + 1..])) ==
               (bytes + Encode32(packet[index])) + EncodeWords(packet[index + 1..]);
        bytes := bytes + Encode32(packet[index]);
        index := index + 1;
      }
      assert packet[index..] == [];
      assert bytes + [] == bytes;
    }

    method AppendPacket(buffer: u64, packet: seq<u32>) returns (status: BuildStatus, at: u64)
      modifies this
      ensures match Append(old(memory), buffer, packet)
        case Refused(s) => status == s && at == 0 && memory == old(memory)
        case Appended(m, a) => status == Ok && at == a && memory == m
    {
      hide Encode32, Encode64, EncodeWords, ReadState, Memory.CanWrite, Memory.CanRead, Memory.Store;
      if buffer == 0 || |packet| < 2 || |packet| > MAXIMUM_PACKET_DWORDS {
        return BadArgument, 0;
      }
      if buffer + RESERVED >= TWO64 {
        return Fault, 0;
      }
      var state := ReadState(memory, buffer);
      if state.None? {
        return Fault, 0;
      }
      var s := state.value;
      if s.up == 0 || s.down <= s.up || s.up % 4 != 0 || s.down % 4 != 0 {
        return BufferTooSmall, 0;
      }
      if |packet| > Usable(s) {
        return if s.callback != 0 then CallbackRequired else BufferTooSmall, 0;
      }
      var next := s.up + 4 * |packet|;
      if next >= TWO64 || !memory.CanWrite(s.up, 4 * |packet|) || !memory.CanWrite(buffer + CURSOR_UP, 8) {
        return Fault, 0;
      }
      var bytes := PacketBytes(packet);
      memory := memory.Store(s.up, bytes);
      memory := memory.Store(buffer + CURSOR_UP, Encode64(next));
      return Ok, s.up;
    }
  }

  // ------------------------------------------------------------- one append

  /** The packet area and the structure that describes it do not meet. */
  predicate Separate(buffer: u64, s: BufferState) {
    s.up <= s.down && Disjoint(buffer, STRUCT_BYTES, s.up, s.down - s.up)
  }

  /** What an append does: two stores, the packet and then the cursor field. */
  lemma AppendStores(m: Memory, buffer: u64, packet: seq<u32>)
    requires Append(m, buffer, packet).Appended?
    ensures ReadState(m, buffer).Some?
    ensures var s := ReadState(m, buffer).value; var next := s.up + 4 * |packet|;
      && next < TWO64 && next + 4 * s.reserved <= s.down && m.CanWrite(buffer + CURSOR_UP, 8)
      && Append(m, buffer, packet) == Appended(m.Store(s.up, EncodeWords(packet)).Store(buffer + CURSOR_UP, Encode64(next)), s.up)
  {
    hide EncodeWords, Encode64, Memory.CanWrite, Memory.CanRead, Memory.Store, Memory.Read, ReadState, Usable;
  }

  /** The room an append needs: the packet and the reserved words fit below the down cursor. */
  lemma RoomExactly(s: BufferState, n: nat)
    requires 0 < n && s.up <= s.down
    ensures n <= Usable(s) <==> s.up + 4 * (n + s.reserved) <= s.down
  {
  }

  /** Exactly which appends succeed, and the reason given for every other one. */
  lemma AppendExactly(m: Memory, buffer: u64, packet: seq<u32>)
    ensures var r, n := Append(m, buffer, packet), |packet|;
      var up, down, callback, reserved :=
        m.Read64(buffer + 0x10), m.Read64(buffer + 0x18), m.Read64(buffer + 0x20), m.Read32(buffer + 0x30);
      if buffer == 0 || n < 2 || n > 0x4001 then r == Refused(BadArgument)
      else if buffer + 0x30 >= TWO64 || up.None? || down.None? || callback.None? || reserved.None? then r == Refused(Fault)
      else if up.value == 0 || down.value <= up.value || up.value % 4 != 0 || down.value % 4 != 0 then
        r == Refused(BufferTooSmall)
      else if up.value + 4 * (n + reserved.value) > down.value then
        r == Refused(if callback.value == 0 then BufferTooSmall else CallbackRequired)
      else if !m.CanWrite(up.value, 4 * n) || !m.CanWrite(buffer + 0x10, 8) then r == Refused(Fault)
      else r.Appended?
  {
    hide EncodeWords, Encode64, Memory.CanWrite, Memory.CanRead, Memory.Store, Memory.Read64, Memory.Read32, Usable;
    var s := ReadState(m, buffer);
    if s.Some? && s.value.up <= s.value.down && |packet| > 0 {
      RoomExactly(s.value, |packet|);
    }
  }

  /** An append advances the cursor over its packet, stays clear of the reserved words, leaves
      the other fields alone and touches no other memory. */
  lemma AppendStep(m: Memory, buffer: u64, packet: seq<u32>)
    requires Append(m, buffer, packet).Appended?
    requires Separate(buffer, ReadState(m, buffer).value)
    ensures var s := ReadState(m, buffer).value;
      var m' := Append(m, buffer, packet).memory;
      && ReadState(m', buffer) == Some(s.(up := s.up + 4 * |packet|))
      && Append(m, buffer, packet).at == s.up
      && s.up + 4 * |packet| + 4 * s.reserved <= s.down
      && (m.CanRead(s.up, 4 * |packet|) ==> m'.Read(s.up, 4 * |packet|) == Some(EncodeWords(packet)))
      && (forall a: int, n: nat :: Disjoint(s.up, 4 * |packet|, a, n) && Disjoint(buffer, STRUCT_BYTES, a, n) ==>
            m'.Read(a, n) == m.Read(a, n))
      && (forall a: int, n: nat :: m'.CanRead(a, n) == m.CanRead(a, n))
  {
    hide Append, EncodeWords, Encode64, Memory.CanWrite, Memory.CanRead, Memory.Store, Memory.Read, ReadState;
    AppendStores(m, buffer, packet);
    var s := ReadState(m, buffer).value;
    StoresLand(m, buffer, s, EncodeWords(packet), s.up + 4 * |packet|);
  }

  lemma StoresLand(m: Memory, buffer: u64, s: BufferState, words: seq<byte>, next: u64)
    requires ReadState(m, buffer) == Some(s) && Separate(buffer, s) && s.up + |words| <= s.down
    ensures var m' := m.Store(s.up, words).Store(buffer + CURSOR_UP, Encode64(next));
      && ReadState(m', buffer) == Some(s.(up := next))
      && (m.CanRead(s.up, |words|) ==> m'.Read(s.up, |words|) == Some(words))
      && (forall a: int, n: nat :: Disjoint(s.up, |words|, a, n) && Disjoint(buffer, STRUCT_BYTES, a, n) ==>
            m'.Read(a, n) == m.Read(a, n))
      && (forall a: int, n: nat :: m'.CanRead(a, n) == m.CanRead(a, n))
  {
    hide Encode64, Memory.CanWrite, Memory.CanRead, Memory.Store, Memory.Read, ReadState;
    var m1 := m.Store(s.up, words);
    var m2 := m1.Store(buffer + CURSOR_UP, Encode64(next));
    Elsewhere(m, s.up, words, buffer + CURSOR_UP, Encode64(next));
    StateReadable(m, buffer);
    StoreKeepsAccess(m, s.up, words, buffer + CURSOR_UP, 8);
    ReadStored(m1, buffer + CURSOR_UP, Encode64(next));
    StateAfter(m, m2, buffer, next);
    if m.CanRead(s.up, |words|) {
      ReadStored(m, s.up, words);
      ReadElsewhere(m1, buffer + CURSOR_UP, Encode64(next), s.up, |words|);
    }
  }

  lemma StateReadable(m: Memory, buffer: u64)
    requires ReadState(m, buffer).Some?
    ensures m.CanRead(buffer + CURSOR_UP, 8)
  {
  }

  /** The structure after its cursor field was rewritten. */
  lemma StateAfter(m: Memory, m': Memory, buffer: u64, next: u64)
    requires ReadState(m, buffer).Some?
    requires m'.Read(buffer + CURSOR_UP, 8) == Some(Encode64(next))
    requires m'.Read(buffer + CURSOR_DOWN, 8) == m.Read(buffer + CURSOR_DOWN, 8)
    requires m'.Read(buffer + CALLBACK, 8) == m.Read(buffer + CALLBACK, 8)
    requires m'.Read(buffer + RESERVED, 4) == m.Read(buffer + RESERVED, 4)
    ensures ReadState(m', buffer) == Some(ReadState(m, buffer).value.(up := next))
  {
    hide Encode64, Decode64, Decode32, Memory.Read;
    Decode64Encode64(next);
  }

  lemma Elsewhere(m: Memory, at: int, words: seq<byte>, field: int, next: seq<byte>)
    ensures var m' := m.Store(at, words).Store(field, next);
      && (forall a: int, n: nat :: Disjoint(at, |words|, a, n) && Disjoint(field, |next|, a, n) ==>
            m'.Read(a, n) == m.Read(a, n))
      && (forall a: int, n: nat :: m'.CanRead(a, n) == m.CanRead(a, n))
  {
    var m1 := m.Store(at, words);
    var m' := m1.Store(field, next);
    forall a: int, n: nat ensures m'.CanRead(a, n) == m.CanRead(a, n) {
      StoreKeepsAccess(m, at, words, a, n);
      StoreKeepsAccess(m1, field, next, a, n);
    }
    forall a: int, n: nat | Disjoint(at, |words|, a, n) && Disjoint(field, |next|, a, n)
      ensures m'.Read(a, n) == m.Read(a, n)
    {
      ReadElsewhere(m, at, words, a, n);
      ReadElsewhere(m1, field, next, a, n);
    }
  }

  // ---------------------------------------------------------- many appends

  datatype AllAppended = AllAppended(memory: Memory) | SomeRefused

  function AppendAll(m: Memory, buffer: u64, packets: seq<seq<u32>>): AllAppended
    decreases |packets|
  {
    if packets == [] then AllAppended(m)
    else
      match Append(m, buffer, packets[0])
      case Refused(_) => SomeRefused
      case Appended(m', _) => AppendAll(m', buffer, packets[1..])
  }

  function Flatten(packets: seq<seq<u32>>): seq<u32> {
    if packets == [] then [] else packets[0] + Flatten(packets[1..])
  }

  lemma {:induction false} EncodeWordsConcat(a: seq<u32>, b: seq<u32>)
    ensures EncodeWords(a + b) == EncodeWords(a) + EncodeWords(b)
  {
    hide Encode32;
    if a == [] {
      assert a + b == b;
    } else {
      assert (a + b)[1..] == a[1..] + b;
      EncodeWordsConcat(a[1..], b);
      assert Encode32(a[0]) + (EncodeWords(a[1..]) + EncodeWords(b)) == (Encode32(a[0]) + EncodeWords(a[1..])) + EncodeWords(b);
    }
  }

  lemma ReadConcat(m: Memory, a: int, n: nat, k: nat)
    requires m.Read(a, n).Some? && m.Read(a + n, k).Some?
    ensures m.Read(a, n + k) == Some(m.Read(a, n).value + m.Read(a + n, k).value)
  {
    forall x: int | a <= x < a + (n + k) ensures x in m.cells && m.cells[x].canRead {
      assert a <= x < a + n || a + n <= x < a + n + k;
    }
    assert m.Bytes(a, n + k) == m.Bytes(a, n) + m.Bytes(a + n, k);
  }

  lemma ReadPart(m: Memory, a: int, n: nat, at: nat, k: nat)
    requires m.Read(a, n).Some? && at + k <= n
    ensures m.Read(a + at, k) == Some(m.Read(a, n).value[at..at + k])
  {
    assert m.Bytes(a + at, k) == m.Bytes(a, n)[at..at + k];
  }

  /** What is true of the memory after a run of appends that all succeeded. */
  ghost predicate Written(m: Memory, m': Memory, buffer: u64, packets: seq<seq<u32>>)
    requires ReadState(m, buffer).Some?
  {
    var s := ReadState(m, buffer).value;
    var bytes := 4 * |Flatten(packets)|;
    && s.up + bytes <= s.down
    && (packets != [] ==> s.up + bytes + 4 * s.reserved <= s.down)
    && s.up + bytes < TWO64 && ReadState(m', buffer) == Some(s.(up := s.up + bytes))
    && (m.CanRead(s.up, bytes) ==> m'.Read(s.up, bytes) == Some(EncodeWords(Flatten(packets))))
    && (forall a: int, n: nat :: Disjoint(s.up, s.down - s.up, a, n) && Disjoint(buffer, STRUCT_BYTES, a, n) ==>
          m'.Read(a, n) == m.Read(a, n))
    && (forall a: int, n: nat :: m'.CanRead(a, n) == m.CanRead(a, n))
  }

  /** After any run of successful appends the cursor has moved over exactly the packets, which
      lie in memory in order; it never enters the reserved words, and no other byte changed. */
  lemma {:induction false} AppendAllWritten(m: Memory, buffer: u64, packets: seq<seq<u32>>)
    requires ReadState(m, buffer).Some? && Separate(buffer, ReadState(m, buffer).value)
    requires AppendAll(m, buffer, packets).AllAppended?
    ensures Written(m, AppendAll(m, buffer, packets).memory, buffer, packets)
    decreases |packets|
  {
    hide Append, EncodeWords, Memory.CanRead, Memory.Read, ReadState;
    var s := ReadState(m, buffer).value;
    if packets == [] {
      WrittenNothing(m, buffer);
    } else {
      var p, rest := packets[0], packets[1..];
      var m1 := Append(m, buffer, p).memory;
      AppendStep(m, buffer, p);
      AppendAllWritten(m1, buffer, rest);
      var m' := AppendAll(m, buffer, packets).memory;
      var bytes := 4 * |Flatten(packets)|;
      if m.CanRead(s.up, bytes) {
        PartReadable(m, s.up, bytes, 0, 4 * |p|);
        PartReadable(m, s.up, bytes, 4 * |p|, 4 * |Flatten(rest)|);
        assert m'.Read(s.up, 4 * |p|) == Some(EncodeWords(p));
        ReadConcat(m', s.up, 4 * |p|, 4 * |Flatten(rest)|);
        EncodeWordsConcat(p, Flatten(rest));
      }
    }
  }

  lemma PartReadable(m: Memory, a: int, n: nat, at: nat, k: nat)
    requires m.CanRead(a, n) && at + k <= n
    ensures m.CanRead(a + at, k)
  {
  }

  lemma WrittenNothing(m: Memory, buffer: u64)
    requires ReadState(m, buffer).Some? && ReadState(m, buffer).value.up <= ReadState(m, buffer).value.down
    ensures Written(m, m, buffer, [])
  {
    assert m.Bytes(ReadState(m, buffer).value.up, 0) == EncodeWords([]);
  }

  // ------------------------------------------------------- reading it back

  /** The header says how long the packet is. */
  predicate Framed(p: seq<u32>) {
    p != [] && ParseHeader(p[0]).Type3? && ParseHeader(p[0]).dwords == |p|
  }

  function GetPacketSize(m: Memory, address: u64): Option<u32> {
    if address == 0 then None
    else match m.Read32(address)
      case None => None
      case Some(header) => Some(PacketDwords(header))
  }

  function Start(packets: seq<seq<u32>>, k: nat): nat
    requires k <= |packets|
  {
    |Flatten(packets[..k])|
  }

  lemma {:induction false} FlattenSplit(packets: seq<seq<u32>>, k: nat)
    requires k <= |packets|
    ensures Flatten(packets) == Flatten(packets[..k]) + Flatten(packets[k..])
    decreases k
  {
    if k == 0 {
      assert packets[..0] == [] && packets[0..] == packets;
    } else {
      FlattenSplit(packets[1..], k - 1);
      assert packets[..k][1..] == packets[1..][..k - 1] && packets[1..][k - 1..] == packets[k..];
    }
  }

  lemma PacketAt(packets: seq<seq<u32>>, k: nat)
    requires k < |packets|
    ensures Start(packets, k) + |packets[k]| <= |Flatten(packets)|
    ensures Flatten(packets)[Start(packets, k)..Start(packets, k) + |packets[k]|] == packets[k]
  {
    FlattenSplit(packets, k);
    assert packets[k..][0] == packets[k];
  }

  lemma {:induction false} EncodedAt(words: seq<u32>, i: nat)
    requires i < |words|
    ensures EncodeWords(words)[4 * i..4 * i + 4] == Encode32(words[i])
  {
    hide Encode32;
    if i > 0 {
      EncodedAt(words[1..], i - 1);
      assert EncodeWords(words)[4 * i..4 * i + 4] == EncodeWords(words[1..])[4 * (i - 1)..4 * (i - 1) + 4];
    }
  }

  lemma AppendedStart(m: Memory, buffer: u64, packets: seq<seq<u32>>)
    requires ReadState(m, buffer).Some? && packets != [] && AppendAll(m, buffer, packets).AllAppended?
    ensures ReadState(m, buffer).value.up != 0 && ReadState(m, buffer).value.up % 4 == 0
  {
    hide Memory.CanRead, Memory.CanWrite, Memory.Store, EncodeWords, Encode64, ReadState;
  }

  lemma FramedSize(p: seq<u32>)
    requires Framed(p)
    ensures PacketDwords(p[0]) == |p|
  {
  }

  lemma SizeAgrees(m: Memory, up: u64, words: seq<u32>, at: nat, packet: seq<u32>)
    requires up != 0 && m.Read(up, 4 * |words|) == Some(EncodeWords(words)) && up + 4 * |words| < TWO64
    requires at < |words| && Framed(packet) && words[at] == packet[0]
    ensures GetPacketSize(m, up + 4 * at) == Some(|packet|)
  {
    hide Memory.Read32, Memory.Read, ParseHeader, PacketDwords;
    WordAt(m, up, words, at);
    FramedSize(packet);
  }

  lemma EncodedPart(words: seq<u32>, at: nat)
    requires at < |words|
    ensures var b := EncodeWords(words); var i := 4 * at; i + 4 <= |b| && b[i..i + 4] == Encode32(words[at])
  {
    hide EncodeWords, Encode32;
    EncodedAt(words, at);
  }

  lemma WordAt(m: Memory, up: u64, words: seq<u32>, at: nat)
    requires m.Read(up, |EncodeWords(words)|) == Some(EncodeWords(words)) && at < |words|
    ensures m.Read32(up + 4 * at) == Some(words[at])
  {
    hide EncodeWords, Encode32, Memory.CanRead, Memory.Read, Memory.Read32;
    EncodedPart(words, at);
    ReadsPart(m, up, EncodeWords(words), 4 * at, words[at]);
  }

  lemma ReadsPart(m: Memory, up: int, bytes: seq<byte>, i: nat, word: u32)
    requires m.Read(up, |bytes|) == Some(bytes) && i + 4 <= |bytes| && bytes[i..i + 4] == Encode32(word)
    ensures m.Read32(up + i) == Some(word)
  {
    hide Encode32, Memory.CanRead, Memory.Read, Memory.Read32;
    ReadPart(m, up, |bytes|, i, 4);
    ReadsWord(m, up + i, word);
  }

  lemma ReadsWord(m: Memory, address: int, word: u32)
    requires m.Read(address, 4) == Some(Encode32(word))
    ensures m.Read32(address) == Some(word)
  {
    hide Encode32, Decode32, Memory.Read;
    Decode32Encode32(word);
  }
}
