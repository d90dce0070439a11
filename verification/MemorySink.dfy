/** The sink that carries out the memory effects of write-data and release-memory actions. */
module MemorySink {
  import opened Arith
  import opened Words
  import opened GuestMemory
  import opened Pm4
  import opened CommandProcessor

  /** The downstream sink's state and the next release timestamp. */
  datatype Timed<S> = Timed(inner: S, timestamp: u64)

  function Field(word: u64, shift: int, size: int): (r: int)
    requires shift > 0 && size > 0
    ensures 0 <= r < size
  {
    word % TWO32 / shift % size
  }

  datatype Target = Malformed | Unsupported | NoWrite | Write32(address: u64, word: u32) | WriteTimed(address: u64)
                  | Write64(address: u64, value: u64)

  predicate IsWrapper(a: Action, register: u32) { a.site.opcode == NOP && a.site.register == register }

  /** What a release action stores, and where. */
  function ReleaseTarget(a: Action): Target {
    if |a.values| < 5 then Malformed
    else
      var standard := a.site.opcode == RELEASE_MEMORY;
      var wrapper := IsWrapper(a, RELEASE_MEMORY_REGISTER);
      if !standard && !wrapper then Malformed
      else
        var index := Field(a.values[2], 0x100, 8);
        var packed := standard || index == 5 || index == 6;
        var destination := if packed then Field(a.values[3], 0x1_0000, 4) else 0;
        var selection := if packed then Field(a.values[3], 0x2000_0000, 8) else Field(a.values[3], 0x1_0000, 0x100);
        if selection > 5 || (!standard && selection == 4) then Malformed
        else if selection == 5 then Unsupported
        else if selection == 0 || destination > 1 || a.values[0] == 0 then NoWrite
        else if a.values[0] % 4 != 0 then Malformed
        else if selection == 1 then Write32(a.values[0], Low(a.values[1]))
        else if selection == 2 then Write64(a.values[0], a.values[1])
        else WriteTimed(a.values[0])
  }

  datatype Store = BadStore | Pass | Words(address: u64, words: seq<u32>)

  /** The words a write-data action stores; without increment only its last word survives. */
  function WriteTarget(a: Action): Store {
    if |a.values| < 3 || |a.payload| != a.values[2] then BadStore
    else
      var standard := a.site.opcode == WRITE_DATA;
      var wrapper := IsWrapper(a, WRITE_DATA_REGISTER);
      if !standard && !wrapper then BadStore
      else
        var destination := if standard then Field(a.values[1], 0x100, 0x10) else Field(a.values[1], 1, 0x100);
        if destination !in {1, 2, 4, 5} then Pass
        else if a.values[0] == 0 || a.values[0] % 4 != 0 then BadStore
        else
          var increment := if standard then Field(a.values[1], 0x1_0000, 2) == 0
                           else Field(a.values[1], 0x1_0000, 0x100) == 0;
          Words(a.values[0], if increment || a.payload == [] then a.payload else [a.payload[|a.payload| - 1]])
  }

  function Stored<S>(reply: SinkReply<Timed<S>>, address: u64, data: seq<byte>): SinkReply<Timed<S>> {
    if reply.status != Complete then reply
    else
      match reply.memory.Write(address, data)
      case None => reply.(status := MemoryFault)
      case Some(m) => reply.(memory := m)
  }

  function Forward<S>(down: Sink<S>, st: Timed<S>, m: Memory, a: Action): SinkReply<Timed<S>> {
    var r := down(st.inner, m, a);
    SinkReply(st.(inner := r.sink), r.memory, r.status)
  }

  /** The downstream sink sees the action first; memory changes only if it accepts. */
  function Submit<S>(down: Sink<S>, st: Timed<S>, m: Memory, a: Action): SinkReply<Timed<S>> {
    if a.kind == ReleaseMemory then
      match ReleaseTarget(a)
      case Malformed => SinkReply(st, m, MalformedPacket)
      case Unsupported => SinkReply(st, m, UnsupportedPacket)
      case NoWrite => Forward(down, st, m, a)
      case Write32(address, value) => Stored(Forward(down, st, m, a), address, Encode32(value))
      case Write64(address, value) => Stored(Forward(down, st, m, a), address, Encode64(value))
      case WriteTimed(address) =>
        var r := Forward(down, st, m, a);
        if r.status != Complete then r
        else Stored(r.(sink := r.sink.(timestamp := (st.timestamp + 1) % TWO64)), address, Encode64(st.timestamp))
    else if a.kind == WriteData then
      match WriteTarget(a)
      case BadStore => SinkReply(st, m, MalformedPacket)
      case Pass => Forward(down, st, m, a)
      case Words(address, words) =>
        if words == [] then Forward(down, st, m, a) else Stored(Forward(down, st, m, a), address, EncodeWords(words))
    else Forward(down, st, m, a)
  }

  /** The action is refused by its own operands, before anything else happens. */
  predicate Unusable(a: Action) {
    || (a.kind == ReleaseMemory && (ReleaseTarget(a) == Malformed || ReleaseTarget(a) == Unsupported))
    || (a.kind == WriteData && WriteTarget(a) == BadStore)
  }

  /** Where an action stores, and what; None when it stores nothing. */
  function StoreOf(a: Action, timestamp: u64): Option<(u64, seq<byte>)> {
    if a.kind == ReleaseMemory then
      match ReleaseTarget(a)
      case Write32(address, value) => Some((address, Encode32(value)))
      case Write64(address, value) => Some((address, Encode64(value)))
      case WriteTimed(address) => Some((address, Encode64(timestamp)))
      case _ => None
    else if a.kind == WriteData && WriteTarget(a).Words? && WriteTarget(a).words != [] then
      Some((WriteTarget(a).address, EncodeWords(WriteTarget(a).words)))
    else None
  }

  /** An unusable action reaches nobody. Every other one goes downstream as it is; what the
      downstream sink did stays; its refusal is passed on; and on its acceptance the store is
      made on top, or reported as a fault. */
  lemma SubmitExactly<S>(down: Sink<S>, st: Timed<S>, m: Memory, a: Action)
    ensures var r, d, store := Submit(down, st, m, a), down(st.inner, m, a), StoreOf(a, st.timestamp);
      if Unusable(a) then r.sink == st && r.memory == m && r.status in {MalformedPacket, UnsupportedPacket}
      else
        && r.sink.inner == d.sink
        && (d.status != Complete || store.None? ==> r == SinkReply(st.(inner := d.sink), d.memory, d.status))
        && (d.status == Complete && store.Some? ==>
              if d.memory.CanWrite(store.value.0, |store.value.1|) then
                r.status == Complete && r.memory == d.memory.Store(store.value.0, store.value.1)
              else r.status == MemoryFault && r.memory == d.memory)
  {
    hide ReleaseTarget, WriteTarget, Encode32, Encode64, EncodeWords;
  }

  ghost function AsSink<S>(down: Sink<S>): Sink<Timed<S>> {
    (st: Timed<S>, m: Memory, a: Action) => Submit(down, st, m, a)
  }

  ghost predicate KeepsMemory<S(!new)>(sink: Sink<S>) {
    forall s, m, a :: sink(s, m, a).memory == m
  }

  lemma MemorySinkNeverBlocks<S(!new)>(down: Sink<S>)
    requires NeverBlocks(down)
    ensures NeverBlocks(AsSink(down))
  {
    forall st: Timed<S>, m: Memory, a: Action ensures AsSink(down)(st, m, a).status != Blocked {
      var r := down(st.inner, m, a);
      assert r.status != Blocked;
    }
  }

  lemma AndFull(v: u64, k: nat)
    requires v < Pow2(k) && Pow2(k) <= TWO64
    ensures And(v, Pow2(k) - 1) == v
    decreases k
  {
    if v != 0 {
      AndFull(v / 2, k - 1);
    }
  }

  /** A release that is accepted makes its value visible to the decoder: a cursor parked on an
      equality with that value, at that address and over the full width, is no longer blocked. */
  lemma ReleaseWakesWaiter<S(!new)>(down: Sink<S>, st: Timed<S>, m: Memory, a: Action, frames: seq<Frame>,
                                    wait: PendingWait)
    requires KeepsMemory(down) && a.kind == ReleaseMemory
    requires Submit(down, st, m, a).status == Complete
    requires wait.function_ == 3
    requires match ReleaseTarget(a)
      case Write32(address, value) =>
        !wait.is64 && wait.address == address && wait.reference == value && wait.mask == TWO32 - 1
        && m.CanRead(address, 4)
      case Write64(address, value) =>
        wait.is64 && wait.address == address && wait.reference == value && wait.mask == TWO64 - 1
        && m.CanRead(address, 8)
      case _ => false
    ensures var m' := Submit(down, st, m, a).memory;
      Poll(m', wait.address, wait.is64) == Some(wait.reference) && !CheckWait(frames, m', wait).StillBlocked?
  {
    hide ReleaseTarget, And, Pow2, Encode32, Encode64, Decode32, Decode64, Join;
    Pow2Words();
    match ReleaseTarget(a) {
      case Write32(address, value) =>
        ReadStored(m, address, Encode32(value));
        Decode32Encode32(value);
        AndFull(value, 32);
      case Write64(address, value) =>
        ReadStored(m, address, Encode64(value));
        Decode64Encode64(value);
        AndFull(value, 64);
    }
  }

  /** An incrementing write that is accepted leaves exactly its words at its destination and
      nothing else different. */
  lemma WriteDataLands<S(!new)>(down: Sink<S>, st: Timed<S>, m: Memory, a: Action, limits: Limits)
    requires KeepsMemory(down) && a.kind == WriteData
    requires WriteTarget(a).Words? && WriteTarget(a).words != []
    requires Submit(down, st, m, a).status == Complete
    ensures var target := WriteTarget(a);
      var n := |target.words|;
      var m' := Submit(down, st, m, a).memory;
      && m' == m.Store(target.address, EncodeWords(target.words))
      && (n <= limits.maxBufferDwords && m.CanRead(target.address, 4 * n) ==>
            ReadDwords(limits, m', target.address, n) == Fetched(target.words))
  {
    var target := WriteTarget(a);
    var bytes := EncodeWords(target.words);
    if m.CanRead(target.address, |bytes|) {
      ReadStored(m, target.address, bytes);
      DecodeWordsEncodeWords(target.words);
    }
  }
}
