/** Guest memory as a checked byte map: every access names a range, and it either
    succeeds on the whole range or reports a fault. */
module GuestMemory {
  import opened Words

  datatype Cell = Cell(value: byte, canRead: bool, canWrite: bool)

  datatype Memory = Memory(cells: map<u64, Cell>) {
    predicate CanRead(address: int, size: nat) {
      forall a: int :: address <= a < address + size ==> a in cells && cells[a].canRead
    }

    predicate CanWrite(address: int, size: nat) {
      forall a: int :: address <= a < address + size ==> a in cells && cells[a].canWrite
    }

    /** The bytes of a readable range. */
    function Bytes(address: int, size: nat): (r: seq<byte>)
      requires CanRead(address, size)
      ensures |r| == size
      ensures forall i :: 0 <= i < size ==> r[i] == cells[address + i].value
    {
      seq(size, i requires 0 <= i < size => cells[address + i].value)
    }

    function Read(address: int, size: nat): (r: Option<seq<byte>>)
      ensures r.Some? <==> CanRead(address, size)
      ensures r.Some? ==> |r.value| == size
    {
      if CanRead(address, size) then Some(Bytes(address, size)) else None
    }

    /** The memory with `data` stored at `address`; cells that do not exist stay absent. */
    function Store(address: int, data: seq<byte>): (m: Memory)
      ensures m.cells.Keys == cells.Keys
      ensures forall a :: a in cells ==>
        m.cells[a] == if address <= a < address + |data| then cells[a].(value := data[a - address]) else cells[a]
    {
      Memory(map a | a in cells ::
        if address <= a < address + |data| then cells[a].(value := data[a - address]) else cells[a])
    }

    function Write(address: int, data: seq<byte>): (r: Option<Memory>)
      ensures r.Some? <==> CanWrite(address, |data|)
      ensures r.Some? ==> r.value == Store(address, data)
    {
      if CanWrite(address, |data|) then Some(Store(address, data)) else None
    }

    function Read32(address: int): (r: Option<u32>)
    {
      match Read(address, 4)
      case None => None
      case Some(b) => Some(Decode32(b))
    }

    function Read64(address: int): (r: Option<u64>)
    {
      match Read(address, 8)
      case None => None
      case Some(b) => Some(Decode64(b))
    }
  }

  predicate Disjoint(a: int, n: nat, b: int, k: nat) {
    a + n <= b || b + k <= a
  }

  /** Protections never change under a store. */
  lemma StoreKeepsAccess(m: Memory, address: int, data: seq<byte>, a: int, n: nat)
    ensures m.Store(address, data).CanRead(a, n) == m.CanRead(a, n)
    ensures m.Store(address, data).CanWrite(a, n) == m.CanWrite(a, n)
  {
  }

  lemma ReadStored(m: Memory, address: int, data: seq<byte>)
    requires m.CanRead(address, |data|)
    ensures m.Store(address, data).Read(address, |data|) == Some(data)
  {
    assert m.Store(address, data).Bytes(address, |data|) == data;
  }

  lemma ReadElsewhere(m: Memory, address: int, data: seq<byte>, a: int, n: nat)
    requires Disjoint(address, |data|, a, n)
    ensures m.Store(address, data).Read(a, n) == m.Read(a, n)
  {
    StoreKeepsAccess(m, address, data, a, n);
    if m.CanRead(a, n) {
      assert m.Store(address, data).Bytes(a, n) == m.Bytes(a, n);
    }
  }
}
