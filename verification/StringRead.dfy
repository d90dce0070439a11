/** Reading a bounded NUL-terminated guest string in chunks. */
module StringRead {
  import opened Words
  import opened GuestMemory

  const CHUNK: nat := 128
  const MAX_STRING: nat := 1024 * 1024

  datatype Status = Ok | InvalidArgument | MemoryFault | Unterminated

  datatype Result = Result(status: Status, text: seq<byte>)

  function AddOffset(address: u64, offset: nat): (r: Option<u64>)
    ensures r == if address + offset < TWO64 then Some(address + offset) else None
  {
    if offset > TWO64 - 1 - address then None else Some(address + offset)
  }

  // -------------------------------------------------- one byte at a time

  /** The reference reader: `text` holds the first `|text|` bytes. */
  function BytewiseFrom(m: Memory, address: u64, limit: nat, text: seq<byte>): Result
    requires |text| <= limit
    decreases limit - |text|
  {
    if |text| == limit then Result(Unterminated, text) else
    match m.Read(address + |text|, 1)
    case None => Result(MemoryFault, [])
    case Some(b) => if b[0] == 0 then Result(Ok, text) else BytewiseFrom(m, address, limit, text + b)
  }

  function Bytewise(m: Memory, address: u64, limit: nat): Result {
    if address == 0 || limit == 0 || limit > MAX_STRING then Result(InvalidArgument, [])
    else BytewiseFrom(m, address, limit, [])
  }

  // ------------------------------------------------------- the chunk reader

  /** The first NUL, or the length when there is none. */
  method FindNul(chunk: seq<byte>) returns (at: nat)
    ensures at <= |chunk| && (forall k | 0 <= k < at :: chunk[k] != 0)
    ensures at < |chunk| ==> chunk[at] == 0
  {
    at := 0;
    while at < |chunk| && chunk[at] != 0
      invariant at <= |chunk| && forall k | 0 <= k < at :: chunk[k] != 0
    {
      at := at + 1;
    }
  }

  /** Reading `n` bytes that are not NUL takes the reference reader `n` steps. */
  lemma {:induction false} Skip(m: Memory, address: u64, limit: nat, text: seq<byte>, chunk: seq<byte>)
    requires |text| + |chunk| <= limit
    requires m.Read(address + |text|, |chunk|) == Some(chunk)
    requires forall k | 0 <= k < |chunk| :: chunk[k] != 0
    ensures BytewiseFrom(m, address, limit, text) == BytewiseFrom(m, address, limit, text + chunk)
    decreases |chunk|
  {
    if chunk == [] {
      assert text + chunk == text;
    } else {
      ReadSplits(m, address + |text|, chunk, 1);
      assert chunk[..1][0] == chunk[0];
      Skip(m, address, limit, text + chunk[..1], chunk[1..]);
      assert text + chunk[..1] + chunk[1..] == text + chunk;
    }
  }

  lemma ReadSplits(m: Memory, address: int, chunk: seq<byte>, n: nat)
    requires n <= |chunk| && m.Read(address, |chunk|) == Some(chunk)
    ensures m.Read(address, n) == Some(chunk[..n])
    ensures m.Read(address + n, |chunk| - n) == Some(chunk[n..])
  {
    assert m.Bytes(address, n) == chunk[..n];
    assert m.Bytes(address + n, |chunk| - n) == chunk[n..];
  }

  /** A chunk with a NUL ends the string there. */
  lemma StopAtNul(m: Memory, address: u64, limit: nat, text: seq<byte>, chunk: seq<byte>, at: nat)
    requires |text| + |chunk| <= limit && at < |chunk| && chunk[at] == 0
    requires m.Read(address + |text|, |chunk|) == Some(chunk)
    requires forall k | 0 <= k < at :: chunk[k] != 0
    ensures BytewiseFrom(m, address, limit, text) == Result(Ok, text + chunk[..at])
  {
    ReadSplits(m, address + |text|, chunk, at);
    Skip(m, address, limit, text, chunk[..at]);
    ReadSplits(m, address + |text| + at, chunk[at..], 1);
  }

  /** No byte past the top of the address space can be read. */
  lemma TopUnreadable(m: Memory, address: u64, offset: nat)
    requires address + offset >= TWO64
    ensures m.Read(address + offset, 1) == None
  {
    assert address + offset !in m.cells;
  }

  /** The slow path: the chunk could not be read whole. */
  method ReadSlowly(m: Memory, address: u64, limit: nat, start: nat, size: nat, before: seq<byte>)
    returns (done: bool, r: Result, text: seq<byte>)
    requires |before| == start && start + size <= limit && address + start < TWO64
    ensures done ==> r == BytewiseFrom(m, address, limit, before)
    ensures !done ==> |text| == start + size && BytewiseFrom(m, address, limit, text) == BytewiseFrom(m, address, limit, before)
  {
    text, r := before, Result(MemoryFault, []);
    var index := 0;
    while index < size
      invariant index <= size && |text| == start + index && r == Result(MemoryFault, [])
      invariant BytewiseFrom(m, address, limit, text) == BytewiseFrom(m, address, limit, before)
    {
      var at := AddOffset(address + start, index);
      if at.None? {
        TopUnreadable(m, address, start + index);
        return true, r, text;
      }
      var b := m.Read(at.value, 1);
      if b.None? {
        return true, r, text;
      }
      if b.value[0] == 0 {
        return true, Result(Ok, text), text;
      }
      text := text + b.value;
      index := index + 1;
    }
    done := false;
  }

  /** Chunked reading gives exactly the bytewise status and text. */
  method ReadNullTerminatedString(m: Memory, address: u64, limit: nat) returns (r: Result)
    ensures r == Bytewise(m, address, limit)
  {
    if address == 0 || limit == 0 || limit > MAX_STRING {
      return Result(InvalidArgument, []);
    }
    var text, offset := [], 0;
    while offset < limit
      invariant offset == |text| <= limit
      invariant BytewiseFrom(m, address, limit, text) == BytewiseFrom(m, address, limit, [])
    {
      var size := if CHUNK < limit - offset then CHUNK else limit - offset;
      var at := AddOffset(address, offset);
      if at.None? {
        TopUnreadable(m, address, offset);
        return Result(MemoryFault, []);
      }
      var chunk := m.Read(at.value, size);
      if chunk.Some? {
        var nul := FindNul(chunk.value);
        if nul < size {
          StopAtNul(m, address, limit, text, chunk.value, nul);
          return Result(Ok, text + chunk.value[..nul]);
        }
        Skip(m, address, limit, text, chunk.value);
        text := text + chunk.value;
      } else {
        var done, result, grown := ReadSlowly(m, address, limit, offset, size, text);
        if done {
          return result;
        }
        text := grown;
      }
      offset := offset + size;
    }
    r := Result(Unterminated, text);
  }

  // ------------------------------------------- what the reference returns

  /** `text` is readable at `address` and holds no NUL. */
  ghost predicate Plain(m: Memory, address: u64, text: seq<byte>) {
    m.Read(address, |text|) == Some(text) && forall k | 0 <= k < |text| :: text[k] != 0
  }

  /**
   * The reader succeeds with exactly the bytes before the first NUL, reports an
   * unterminated string with exactly `limit` bytes, and otherwise faults.
   */
  ghost predicate Describes(m: Memory, address: u64, limit: nat, r: Result) {
    match r.status
    case Ok => |r.text| < limit && Plain(m, address, r.text) && m.Read(address + |r.text|, 1) == Some([0])
    case Unterminated => |r.text| == limit && Plain(m, address, r.text)
    case MemoryFault => r.text == [] && exists n: nat :: Faults(m, address, limit, n)
    case InvalidArgument => r.text == [] && (address == 0 || limit == 0 || limit > MAX_STRING)
  }

  /** The first `n` bytes are text and the next one cannot be read. */
  ghost predicate Faults(m: Memory, address: u64, limit: nat, n: nat) {
    n < limit && m.Read(address, n).Some? && Plain(m, address, m.Read(address, n).value) && m.Read(address + n, 1) == None
  }

  lemma {:induction false} BytewiseFromMeans(m: Memory, address: u64, limit: nat, text: seq<byte>)
    requires |text| <= limit && Plain(m, address, text)
    ensures BytewiseFrom(m, address, limit, text).status != InvalidArgument
    ensures Describes(m, address, limit, BytewiseFrom(m, address, limit, text))
    decreases limit - |text|
  {
    if |text| < limit {
      match m.Read(address + |text|, 1)
      case None =>
        assert Faults(m, address, limit, |text|);
      case Some(b) =>
        if b[0] != 0 {
          ReadJoins(m, address, text, b);
          BytewiseFromMeans(m, address, limit, text + b);
        } else {
          assert b == [0];
        }
    }
  }

  lemma ReadJoins(m: Memory, address: int, a: seq<byte>, b: seq<byte>)
    requires m.Read(address, |a|) == Some(a) && m.Read(address + |a|, |b|) == Some(b)
    ensures m.Read(address, |a + b|) == Some(a + b)
  {
    assert m.CanRead(address, |a + b|);
    assert m.Bytes(address, |a + b|) == a + b;
  }

  lemma BytewiseMeans(m: Memory, address: u64, limit: nat)
    ensures Describes(m, address, limit, Bytewise(m, address, limit))
    ensures Bytewise(m, address, limit).status == InvalidArgument <==> address == 0 || limit == 0 || limit > MAX_STRING
  {
    if !(address == 0 || limit == 0 || limit > MAX_STRING) {
      assert m.Bytes(address, 0) == [];
      BytewiseFromMeans(m, address, limit, []);
    }
  }

  /** At most one answer fits the description, so it determines the result. */
  lemma DescribesUnique(m: Memory, address: u64, limit: nat, r: Result, r': Result)
    requires Describes(m, address, limit, r) && Describes(m, address, limit, r')
    requires r.status != InvalidArgument && r'.status != InvalidArgument
    ensures r == r'
  {
    if r.status == MemoryFault && r'.status == MemoryFault {
    } else if r.status == MemoryFault {
      var n: nat :| Faults(m, address, limit, n);
      FaultExcludes(m, address, limit, n, r');
    } else if r'.status == MemoryFault {
      var n: nat :| Faults(m, address, limit, n);
      FaultExcludes(m, address, limit, n, r);
    } else if |r.text| < |r'.text| {
      LongerHasNul(m, address, r.text, r'.text);
    } else if |r'.text| < |r.text| {
      LongerHasNul(m, address, r'.text, r.text);
    }
  }

  lemma LongerHasNul(m: Memory, address: u64, short: seq<byte>, long: seq<byte>)
    requires |short| < |long| && Plain(m, address, long)
    ensures m.Read(address + |short|, 1) != Some([0])
  {
    ReadSplits(m, address, long, |short|);
    ReadSplits(m, address + |short|, long[|short|..], 1);
    assert long[|short|..][..1][0] == long[|short|];
  }

  lemma FaultExcludes(m: Memory, address: u64, limit: nat, n: nat, r: Result)
    requires Faults(m, address, limit, n) && (r.status == Ok || r.status == Unterminated)
    ensures !Describes(m, address, limit, r)
  {
    if Describes(m, address, limit, r) {
      if n < |r.text| {
        ReadSplits(m, address, r.text, n);
      } else if |r.text| < n {
        LongerHasNul(m, address, r.text, m.Read(address, n).value);
      }
    }
  }
}
