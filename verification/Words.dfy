/** Machine words as bounded integers, and their little-endian byte images. */
module Words {
  const TWO32: int := 0x1_0000_0000
  const TWO64: int := 0x1_0000_0000_0000_0000

  type byte = x: int | 0 <= x < 0x100
  type u32 = x: int | 0 <= x < 0x1_0000_0000
  type u64 = x: int | 0 <= x < 0x1_0000_0000_0000_0000

  datatype Option<+T> = None | Some(value: T)

  /** The 64-bit value whose low and high halves are two command words. */
  function Join(lo: u32, hi: u32): (r: u64)
    ensures r % TWO32 == lo && r / TWO32 == hi
  {
    lo + hi * TWO32
  }

  function Low(v: u64): u32 { v % TWO32 }

  function High(v: u64): u32 { v / TWO32 }

  function Encode32(v: u32): (r: seq<byte>)
    ensures |r| == 4
  {
    [v % 0x100, v / 0x100 % 0x100, v / 0x1_0000 % 0x100, v / 0x100_0000]
  }

  function Decode32(b: seq<byte>): (r: u32)
    requires |b| == 4
  {
    b[0] as int + b[1] as int * 0x100 + b[2] as int * 0x1_0000 + b[3] as int * 0x100_0000
  }

  function Encode64(v: u64): (r: seq<byte>)
    ensures |r| == 8
  {
    Encode32(Low(v)) + Encode32(High(v))
  }

  function Decode64(b: seq<byte>): (r: u64)
    requires |b| == 8
  {
    Join(Decode32(b[..4]), Decode32(b[4..]))
  }

  lemma Decode32Encode32(v: u32)
    ensures Decode32(Encode32(v)) == v
  {
    assert v / 0x100 / 0x100 == v / 0x1_0000;
    assert v / 0x1_0000 / 0x100 == v / 0x100_0000;
  }

  lemma Decode64Encode64(v: u64)
    ensures Decode64(Encode64(v)) == v
  {
    assert Encode64(v)[..4] == Encode32(Low(v));
    assert Encode64(v)[4..] == Encode32(High(v));
    Decode32Encode32(Low(v));
    Decode32Encode32(High(v));
  }

  /** Consecutive words as the bytes a guest sees. */
  function EncodeWords(words: seq<u32>): (r: seq<byte>)
    ensures |r| == 4 * |words|
  {
    if words == [] then [] else Encode32(words[0]) + EncodeWords(words[1..])
  }

  function DecodeWords(b: seq<byte>): (r: seq<u32>)
    requires |b| % 4 == 0
    ensures |r| == |b| / 4
  {
    if b == [] then [] else [Decode32(b[..4])] + DecodeWords(b[4..])
  }

  lemma {:induction false} DecodeWordsEncodeWords(words: seq<u32>)
    ensures DecodeWords(EncodeWords(words)) == words
  {
    if words != [] {
      var b := EncodeWords(words);
      assert b[..4] == Encode32(words[0]);
      assert b[4..] == EncodeWords(words[1..]);
      Decode32Encode32(words[0]);
      DecodeWordsEncodeWords(words[1..]);
    }
  }

  lemma {:induction false} DecodeWordsAt(b: seq<byte>, i: nat)
    requires |b| % 4 == 0 && i < |b| / 4
    ensures DecodeWords(b)[i] == Decode32(b[4 * i..4 * i + 4])
  {
    hide Decode32;
    if i > 0 {
      DecodeWordsAt(b[4..], i - 1);
      assert b[4..][4 * (i - 1)..4 * (i - 1) + 4] == b[4 * i..4 * i + 4];
    }
  }

  /** The number a byte image stands for, lowest byte first. */
  function Value(b: seq<byte>): nat {
    if b == [] then 0 else b[0] + 0x100 * Value(b[1..])
  }

  lemma {:induction false} LittleEndian32(v: u32)
    ensures Value(Encode32(v)) == v
  {
    var e := Encode32(v);
    assert v / 0x100 / 0x100 == v / 0x1_0000;
    assert v / 0x1_0000 / 0x100 == v / 0x100_0000;
    assert Value(e[3..]) == e[3] && e[2..][1..] == e[3..];
    assert Value(e[2..]) == e[2] + 0x100 * Value(e[3..]) && e[1..][1..] == e[2..];
    assert Value(e[1..]) == e[1] + 0x100 * Value(e[2..]);
  }

  lemma {:induction false} ValueConcat(a: seq<byte>, b: seq<byte>)
    requires |a| == 4
    ensures Value(a + b) == Value(a) + TWO32 * Value(b)
  {
    var s := a + b;
    assert s[4..] == b && a[4..] == [];
    assert s[3..][1..] == s[4..] && s[2..][1..] == s[3..] && s[1..][1..] == s[2..];
    assert a[3..][1..] == a[4..] && a[2..][1..] == a[3..] && a[1..][1..] == a[2..];
    assert Value(s[3..]) == s[3] + 0x100 * Value(s[4..]) && Value(a[3..]) == a[3] + 0x100 * Value(a[4..]);
    assert Value(s[2..]) == s[2] + 0x100 * Value(s[3..]) && Value(a[2..]) == a[2] + 0x100 * Value(a[3..]);
    assert Value(s[1..]) == s[1] + 0x100 * Value(s[2..]) && Value(a[1..]) == a[1] + 0x100 * Value(a[2..]);
  }

  /** Words go to memory lowest byte first. */
  lemma LittleEndian(v: u64)
    ensures Value(Encode64(v)) == v
  {
    LittleEndian32(Low(v));
    LittleEndian32(High(v));
    ValueConcat(Encode32(Low(v)), Encode32(High(v)));
  }

  /** The little-endian words of a buffer whose size is a multiple of four. */
  method ToWords(bytes: seq<byte>) returns (words: seq<u32>)
    requires |bytes| % 4 == 0
    ensures words == DecodeWords(bytes)
  {
    hide Decode32;
    words := [];
    var index := 0;
    assert bytes[0..] == bytes;
    while 4 * index < |bytes|
      invariant 0 <= 4 * index <= |bytes| && |words| == index
      invariant words + DecodeWords(bytes[4 * index..]) == DecodeWords(bytes)
    {
      ghost var rest := bytes[4 * index..];
      assert rest[..4] == bytes[4 * index..4 * index + 4];
      assert rest[4..] == bytes[4 * (index + 1)..];
      assert DecodeWords(rest) == [Decode32(rest[..4])] + DecodeWords(rest[4..]);
      words := words + [Decode32(bytes[4 * index..4 * index + 4])];
      index := index + 1;
    }
  }
}
