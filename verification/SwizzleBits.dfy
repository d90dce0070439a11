/** The swizzle bit by bit: which coordinate bits each offset bit is the XOR of, and the runs of
    texels that stay together in a tiled image. */
module SwizzleBits {
  import opened Arith
  import opened TileSwizzle

  /** The coordinate bits an offset bit is the XOR of; -1 stands for none. */
  datatype Source = Source(x: int, y: int)

  // For each element size, where the sixteen offset bits come from, lowest first.

  const SOURCES_1: seq<Source> := [
    Source(0, -1), Source(1, -1), Source(2, -1), Source(-1, 1), Source(-1, 0), Source(-1, 2),
    Source(3, -1), Source(-1, 4), Source(3, 3), Source(4, 4), Source(6, 5), Source(5, 6),
    Source(-1, 6), Source(6, -1), Source(-1, 7), Source(7, -1)]

  const SOURCES_2: seq<Source> := [
    Source(-1, -1), Source(0, -1), Source(1, -1), Source(2, -1), Source(-1, 0), Source(-1, 1),
    Source(-1, 2), Source(3, -1), Source(3, 3), Source(4, 4), Source(6, 5), Source(5, 6),
    Source(-1, 4), Source(6, -1), Source(-1, 6), Source(7, -1)]

  const SOURCES_4: seq<Source> := [
    Source(-1, -1), Source(-1, -1), Source(0, -1), Source(1, -1), Source(-1, 0), Source(-1, 1),
    Source(-1, 2), Source(2, -1), Source(3, 3), Source(4, 4), Source(6, 5), Source(5, 6),
    Source(-1, 3), Source(4, -1), Source(-1, 6), Source(6, -1)]

  const SOURCES_8: seq<Source> := [
    Source(-1, -1), Source(-1, -1), Source(-1, -1), Source(0, -1), Source(-1, 0), Source(1, -1),
    Source(2, -1), Source(-1, 1), Source(3, 3), Source(4, 4), Source(6, 5), Source(5, 6),
    Source(-1, 2), Source(3, -1), Source(-1, 4), Source(6, -1)]

  const SOURCES_16: seq<Source> := [
    Source(-1, -1), Source(-1, -1), Source(-1, -1), Source(-1, -1), Source(0, -1), Source(-1, 0),
    Source(1, -1), Source(-1, 1), Source(3, 3), Source(4, 4), Source(6, 5), Source(5, 6),
    Source(-1, 2), Source(2, -1), Source(-1, 3), Source(4, -1)]

  function Sources(bytes: nat): (r: seq<Source>)
    requires ElementSize(bytes)
    ensures |r| == 16
  {
    if bytes == 1 then SOURCES_1
    else if bytes == 2 then SOURCES_2
    else if bytes == 4 then SOURCES_4
    else if bytes == 8 then SOURCES_8
    else SOURCES_16
  }

  lemma SourceBounds(bytes: nat, k: nat)
    requires ElementSize(bytes) && k < 16
    ensures Sources(bytes)[k].x < 8 && Sources(bytes)[k].y < 8
  {
  }

  // ------------------------------------------------------- bits of bit vectors

  /** Bit `k`, as a bit vector of its own. */
  function BitOf(b: bv32, k: nat): bv32 {
    if k == 0 then b & 1 else BitOf(Half(b), k - 1)
  }

  predicate One(b: bv32) { b == 1 }

  lemma OneXor(a: bv32, b: bv32)
    requires a & 1 == a && b & 1 == b
    ensures One(Xor(a, b)) == (One(a) != One(b))
  {
    LowBit(a);
    LowBit(b);
  }

  lemma {:induction false} BitOfIsBit(b: bv32, k: nat)
    ensures BitOf(b, k) & 1 == BitOf(b, k)
    decreases k
  {
    hide Half;
    if k > 0 { BitOfIsBit(Half(b), k - 1); }
  }

  lemma Quarter(b: bv32)
    ensures Half(Half(Half(Half(b)))) == b >> 4
  {
  }

  lemma BitOfQuarter(b: bv32, k: nat)
    ensures BitOf(b, k + 4) == BitOf(b >> 4, k)
  {
    hide Half;
    Quarter(b);
    var h := Half(b);
    assert BitOf(b, k + 4) == BitOf(h, k + 3);
    assert BitOf(h, k + 3) == BitOf(Half(h), k + 2);
    assert BitOf(Half(h), k + 2) == BitOf(Half(Half(h)), k + 1);
  }

  lemma FirstBits(b: bv32)
    ensures BitOf(b, 0) == b & 1 && BitOf(b, 1) == (b >> 1) & 1
    ensures BitOf(b, 2) == (b >> 2) & 1 && BitOf(b, 3) == (b >> 3) & 1
  {
    assert BitOf(b, 1) == BitOf(Half(b), 0);
    assert BitOf(b, 2) == BitOf(Half(b), 1) == BitOf(Half(Half(b)), 0);
    assert BitOf(b, 3) == BitOf(Half(b), 2) == BitOf(Half(Half(b)), 1) == BitOf(Half(Half(Half(b))), 0);
  }

  lemma LowBits(b: bv32)
    ensures
      && BitOf(b, 0) == b & 1 && BitOf(b, 1) == (b >> 1) & 1 && BitOf(b, 2) == (b >> 2) & 1 && BitOf(b, 3) == (b >> 3) & 1
      && BitOf(b, 4) == (b >> 4) & 1 && BitOf(b, 5) == (b >> 5) & 1 && BitOf(b, 6) == (b >> 6) & 1 && BitOf(b, 7) == (b >> 7) & 1
  {
    hide BitOf;
    FirstBits(b);
    FirstBits(b >> 4);
    BitOfQuarter(b, 0);
    BitOfQuarter(b, 1);
    BitOfQuarter(b, 2);
    BitOfQuarter(b, 3);
    assert (b >> 4) >> 1 == b >> 5 && (b >> 4) >> 2 == b >> 6 && (b >> 4) >> 3 == b >> 7;
  }

  lemma BitOfByte(b: bv32, k: nat)
    ensures BitOf(b, k + 8) == BitOf(b >> 8, k)
  {
    hide BitOf;
    BitOfQuarter(b, k + 4);
    BitOfQuarter(b >> 4, k);
    assert (b >> 4) >> 4 == b >> 8;
  }

  lemma HighBits(b: bv32)
    ensures
      && BitOf(b, 8) == (b >> 8) & 1 && BitOf(b, 9) == (b >> 9) & 1 && BitOf(b, 10) == (b >> 10) & 1 && BitOf(b, 11) == (b >> 11) & 1
      && BitOf(b, 12) == (b >> 12) & 1 && BitOf(b, 13) == (b >> 13) & 1 && BitOf(b, 14) == (b >> 14) & 1 && BitOf(b, 15) == (b >> 15) & 1
  {
    hide BitOf;
    LowBits(b >> 8);
    BitOfByte(b, 0);
    BitOfByte(b, 1);
    BitOfByte(b, 2);
    BitOfByte(b, 3);
    BitOfByte(b, 4);
    BitOfByte(b, 5);
    BitOfByte(b, 6);
    BitOfByte(b, 7);
    ShiftByte(b);
  }

  lemma ShiftByte(b: bv32)
    ensures (b >> 8) >> 1 == b >> 9 && (b >> 8) >> 2 == b >> 10 && (b >> 8) >> 3 == b >> 11 && (b >> 8) >> 4 == b >> 12
    ensures (b >> 8) >> 5 == b >> 13 && (b >> 8) >> 6 == b >> 14 && (b >> 8) >> 7 == b >> 15
  {
  }

  // ----------------------------------------------------- bits of the swizzle

  function Pick(b: bv32, j: int): bv32 { if j < 0 then 0 else BitOf(b, j) }

  predicate Gives(o: bv32, k: nat, x: bv32, i: int, y: bv32, j: int) {
    BitOf(o, k) == Xor(Pick(x, i), Pick(y, j))
  }

  predicate SwizzlesBit(bytes: nat, x: bv32, y: bv32, k: nat)
    requires ElementSize(bytes) && k < 16
  {
    Gives(RenderTargetOffset(bytes, x, y), k, x, Sources(bytes)[k].x, y, Sources(bytes)[k].y)
  }

  lemma Named1(x: bv32, y: bv32)
    ensures var o := Offset1(x, y);
      && Gives(o, 0, x, 0, y, -1) && Gives(o, 1, x, 1, y, -1)
      && Gives(o, 2, x, 2, y, -1) && Gives(o, 3, x, -1, y, 1)
      && Gives(o, 4, x, -1, y, 0) && Gives(o, 5, x, -1, y, 2)
      && Gives(o, 6, x, 3, y, -1) && Gives(o, 7, x, -1, y, 4)
      && Gives(o, 8, x, 3, y, 3) && Gives(o, 9, x, 4, y, 4)
      && Gives(o, 10, x, 6, y, 5) && Gives(o, 11, x, 5, y, 6)
      && Gives(o, 12, x, -1, y, 6) && Gives(o, 13, x, 6, y, -1)
      && Gives(o, 14, x, -1, y, 7) && Gives(o, 15, x, 7, y, -1)
  {
    hide BitOf;
    var o := Offset1(x, y);
    LowBits(o);
    HighBits(o);
    LowBits(x);
    LowBits(y);
  }

  lemma Bits1(x: bv32, y: bv32, k: nat)
    requires k < 16
    ensures SwizzlesBit(1, x, y, k)
  {
    hide Offset1, Offset2, Offset4, Offset8, Offset16, Gives;
    Named1(x, y);
  }

  lemma Named2(x: bv32, y: bv32)
    ensures var o := Offset2(x, y);
      && Gives(o, 0, x, -1, y, -1) && Gives(o, 1, x, 0, y, -1)
      && Gives(o, 2, x, 1, y, -1) && Gives(o, 3, x, 2, y, -1)
      && Gives(o, 4, x, -1, y, 0) && Gives(o, 5, x, -1, y, 1)
      && Gives(o, 6, x, -1, y, 2) && Gives(o, 7, x, 3, y, -1)
      && Gives(o, 8, x, 3, y, 3) && Gives(o, 9, x, 4, y, 4)
      && Gives(o, 10, x, 6, y, 5) && Gives(o, 11, x, 5, y, 6)
      && Gives(o, 12, x, -1, y, 4) && Gives(o, 13, x, 6, y, -1)
      && Gives(o, 14, x, -1, y, 6) && Gives(o, 15, x, 7, y, -1)
  {
    hide BitOf;
    var o := Offset2(x, y);
    LowBits(o);
    HighBits(o);
    LowBits(x);
    LowBits(y);
  }

  lemma Bits2(x: bv32, y: bv32, k: nat)
    requires k < 16
    ensures SwizzlesBit(2, x, y, k)
  {
    hide Offset1, Offset2, Offset4, Offset8, Offset16, Gives;
    Named2(x, y);
  }

  lemma Named4(x: bv32, y: bv32)
    ensures var o := Offset4(x, y);
      && Gives(o, 0, x, -1, y, -1) && Gives(o, 1, x, -1, y, -1)
      && Gives(o, 2, x, 0, y, -1) && Gives(o, 3, x, 1, y, -1)
      && Gives(o, 4, x, -1, y, 0) && Gives(o, 5, x, -1, y, 1)
      && Gives(o, 6, x, -1, y, 2) && Gives(o, 7, x, 2, y, -1)
      && Gives(o, 8, x, 3, y, 3) && Gives(o, 9, x, 4, y, 4)
      && Gives(o, 10, x, 6, y, 5) && Gives(o, 11, x, 5, y, 6)
      && Gives(o, 12, x, -1, y, 3) && Gives(o, 13, x, 4, y, -1)
      && Gives(o, 14, x, -1, y, 6) && Gives(o, 15, x, 6, y, -1)
  {
    hide BitOf;
    var o := Offset4(x, y);
    LowBits(o);
    HighBits(o);
    LowBits(x);
    LowBits(y);
  }

  lemma Bits4(x: bv32, y: bv32, k: nat)
    requires k < 16
    ensures SwizzlesBit(4, x, y, k)
  {
    hide Offset1, Offset2, Offset4, Offset8, Offset16, Gives;
    Named4(x, y);
  }

  lemma Named8(x: bv32, y: bv32)
    ensures var o := Offset8(x, y);
      && Gives(o, 0, x, -1, y, -1) && Gives(o, 1, x, -1, y, -1)
      && Gives(o, 2, x, -1, y, -1) && Gives(o, 3, x, 0, y, -1)
      && Gives(o, 4, x, -1, y, 0) && Gives(o, 5, x, 1, y, -1)
      && Gives(o, 6, x, 2, y, -1) && Gives(o, 7, x, -1, y, 1)
      && Gives(o, 8, x, 3, y, 3) && Gives(o, 9, x, 4, y, 4)
      && Gives(o, 10, x, 6, y, 5) && Gives(o, 11, x, 5, y, 6)
      && Gives(o, 12, x, -1, y, 2) && Gives(o, 13, x, 3, y, -1)
      && Gives(o, 14, x, -1, y, 4) && Gives(o, 15, x, 6, y, -1)
  {
    hide BitOf;
    var o := Offset8(x, y);
    LowBits(o);
    HighBits(o);
    LowBits(x);
    LowBits(y);
  }

  lemma Bits8(x: bv32, y: bv32, k: nat)
    requires k < 16
    ensures SwizzlesBit(8, x, y, k)
  {
    hide Offset1, Offset2, Offset4, Offset8, Offset16, Gives;
    Named8(x, y);
  }

  lemma Named16(x: bv32, y: bv32)
    ensures var o := Offset16(x, y);
      && Gives(o, 0, x, -1, y, -1) && Gives(o, 1, x, -1, y, -1)
      && Gives(o, 2, x, -1, y, -1) && Gives(o, 3, x, -1, y, -1)
      && Gives(o, 4, x, 0, y, -1) && Gives(o, 5, x, -1, y, 0)
      && Gives(o, 6, x, 1, y, -1) && Gives(o, 7, x, -1, y, 1)
      && Gives(o, 8, x, 3, y, 3) && Gives(o, 9, x, 4, y, 4)
      && Gives(o, 10, x, 6, y, 5) && Gives(o, 11, x, 5, y, 6)
      && Gives(o, 12, x, -1, y, 2) && Gives(o, 13, x, 2, y, -1)
      && Gives(o, 14, x, -1, y, 3) && Gives(o, 15, x, 4, y, -1)
  {
    hide BitOf;
    var o := Offset16(x, y);
    LowBits(o);
    HighBits(o);
    LowBits(x);
    LowBits(y);
  }

  lemma Bits16(x: bv32, y: bv32, k: nat)
    requires k < 16
    ensures SwizzlesBit(16, x, y, k)
  {
    hide Offset1, Offset2, Offset4, Offset8, Offset16, Gives;
    Named16(x, y);
  }

  lemma BitsGiven(bytes: nat, x: bv32, y: bv32, k: nat)
    requires ElementSize(bytes) && k < 16
    ensures SwizzlesBit(bytes, x, y, k)
  {
    hide SwizzlesBit;
    if bytes == 1 {
      Bits1(x, y, k);
    } else if bytes == 2 {
      Bits2(x, y, k);
    } else if bytes == 4 {
      Bits4(x, y, k);
    } else if bytes == 8 {
      Bits8(x, y, k);
    } else {
      Bits16(x, y, k);
    }
  }

  // ------------------------------------------------------------ bits of numbers

  predicate Nth(b: bv32, k: nat) { One(BitOf(b, k)) }

  lemma NthStep(b: bv32, k: nat)
    ensures Nth(b, 0) == Odd(b) && Nth(b, k + 1) == Nth(Half(b), k)
  {
    hide Half;
  }

  lemma PushNamed(b: bv32, bit: bool)
    ensures var p := Push(b, bit);
      && Nth(p, 0) == bit && Nth(p, 1) == Nth(b, 0) && Nth(p, 2) == Nth(b, 1) && Nth(p, 3) == Nth(b, 2)
      && Nth(p, 4) == Nth(b, 3) && Nth(p, 5) == Nth(b, 4) && Nth(p, 6) == Nth(b, 5) && Nth(p, 7) == Nth(b, 6)
  {
    hide BitOf;
    LowBits(b);
    LowBits(Push(b, bit));
  }

  lemma PushStep(b: bv32, bit: bool, k: nat)
    requires k < 7
    ensures Nth(Push(b, bit), 0) == bit && Nth(Push(b, bit), k + 1) == Nth(b, k)
  {
    hide Nth, Push;
    PushNamed(b, bit);
  }

  lemma {:induction false} NthFromBits(b: bv32, n: nat, k: nat)
    requires k < n
    ensures Bit(FromBits(b, n), k) == 1 <==> Nth(b, k)
    decreases n
  {
    hide Bit, Nth, Half, Odd;
    var v := FromBits(b, n);
    BitHalf(v, 0);
    NthStep(b, 0);
    if k > 0 {
      BitHalf(v, k - 1);
      NthStep(b, k - 1);
      NthFromBits(Half(b), n - 1, k - 1);
    }
  }

  lemma {:induction false} NthToBits(v: nat, k: nat)
    requires k < 8
    ensures Bit(v, k) == 1 <==> Nth(ToBits(v), k)
    decreases k
  {
    hide Bit, Nth, Push, ToBits;
    BitHalf(v, 0);
    ToBitsStep(v);
    PushStep(ToBits(v / 2), v % 2 == 1, 0);
    if k > 0 {
      BitHalf(v, k - 1);
      PushStep(ToBits(v / 2), v % 2 == 1, k - 1);
      NthToBits(v / 2, k - 1);
    }
  }

  lemma {:induction false} NthXor(a: bv32, b: bv32, k: nat)
    ensures Nth(Xor(a, b), k) == (Nth(a, k) != Nth(b, k))
    decreases k
  {
    hide Nth, Xor, Half, Odd;
    XorHalf(a, b);
    NthStep(a, 0);
    NthStep(b, 0);
    NthStep(Xor(a, b), 0);
    if k > 0 {
      NthStep(a, k - 1);
      NthStep(b, k - 1);
      NthStep(Xor(a, b), k - 1);
      NthXor(Half(a), Half(b), k - 1);
    }
  }

  lemma XorHalf(a: bv32, b: bv32)
    ensures Half(Xor(a, b)) == Xor(Half(a), Half(b)) && Odd(Xor(a, b)) == (Odd(a) != Odd(b))
  {
    LowBit(a);
    LowBit(b);
  }

  predicate Chosen(v: nat, j: int) { j >= 0 && Bit(v, j) == 1 }

  lemma GivenBit(o: bv32, k: nat, x: bv32, i: int, y: bv32, j: int)
    requires Gives(o, k, x, i, y, j)
    ensures Nth(o, k) == ((i >= 0 && Nth(x, i)) != (j >= 0 && Nth(y, j)))
  {
    hide BitOf, Xor, One;
    PickSmall(x, i);
    PickSmall(y, j);
    OneXor(Pick(x, i), Pick(y, j));
  }

  lemma PickSmall(b: bv32, j: int)
    ensures Pick(b, j) & 1 == Pick(b, j) && One(Pick(b, j)) == (j >= 0 && Nth(b, j))
  {
    hide BitOf;
    if j >= 0 { BitOfIsBit(b, j); }
  }

  /** A coordinate's bits, put together again from its block and its place in the block. */
  lemma JoinedBit(v: nat, a: nat, j: nat, low: nat, high: nat)
    requires j < 8 && low == v % Pow2(a) && high == v / Pow2(a) * Pow2(a)
    ensures Nth(Xor(ToBits(low), ToBits(high)), j) <==> Bit(v, j) == 1
  {
    hide Nth, Xor, ToBits, Bit, Pow2;
    SplitBit(v, a, j);
    NthXor(ToBits(low), ToBits(high), j);
    NthToBits(low, j);
    NthToBits(high, j);
  }

  lemma SplitBit(v: nat, a: nat, j: nat)
    ensures Bit(v % Pow2(a), j) == if j < a then Bit(v, j) else 0
    ensures Bit(v / Pow2(a) * Pow2(a), j) == if j < a then 0 else Bit(v, j)
  {
    hide Bit, Pow2;
    var q := Quotient(v, Pow2(a));
    BitOfRemainder(v, a, j);
    BitOfMultiple(q, a, j);
    if j >= a { BitOfQuotient(v, a, j - a); }
  }

  // ------------------------------------------------------------------ texels

  /** Where texel (x, y) of a surface lies in its block. */
  function Texel(bytes: nat, x: nat, y: nat): (r: nat)
    requires ElementSize(bytes)
    ensures r < 0x1_0000
  {
    InBlock(bytes, x / BlockWidth(bytes), y / BlockHeight(bytes), x % BlockWidth(bytes), y % BlockHeight(bytes))
  }

  /** Every offset bit is the XOR of the coordinate bits its source names, taken from the
      coordinates in the whole surface. */
  lemma TexelBit(bytes: nat, x: nat, y: nat, k: nat)
    requires ElementSize(bytes) && k < 16
    ensures var s := Sources(bytes)[k];
      Bit(Texel(bytes, x, y), k) == 1 <==> Chosen(x, s.x) != Chosen(y, s.y)
  {
    hide RenderTargetOffset, Xor, ToBits, FromBits, Bit, Nth, Gives, Sources, WidthLog, HeightLog;
    var a, b := WidthLog(bytes), HeightLog(bytes);
    var w, h := BlockWidth(bytes), BlockHeight(bytes);
    var x0, x1 := ToBits(x % w), ToBits(x / w * w);
    var y0, y1 := ToBits(y % h), ToBits(y / h * h);
    SwizzleLinear(bytes, x0, y0, x1, y1);
    var o := RenderTargetOffset(bytes, Xor(x0, x1), Xor(y0, y1));
    NthFromBits(o, 16, k);
    BitsGiven(bytes, Xor(x0, x1), Xor(y0, y1), k);
    var s := Sources(bytes)[k];
    SourceBounds(bytes, k);
    GivenBit(o, k, Xor(x0, x1), s.x, Xor(y0, y1), s.y);
    if s.x >= 0 { JoinedBit(x, a, s.x, x % w, x / w * w); }
    if s.y >= 0 { JoinedBit(y, b, s.y, y % h, y / h * h); }
  }

  // -------------------------------------------------------------------- runs

  /** Texels that stay together: eight bytes of one-byte elements, sixteen bytes of larger ones. */
  function RunLog(bytes: nat): (r: nat)
    requires ElementSize(bytes)
    ensures r <= 3 && r + SizeLog(bytes) == if bytes == 1 then 3 else 4
  {
    if bytes <= 2 then 3 else if bytes == 4 then 2 else if bytes == 8 then 1 else 0
  }

  /** The low offset bits count along the row; the others leave the low coordinate bits alone. */
  lemma RunSources(bytes: nat, k: nat)
    requires ElementSize(bytes) && k < 16
    ensures var s, r, e := Sources(bytes)[k], RunLog(bytes), SizeLog(bytes);
      if k < e then s == Source(-1, -1) else if k < e + r then s == Source(k - e, -1) else s.x < 0 || s.x >= r
  {
  }

  lemma MovedBit(x: nat, r: nat, i: nat, j: nat)
    requires x % Pow2(r) == 0 && i < Pow2(r)
    ensures Bit(x + i, j) == if j < r then Bit(i, j) else Bit(x, j)
  {
    hide Bit, Pow2;
    var p := Pow2(r);
    assert x == x / p * p;
    DivModUnique(x + i, p, x / p, i);
    if j < r {
      BitOfRemainder(x + i, r, j);
    } else {
      BitOfQuotient(x + i, r, j - r);
      BitOfQuotient(x, r, j - r);
    }
  }

  lemma RunLowPart(bytes: nat, x: nat, y: nat, i: nat)
    requires ElementSize(bytes) && x % Pow2(RunLog(bytes)) == 0 && i < Pow2(RunLog(bytes))
    ensures Texel(bytes, x + i, y) % Pow2(SizeLog(bytes) + RunLog(bytes)) == i * bytes
  {
    hide Bit, Texel, Sources, RunLog, SizeLog, ElementSize, Pow2;
    var r, e := RunLog(bytes), SizeLog(bytes);
    var t := Texel(bytes, x + i, y);
    forall k: nat | k < e + r ensures Bit(t % Pow2(e + r), k) == Bit(i * bytes, k) {
      BitOfRemainder(t, e + r, k);
      TexelBit(bytes, x + i, y, k);
      RunSources(bytes, k);
      BitOfMultiple(i, e, k);
      if k >= e { MovedBit(x, r, i, k - e); }
    }
    Pow2Sum(r, e);
    MulMono(i + 1, Pow2(r), bytes);
    BitsDetermine(t % Pow2(e + r), i * bytes, e + r);
  }

  lemma {:induction false} Pow2Sum(a: nat, b: nat)
    ensures Pow2(a) * Pow2(b) == Pow2(a + b)
    decreases a
  {
    if a > 0 { Pow2Sum(a - 1, b); }
  }

  lemma RunHighBit(bytes: nat, x: nat, y: nat, i: nat, k: nat)
    requires ElementSize(bytes) && x % Pow2(RunLog(bytes)) == 0 && i < Pow2(RunLog(bytes))
    requires k >= SizeLog(bytes) + RunLog(bytes)
    ensures Bit(Texel(bytes, x + i, y), k) == Bit(Texel(bytes, x, y), k)
  {
    hide Bit, Texel, Sources, RunLog, SizeLog, ElementSize, Pow2;
    if k < 16 {
      TexelBit(bytes, x + i, y, k);
      TexelBit(bytes, x, y, k);
      RunSources(bytes, k);
      var s := Sources(bytes)[k];
      if s.x >= 0 { MovedBit(x, RunLog(bytes), i, s.x); }
    } else {
      Pow2Small();
      BitOfSmall(Texel(bytes, x + i, y), 16, k);
      BitOfSmall(Texel(bytes, x, y), 16, k);
    }
  }

  lemma RunHighPart(bytes: nat, x: nat, y: nat, i: nat)
    requires ElementSize(bytes) && x % Pow2(RunLog(bytes)) == 0 && i < Pow2(RunLog(bytes))
    ensures var p := Pow2(SizeLog(bytes) + RunLog(bytes));
      Texel(bytes, x + i, y) / p == Texel(bytes, x, y) / p
  {
    hide Bit, Texel, Sources, RunLog, SizeLog, ElementSize, Pow2;
    var n := SizeLog(bytes) + RunLog(bytes);
    var t, u := Texel(bytes, x + i, y), Texel(bytes, x, y);
    var q, r := Quotient(t, Pow2(n)), Quotient(u, Pow2(n));
    Pow2Small();
    forall k: nat | k < 16 ensures Bit(q, k) == Bit(r, k) {
      BitOfQuotient(t, n, k);
      BitOfQuotient(u, n, k);
      RunHighBit(bytes, x, y, i, k + n);
    }
    BitsDetermine(q, r, 16);
  }

  /** A run of texels along a row lies consecutively and in order. */
  lemma RunTogether(bytes: nat, x: nat, y: nat, i: nat)
    requires ElementSize(bytes) && x % Pow2(RunLog(bytes)) == 0 && i < Pow2(RunLog(bytes))
    ensures Texel(bytes, x + i, y) == Texel(bytes, x, y) + i * bytes
  {
    hide Texel, RunLog, SizeLog;
    RunLowPart(bytes, x, y, i);
    RunLowPart(bytes, x, y, 0);
    RunHighPart(bytes, x, y, i);
  }
}
