/** The render-target swizzle: where a texel lies inside its 64 KiB block. Offsets are XORs of
    shifted and masked coordinate bits, written as bit vectors. */
module TileSwizzle {
  import opened Arith
  import opened Words

  // ------------------------------------------------------ words as bit vectors

  function ToBits(x: nat): bv32 {
    if x == 0 then 0 else Push(ToBits(x / 2), x % 2 == 1)
  }

  /** The number in the low `k` bits. */
  function FromBits(b: bv32, k: nat): (r: nat)
    ensures r < Pow2(k)
  {
    if k == 0 then 0 else 2 * FromBits(Half(b), k - 1) + (if Odd(b) then 1 else 0)
  }

  /** Two to the `k`, for the few sizes that occur. */
  function Limit(k: nat): bv32
    requires k <= 16
  {
    [1, 2, 4, 8, 0x10, 0x20, 0x40, 0x80, 0x100, 0x200, 0x400, 0x800, 0x1000, 0x2000, 0x4000, 0x8000, 0x1_0000][k]
  }

  predicate Doubles(p: bv32, q: bv32) { q == p << 1 && 0 < p <= 0x8000 }

  predicate Less(b: bv32, p: bv32) { b < p }

  lemma LimitStep(k: nat)
    requires 0 < k <= 16
    ensures Doubles(Limit(k - 1), Limit(k))
  {
  }

  /** The bit vector fits in `k` bits. */
  predicate Below(b: bv32, k: nat)
    requires k <= 16
  {
    Less(b, Limit(k))
  }

  function Push(b: bv32, bit: bool): bv32 { (b << 1) | if bit then 1 else 0 }

  function Half(b: bv32): bv32 { b >> 1 }

  predicate Odd(b: bv32) { b & 1 == 1 }

  lemma BelowPush(b: bv32, k: nat, bit: bool)
    requires 0 < k <= 16 && Below(b, k - 1)
    ensures Below(Push(b, bit), k) && Half(Push(b, bit)) == b && Odd(Push(b, bit)) == bit
  {
    hide Push, Half, Odd, Limit, Less, Doubles;
    LimitStep(k);
    PushFacts(b, Limit(k - 1), Limit(k), bit);
  }

  lemma PushFacts(b: bv32, p: bv32, q: bv32, bit: bool)
    requires Less(b, p) && Doubles(p, q)
    ensures Less(Push(b, bit), q) && Half(Push(b, bit)) == b && Odd(Push(b, bit)) == bit
  {
  }

  lemma BelowHalf(b: bv32, k: nat)
    requires 0 < k <= 16 && Below(b, k)
    ensures Below(Half(b), k - 1)
  {
    hide Half, Limit, Less, Doubles;
    LimitStep(k);
    HalfFacts(b, Limit(k - 1), Limit(k));
  }

  lemma HalfFacts(b: bv32, p: bv32, q: bv32)
    requires Less(b, q) && Doubles(p, q)
    ensures Less(Half(b), p)
  {
  }

  lemma SameHalves(b: bv32, c: bv32)
    requires Half(b) == Half(c) && Odd(b) == Odd(c)
    ensures b == c
  {
    LowBit(b);
    LowBit(c);
  }

  lemma LowBit(b: bv32)
    ensures b & 1 == 0 || b & 1 == 1
  {
  }

  lemma ToBitsStep(x: nat)
    ensures ToBits(x) == Push(ToBits(x / 2), x % 2 == 1)
  {
  }

  lemma {:induction false} ToBitsBelow(x: nat, k: nat)
    requires x < Pow2(k) && k <= 16
    ensures Below(ToBits(x), k)
    decreases k
  {
    hide Below, ToBits, Push, Half, Odd;
    if k == 0 {
      ZeroBelow();
    } else {
      ToBitsBelow(x / 2, k - 1);
      ToBitsStep(x);
      BelowPush(ToBits(x / 2), k, x % 2 == 1);
    }
  }

  lemma ZeroBelow()
    ensures Below(ToBits(0), 0) && Half(0) == 0 && !Odd(0)
  {
  }

  /** A number that fits is what its bits say. */
  lemma {:induction false} FromToBits(x: nat, k: nat)
    requires x < Pow2(k) && k <= 16
    ensures FromBits(ToBits(x), k) == x
    decreases k
  {
    hide Below, ToBits, Push, Half, Odd;
    if k > 0 {
      FromToBits(x / 2, k - 1);
      ToBitsBelow(x / 2, k - 1);
      ToBitsStep(x);
      BelowPush(ToBits(x / 2), k, x % 2 == 1);
    }
  }

  /** Different small bit vectors are different numbers. */
  lemma {:induction false} FromBitsInjective(b: bv32, c: bv32, k: nat)
    requires k <= 16 && Below(b, k) && Below(c, k) && FromBits(b, k) == FromBits(c, k)
    ensures b == c
    decreases k
  {
    hide Below, Half, Odd;
    if k == 0 {
      BelowOne(b);
      BelowOne(c);
    } else {
      BelowHalf(b, k);
      BelowHalf(c, k);
      FromBitsInjective(Half(b), Half(c), k - 1);
      SameHalves(b, c);
    }
  }

  lemma BelowOne(b: bv32)
    requires Below(b, 0)
    ensures b == 0
  {
  }

  /** The low `a` bits are clear. */
  predicate Clear(b: bv32, a: nat)
    requires a <= 4
  {
    b & (Limit(a) - 1) == 0
  }

  lemma ClearHalf(b: bv32, a: nat)
    requires 0 < a <= 4 && Clear(b, a)
    ensures !Odd(b) && Clear(Half(b), a - 1)
  {
    MaskHalf(b, Limit(a - 1));
    LimitStep(a);
  }

  lemma MaskHalf(b: bv32, p: bv32)
    requires p in {1, 2, 4, 8}
    ensures b & ((p << 1) - 1) == 0 ==> b & 1 == 0 && (b >> 1) & (p - 1) == 0
  {
  }

  /** Clear low bits make a multiple. */
  lemma {:induction false} FromBitsAligned(b: bv32, k: nat, a: nat)
    requires a <= k && a <= 4 && Clear(b, a)
    ensures FromBits(b, k) % Pow2(a) == 0
    decreases a
  {
    hide Clear, Half, Odd;
    if a > 0 {
      ClearHalf(b, a);
      FromBitsAligned(Half(b), k - 1, a - 1);
      DoubleMultiple(FromBits(Half(b), k - 1), Pow2(a - 1));
    }
  }

  lemma DoubleMultiple(x: nat, p: nat)
    requires p > 0 && x % p == 0
    ensures 2 * x % (2 * p) == 0
  {
    DivModUnique(2 * x, 2 * p, x / p, 0);
  }

  // ------------------------------------------------------------- the swizzle

  predicate ElementSize(bytes: nat) { bytes in {1, 2, 4, 8, 16} }

  function SizeLog(bytes: nat): (r: nat)
    requires ElementSize(bytes)
    ensures r <= 4 && Pow2(r) == bytes
  {
    if bytes == 1 then 0 else if bytes == 2 then 1 else if bytes == 4 then 2 else if bytes == 8 then 3 else 4
  }

  // The offset of element (x, y) for each element size, from the low bits of both coordinates.

  function Offset1(x: bv32, y: bv32): bv32 {
    ((y << 2) & 0x0008) ^ ((y << 4) & 0x0010) ^ ((y << 3) & 0x00a0) ^ ((y << 5) & 0x0f00) ^ ((y << 6) & 0x1000)
    ^ ((y << 7) & 0x4000)
    ^ (x & 0x0007) ^ ((x << 3) & 0x0040) ^ ((x << 5) & 0x0300) ^ ((x << 4) & 0x0400) ^ ((x << 6) & 0x0800)
    ^ ((x << 7) & 0x2000) ^ ((x << 8) & 0x8000)
  }

  function Offset2(x: bv32, y: bv32): bv32 {
    ((y << 4) & 0x0070) ^ ((y << 5) & 0x0f00) ^ ((y << 8) & 0x5000)
    ^ ((x << 1) & 0x000e) ^ ((x << 4) & 0x0480) ^ ((x << 5) & 0x0300) ^ ((x << 6) & 0x0800) ^ ((x << 7) & 0x2000)
    ^ ((x << 8) & 0x8000)
  }

  function Offset4(x: bv32, y: bv32): bv32 {
    ((y << 4) & 0x0070) ^ ((y << 5) & 0x0f00) ^ ((y << 9) & 0x1000) ^ ((y << 8) & 0x4000)
    ^ ((x << 2) & 0x000c) ^ ((x << 5) & 0x0380) ^ ((x << 4) & 0x0400) ^ ((x << 6) & 0x0800) ^ ((x << 9) & 0xa000)
  }

  function Offset8(x: bv32, y: bv32): bv32 {
    ((y << 4) & 0x0010) ^ ((y << 6) & 0x0080) ^ ((y << 5) & 0x0f00) ^ ((y << 10) & 0x5000)
    ^ ((x << 3) & 0x0008) ^ ((x << 4) & 0x0460) ^ ((x << 5) & 0x0300) ^ ((x << 6) & 0x0800) ^ ((x << 10) & 0x2000)
    ^ ((x << 9) & 0x8000)
  }

  function Offset16(x: bv32, y: bv32): bv32 {
    ((x << 4) & 0x0410) ^ ((x << 5) & 0x0340) ^ ((x << 6) & 0x0800) ^ ((x << 11) & 0xa000)
    ^ ((y << 5) & 0x0f20) ^ ((y << 6) & 0x0080) ^ ((y << 10) & 0x1000) ^ ((y << 11) & 0x4000)
  }

  /** The offset of element (x, y); the coordinates may lie outside the block. */
  function RenderTargetOffset(bytes: nat, x: bv32, y: bv32): bv32
    requires ElementSize(bytes)
  {
    if bytes == 1 then Offset1(x, y)
    else if bytes == 2 then Offset2(x, y)
    else if bytes == 4 then Offset4(x, y)
    else if bytes == 8 then Offset8(x, y)
    else Offset16(x, y)
  }

  function BlockWidth(bytes: nat): (r: nat)
    requires ElementSize(bytes)
    ensures r in {64, 128, 256}
  {
    if bytes <= 2 then 256 else if bytes <= 8 then 128 else 64
  }

  function BlockHeight(bytes: nat): (r: nat)
    requires ElementSize(bytes)
    ensures r in {64, 128, 256} && BlockWidth(bytes) * r * bytes == 0x1_0000
  {
    if bytes == 1 then 256 else if bytes <= 4 then 128 else 64
  }

  /** Whatever the coordinates, an offset lies in the block and on an element boundary. */
  lemma OffsetInBlock(bytes: nat, x: bv32, y: bv32)
    requires ElementSize(bytes)
    ensures Below(RenderTargetOffset(bytes, x, y), 16) && Clear(RenderTargetOffset(bytes, x, y), SizeLog(bytes))
  {
    if bytes == 1 {} else if bytes == 2 {} else if bytes == 4 {} else if bytes == 8 {} else {}
  }

  function Xor(a: bv32, b: bv32): bv32 { a ^ b }

  /** The swizzle is linear over XOR. */
  lemma SwizzleLinear(bytes: nat, x: bv32, y: bv32, x': bv32, y': bv32)
    requires ElementSize(bytes)
    ensures RenderTargetOffset(bytes, Xor(x, x'), Xor(y, y')) == Xor(RenderTargetOffset(bytes, x, y), RenderTargetOffset(bytes, x', y'))
  {
    hide Offset1, Offset2, Offset4, Offset8, Offset16, Xor;
    if bytes == 1 {
      Linear1(x, y, x', y');
    } else if bytes == 2 {
      Linear2(x, y, x', y');
    } else if bytes == 4 {
      Linear4(x, y, x', y');
    } else if bytes == 8 {
      Linear8(x, y, x', y');
    } else {
      Linear16(x, y, x', y');
    }
  }

  lemma Linear1(x: bv32, y: bv32, x': bv32, y': bv32)
    ensures Offset1(Xor(x, x'), Xor(y, y')) == Xor(Offset1(x, y), Offset1(x', y'))
  {
  }

  lemma Linear2(x: bv32, y: bv32, x': bv32, y': bv32)
    ensures Offset2(Xor(x, x'), Xor(y, y')) == Xor(Offset2(x, y), Offset2(x', y'))
  {
  }

  lemma Linear4(x: bv32, y: bv32, x': bv32, y': bv32)
    ensures Offset4(Xor(x, x'), Xor(y, y')) == Xor(Offset4(x, y), Offset4(x', y'))
  {
  }

  lemma Linear8(x: bv32, y: bv32, x': bv32, y': bv32)
    ensures Offset8(Xor(x, x'), Xor(y, y')) == Xor(Offset8(x, y), Offset8(x', y'))
  {
  }

  lemma Linear16(x: bv32, y: bv32, x': bv32, y': bv32)
    ensures Offset16(Xor(x, x'), Xor(y, y')) == Xor(Offset16(x, y), Offset16(x', y'))
  {
  }

  lemma Kernel1(x: bv32, y: bv32)
    requires x < 256 && y < 256 && Offset1(x, y) == 0
    ensures x == 0 && y == 0
  {
  }

  lemma Kernel2(x: bv32, y: bv32)
    requires x < 256 && y < 128 && Offset2(x, y) == 0
    ensures x == 0 && y == 0
  {
  }

  lemma Kernel4(x: bv32, y: bv32)
    requires x < 128 && y < 128 && Offset4(x, y) == 0
    ensures x == 0 && y == 0
  {
  }

  lemma Kernel8(x: bv32, y: bv32)
    requires x < 128 && y < 64 && Offset8(x, y) == 0
    ensures x == 0 && y == 0
  {
  }

  lemma Kernel16(x: bv32, y: bv32)
    requires x < 64 && y < 64 && Offset16(x, y) == 0
    ensures x == 0 && y == 0
  {
  }

  function WidthLog(bytes: nat): (r: nat)
    requires ElementSize(bytes)
    ensures 6 <= r <= 8 && Pow2(r) == BlockWidth(bytes)
  {
    Pow2Small();
    if bytes <= 2 then 8 else if bytes <= 8 then 7 else 6
  }

  function HeightLog(bytes: nat): (r: nat)
    requires ElementSize(bytes)
    ensures 6 <= r <= 8 && Pow2(r) == BlockHeight(bytes)
  {
    Pow2Small();
    if bytes == 1 then 8 else if bytes <= 4 then 7 else 6
  }

  lemma Pow2Small()
    ensures Pow2(6) == 64 && Pow2(7) == 128 && Pow2(8) == 256 && Pow2(16) == 0x1_0000
  {
    assert Pow2(4) == 16;
    assert Pow2(8) == 256;
    assert Pow2(12) == 4096;
  }

  /** Only the block's corner goes to offset zero. */
  lemma SwizzleKernel(bytes: nat, x: bv32, y: bv32)
    requires ElementSize(bytes) && Below(x, WidthLog(bytes)) && Below(y, HeightLog(bytes))
    requires RenderTargetOffset(bytes, x, y) == 0
    ensures x == 0 && y == 0
  {
    hide Offset1, Offset2, Offset4, Offset8, Offset16;
    if bytes == 1 {
      Kernel1(x, y);
    } else if bytes == 2 {
      Kernel2(x, y);
    } else if bytes == 4 {
      Kernel4(x, y);
    } else if bytes == 8 {
      Kernel8(x, y);
    } else {
      Kernel16(x, y);
    }
  }

  /** Inside one block the swizzle maps different elements to different offsets. */
  lemma SwizzleInjective(bytes: nat, x: bv32, y: bv32, x': bv32, y': bv32)
    requires ElementSize(bytes)
    requires Below(x, WidthLog(bytes)) && Below(x', WidthLog(bytes))
    requires Below(y, HeightLog(bytes)) && Below(y', HeightLog(bytes))
    requires RenderTargetOffset(bytes, x, y) == RenderTargetOffset(bytes, x', y')
    ensures x == x' && y == y'
  {
    hide RenderTargetOffset, Below, Xor, WidthLog, HeightLog;
    SwizzleLinear(bytes, x, y, x', y');
    XorBelowBlock(x, x', WidthLog(bytes));
    XorBelowBlock(y, y', HeightLog(bytes));
    SelfXor(RenderTargetOffset(bytes, x, y));
    SwizzleKernel(bytes, Xor(x, x'), Xor(y, y'));
    XorZero(x, x');
    XorZero(y, y');
  }

  lemma XorBelowBlock(a: bv32, b: bv32, k: nat)
    requires 6 <= k <= 8 && Below(a, k) && Below(b, k)
    ensures Below(Xor(a, b), k)
  {
    if k == 6 {} else if k == 7 {} else {}
  }

  lemma SelfXor(a: bv32)
    ensures Xor(a, a) == 0
  {
  }

  lemma XorZero(a: bv32, b: bv32)
    requires Xor(a, b) == 0
    ensures a == b
  {
  }

  // ----------------------------------------------------- offsets as numbers

  function LocalOffset(bytes: nat, x: nat, y: nat): bv32
    requires ElementSize(bytes)
  {
    RenderTargetOffset(bytes, ToBits(x), ToBits(y))
  }

  /** The block's own XOR pattern comes from the coordinates of its corner. */
  function BlockXor(bytes: nat, blockX: nat, blockY: nat): bv32
    requires ElementSize(bytes)
  {
    RenderTargetOffset(bytes, ToBits(blockX * BlockWidth(bytes)), ToBits(blockY * BlockHeight(bytes)))
  }

  function InBlock(bytes: nat, blockX: nat, blockY: nat, x: nat, y: nat): (r: nat)
    requires ElementSize(bytes)
    ensures r < 0x1_0000
  {
    Pow2Small();
    FromBits(Xor(LocalOffset(bytes, x, y), BlockXor(bytes, blockX, blockY)), 16)
  }

  lemma XorBelow(a: bv32, b: bv32)
    requires Below(a, 16) && Below(b, 16)
    ensures Below(Xor(a, b), 16)
  {
  }

  lemma XorClear(a: bv32, b: bv32, k: nat)
    requires k <= 4 && Clear(a, k) && Clear(b, k)
    ensures Clear(Xor(a, b), k)
  {
    if k == 0 {} else if k == 1 {} else if k == 2 {} else if k == 3 {} else {}
  }

  lemma XorCancels(a: bv32, b: bv32, c: bv32)
    requires Xor(a, c) == Xor(b, c)
    ensures a == b
  {
  }

  lemma InBlockAligned(bytes: nat, blockX: nat, blockY: nat, x: nat, y: nat)
    requires ElementSize(bytes)
    ensures InBlock(bytes, blockX, blockY, x, y) % bytes == 0
    ensures InBlock(bytes, blockX, blockY, x, y) + bytes <= 0x1_0000
  {
    hide RenderTargetOffset, Xor, Clear, Below, FromBits, ToBits;
    var a, b := LocalOffset(bytes, x, y), BlockXor(bytes, blockX, blockY);
    OffsetInBlock(bytes, ToBits(x), ToBits(y));
    OffsetInBlock(bytes, ToBits(blockX * BlockWidth(bytes)), ToBits(blockY * BlockHeight(bytes)));
    XorClear(a, b, SizeLog(bytes));
    FromBitsAligned(Xor(a, b), 16, SizeLog(bytes));
    var r := InBlock(bytes, blockX, blockY, x, y);
    AlignedRoom(r, bytes);
  }

  lemma AlignedRoom(r: nat, bytes: nat)
    requires ElementSize(bytes) && r < 0x1_0000 && r % bytes == 0
    ensures r + bytes <= 0x1_0000
  {
  }

  lemma InBlockInjective(bytes: nat, blockX: nat, blockY: nat, x: nat, y: nat, x': nat, y': nat)
    requires ElementSize(bytes)
    requires x < BlockWidth(bytes) && x' < BlockWidth(bytes) && y < BlockHeight(bytes) && y' < BlockHeight(bytes)
    requires InBlock(bytes, blockX, blockY, x, y) == InBlock(bytes, blockX, blockY, x', y')
    ensures x == x' && y == y'
  {
    hide RenderTargetOffset, Xor, Clear, Below, FromBits, ToBits, Pow2;
    var c := BlockXor(bytes, blockX, blockY);
    var a, b := LocalOffset(bytes, x, y), LocalOffset(bytes, x', y');
    OffsetInBlock(bytes, ToBits(x), ToBits(y));
    OffsetInBlock(bytes, ToBits(x'), ToBits(y'));
    OffsetInBlock(bytes, ToBits(blockX * BlockWidth(bytes)), ToBits(blockY * BlockHeight(bytes)));
    XorBelow(a, c);
    XorBelow(b, c);
    FromBitsInjective(Xor(a, c), Xor(b, c), 16);
    XorCancels(a, b, c);
    ToBitsBelow(x, WidthLog(bytes));
    ToBitsBelow(x', WidthLog(bytes));
    ToBitsBelow(y, HeightLog(bytes));
    ToBitsBelow(y', HeightLog(bytes));
    SwizzleInjective(bytes, ToBits(x), ToBits(y), ToBits(x'), ToBits(y'));
    FromToBits(x, WidthLog(bytes));
    FromToBits(x', WidthLog(bytes));
    FromToBits(y, HeightLog(bytes));
    FromToBits(y', HeightLog(bytes));
  }
}
