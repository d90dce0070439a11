/** Copying a 64 KiB-tiled render target into linear rows. */
module Detile {
  import opened Words
  import opened Arith
  import opened TileSwizzle
  import Formats
  import TileTail
  import M = TileMips
  import L = ImageLayout

  const BLOCK: nat := 65536

  datatype Status = Success | UnsupportedLayout | InvalidArgument | SizeMismatch | Overflow | TileAddressFailure

  datatype Plan = Plan(bytes: nat, columns: nat, rows: nat, rowBytes: nat, width: nat, height: nat)

  datatype Planned = Ready(plan: Plan) | Refused(status: Status)

  /** The layout's fields are machine words. */
  predicate Sized(l: L.Layout) {
    && |l.mips| == L.MAX_MIPS
    && l.mips[0].width < TWO32 && l.mips[0].height < TWO32 && l.mips[0].rowBytes < TWO64
    && l.storageBytes < TWO64
  }

  function MakePlan(l: L.Layout, tiledSize: nat, linearSize: nat, overlap: bool): Planned
    requires Sized(l)
  {
    var bytes := Formats.NumBytesPerElement(l.viewFormat);
    var m := l.mips[0];
    if l.status != L.Success || !l.needsDetile || l.arrayLayers != 1 || l.blockCompressed then Refused(UnsupportedLayout)
    else if Formats.BlockBytes(l.viewFormat) != 0 || !ElementSize(bytes) then Refused(UnsupportedLayout)
    else if m.width == 0 || m.height == 0 || m.depth != 1 || m.blockWidth != m.width
      || m.blockHeight != m.height || m.blockDepth != 1 || m.byteOffset != 0 then Refused(UnsupportedLayout)
    else if m.rowBytes == 0 || m.rowBytes % bytes != 0 then Refused(InvalidArgument)
    else PlanRows(l, bytes, tiledSize, linearSize, overlap)
  }

  function PlanRows(l: L.Layout, bytes: nat, tiledSize: nat, linearSize: nat, overlap: bool): Planned
    requires Sized(l) && ElementSize(bytes)
  {
    var m := l.mips[0];
    var least, slice := L.Multiply(m.width, bytes), L.Multiply(m.rowBytes, m.height);
    if least.None? || m.rowBytes < least.value || slice.None? then Refused(Overflow)
    else if m.sliceBytes != slice.value || m.layerBytes != m.sliceBytes || m.byteCount != m.layerBytes
      || l.totalBytes != m.byteCount then Refused(InvalidArgument)
    else if l.storageBytes == 0 || l.key.byteCount != l.storageBytes then Refused(InvalidArgument)
    else if tiledSize != l.storageBytes || linearSize != l.totalBytes then Refused(SizeMismatch)
    else if overlap then Refused(InvalidArgument)
    else PlanBlocks(l, bytes)
  }

  function PlanBlocks(l: L.Layout, bytes: nat): Planned
    requires Sized(l) && ElementSize(bytes)
  {
    var columns := BlockColumns(Quotient(l.mips[0].rowBytes, bytes), BlockWidth(bytes));
    if columns.None? then Refused(Overflow) else PlanBlockRows(l, bytes, columns.value)
  }

  /** Blocks across one row of elements, counting a partial block. */
  function BlockColumns(pitch: u64, width: nat): Option<u64>
    requires width > 0
  {
    if pitch % width != 0 then L.Add(Quotient(pitch, width), 1) else Some(Quotient(pitch, width))
  }

  function PlanBlockRows(l: L.Layout, bytes: nat, columns: u64): Planned
    requires Sized(l) && ElementSize(bytes)
  {
    var m, rowOfBlocks := l.mips[0], L.Multiply(columns, BLOCK);
    if columns == 0 || rowOfBlocks.None? || rowOfBlocks.value == 0 then Refused(InvalidArgument)
    else if l.storageBytes % rowOfBlocks.value != 0 then Refused(InvalidArgument)
    else
      var rows := Quotient(l.storageBytes, rowOfBlocks.value);
      var covered := L.Multiply(rows, BlockHeight(bytes));
      if rows == 0 || covered.None? || m.height > covered.value then Refused(InvalidArgument)
      else Ready(Plan(bytes, columns, rows, m.rowBytes, m.width, m.height))
  }

  // ------------------------------------------------------ texel addresses

  function BlockOffset(bytes: nat, x: nat, y: nat): Option<bv32>
    requires ElementSize(bytes)
  {
    if x >= BlockWidth(bytes) || y >= BlockHeight(bytes) then None else
    var offset := LocalOffset(bytes, x, y);
    if !Below(offset, 16) || !Clear(offset, SizeLog(bytes)) then None else Some(offset)
  }

  function XorOffset(bytes: nat, blockX: nat, blockY: nat): Option<bv32>
    requires ElementSize(bytes)
  {
    if blockX > (TWO32 - 1) / BlockWidth(bytes) || blockY > (TWO32 - 1) / BlockHeight(bytes) then None else
    var offset := BlockXor(bytes, blockX, blockY);
    if !Below(offset, 16) || !Clear(offset, SizeLog(bytes)) then None else Some(offset)
  }

  datatype Offsets = Offsets(tiled: nat, linear: nat)

  /** Checked addition of two checked values. */
  function Sum(a: Option<u64>, b: Option<u64>): Option<u64> {
    if a.None? || b.None? then None else L.Add(a.value, b.value)
  }

  /** Offset of an element inside its block, the block's pattern applied. */
  function IntraBlock(bytes: nat, x: u32, y: u32): (r: Option<nat>)
    requires ElementSize(bytes)
    ensures r.Some? ==> r.value < BLOCK
  {
    var inside := BlockOffset(bytes, x % BlockWidth(bytes), y % BlockHeight(bytes));
    var xor := XorOffset(bytes, x / BlockWidth(bytes), y / BlockHeight(bytes));
    if inside.None? || xor.None? || !Below(Xor(inside.value, xor.value), 16) then None
    else
      Pow2Small();
      Some(FromBits(Xor(inside.value, xor.value), 16))
  }

  function CalculateOffsets(p: Plan, x: u32, y: u32): Option<Offsets>
    requires ElementSize(p.bytes) && p.columns < TWO64 && p.rowBytes < TWO64
  {
    var inside := IntraBlock(p.bytes, x, y);
    if inside.None? then None
    else JoinOffsets(p, x, y, Quotient(x, BlockWidth(p.bytes)), Quotient(y, BlockHeight(p.bytes)), inside.value)
  }

  function JoinOffsets(p: Plan, x: u32, y: u32, blockX: u32, blockY: u32, inside: nat): Option<Offsets>
    requires p.bytes < TWO64 && p.columns < TWO64 && p.rowBytes < TWO64 && inside < TWO64
  {
    var index := Sum(L.Multiply(blockY, p.columns), Some(blockX));
    var tiled := if index.None? then None else Sum(L.Multiply(index.value, BLOCK), Some(inside));
    var linear := Sum(L.Multiply(y, p.rowBytes), L.Multiply(x, p.bytes));
    if tiled.None? || linear.None? then None else Some(Offsets(tiled.value, linear.value))
  }

  // ---------------------------------------------------- the map, unbounded

  /** A plan whose numbers agree with the two buffers. */
  predicate PlanOk(p: Plan, tiledSize: nat, linearSize: nat) {
    && ElementSize(p.bytes)
    && 0 < p.width < TWO32 && 0 < p.height < TWO32
    && p.width * p.bytes <= p.rowBytes < TWO64
    && p.width <= p.columns * BlockWidth(p.bytes) && p.columns < TWO64
    && p.height <= p.rows * BlockHeight(p.bytes)
    && p.rows * (p.columns * BLOCK) == tiledSize < TWO64
    && p.rowBytes * p.height == linearSize < TWO64
  }

  function BlockIndex(p: Plan, x: nat, y: nat): nat
    requires ElementSize(p.bytes)
  {
    y / BlockHeight(p.bytes) * p.columns + x / BlockWidth(p.bytes)
  }

  function Inside(p: Plan, x: nat, y: nat): (r: nat)
    requires ElementSize(p.bytes)
    ensures r < BLOCK
  {
    InBlock(p.bytes, x / BlockWidth(p.bytes), y / BlockHeight(p.bytes), x % BlockWidth(p.bytes), y % BlockHeight(p.bytes))
  }

  /** Byte offset of element (x, y) in the tiled image. */
  function TiledAt(p: Plan, x: nat, y: nat): nat
    requires ElementSize(p.bytes)
  {
    BlockIndex(p, x, y) * BLOCK + Inside(p, x, y)
  }

  function LinearAt(p: Plan, x: nat, y: nat): nat { y * p.rowBytes + x * p.bytes }

  lemma QuotientBelow(v: nat, n: nat, k: nat)
    requires k > 0 && v < n * k
    ensures v / k < n
  {
    if v / k >= n {
      MulMono(n, v / k, k);
    }
  }

  /** The block of an active element exists. */
  lemma BlockInImage(p: Plan, x: nat, y: nat, tiledSize: nat, linearSize: nat)
    requires PlanOk(p, tiledSize, linearSize) && x < p.width && y < p.height
    ensures x / BlockWidth(p.bytes) < p.columns && y / BlockHeight(p.bytes) < p.rows
    ensures BlockIndex(p, x, y) * BLOCK + BLOCK <= tiledSize
    ensures y / BlockHeight(p.bytes) * p.columns < TWO64 && BlockIndex(p, x, y) < TWO64
  {
    QuotientBelow(x, p.columns, BlockWidth(p.bytes));
    QuotientBelow(y, p.rows, BlockHeight(p.bytes));
    var blockX, blockY := x / BlockWidth(p.bytes), y / BlockHeight(p.bytes);
    L.DigitFits(blockY, p.rows, p.columns, blockX, 1);
    assert p.rows * (p.columns * BLOCK) == (p.rows * p.columns) * BLOCK by { MulAssoc(p.rows, p.columns, BLOCK); }
    MulMono(BlockIndex(p, x, y) + 1, p.rows * p.columns, BLOCK);
  }

  lemma LinearInside(p: Plan, x: nat, y: nat, tiledSize: nat, linearSize: nat)
    requires PlanOk(p, tiledSize, linearSize) && x < p.width && y < p.height
    ensures LinearAt(p, x, y) + p.bytes <= y * p.rowBytes + p.rowBytes <= linearSize
  {
    RowRoom(x, y, p.width, p.height, p.bytes, p.rowBytes);
  }

  lemma RowRoom(x: nat, y: nat, width: nat, height: nat, bytes: nat, rowBytes: nat)
    requires x < width && y < height && width * bytes <= rowBytes
    ensures y * rowBytes + x * bytes + bytes <= y * rowBytes + rowBytes <= rowBytes * height
  {
    MulMono(x + 1, width, bytes);
    assert (x + 1) * bytes == x * bytes + bytes;
    MulMono(y + 1, height, rowBytes);
    assert (y + 1) * rowBytes == y * rowBytes + rowBytes;
  }

  lemma LocalDefined(bytes: nat, x: u32, y: u32)
    requires ElementSize(bytes)
    ensures Below(LocalOffset(bytes, x % BlockWidth(bytes), y % BlockHeight(bytes)), 16)
    ensures BlockOffset(bytes, x % BlockWidth(bytes), y % BlockHeight(bytes)) == Some(LocalOffset(bytes, x % BlockWidth(bytes), y % BlockHeight(bytes)))
  {
    hide RenderTargetOffset, Clear, Below;
    OffsetInBlock(bytes, ToBits(x % BlockWidth(bytes)), ToBits(y % BlockHeight(bytes)));
  }

  lemma XorDefined(bytes: nat, x: u32, y: u32)
    requires ElementSize(bytes)
    ensures XorOffset(bytes, x / BlockWidth(bytes), y / BlockHeight(bytes)) == Some(BlockXor(bytes, x / BlockWidth(bytes), y / BlockHeight(bytes)))
  {
    hide RenderTargetOffset, Clear, Below;
    OffsetInBlock(bytes, ToBits(x / BlockWidth(bytes) * BlockWidth(bytes)), ToBits(y / BlockHeight(bytes) * BlockHeight(bytes)));
  }

  lemma IntraDefined(p: Plan, x: u32, y: u32)
    requires ElementSize(p.bytes)
    ensures IntraBlock(p.bytes, x, y) == Some(Inside(p, x, y))
  {
    hide RenderTargetOffset, Xor, Clear, Below, FromBits, BlockOffset, XorOffset, BlockXor, LocalOffset, BlockWidth, BlockHeight;
    var localX, localY := x % BlockWidth(p.bytes), y % BlockHeight(p.bytes);
    var blockX, blockY := x / BlockWidth(p.bytes), y / BlockHeight(p.bytes);
    LocalDefined(p.bytes, x, y);
    XorDefined(p.bytes, x, y);
    CornerDefined(p.bytes, blockX, blockY);
    XorBelow(LocalOffset(p.bytes, localX, localY), BlockXor(p.bytes, blockX, blockY));
  }

  /** Every check of the address calculation passes for an active element. */
  lemma OffsetsDefined(p: Plan, x: u32, y: u32, tiledSize: nat, linearSize: nat)
    requires PlanOk(p, tiledSize, linearSize) && x < p.width && y < p.height
    ensures CalculateOffsets(p, x, y) == Some(Offsets(TiledAt(p, x, y), LinearAt(p, x, y)))
  {
    hide IntraBlock, JoinOffsets, Inside;
    IntraDefined(p, x, y);
    JoinDefined(p, x, y, tiledSize, linearSize);
  }

  lemma CornerDefined(bytes: nat, blockX: nat, blockY: nat)
    requires ElementSize(bytes)
    ensures Below(BlockXor(bytes, blockX, blockY), 16)
  {
    OffsetInBlock(bytes, ToBits(blockX * BlockWidth(bytes)), ToBits(blockY * BlockHeight(bytes)));
  }

  lemma JoinDefined(p: Plan, x: u32, y: u32, tiledSize: nat, linearSize: nat)
    requires PlanOk(p, tiledSize, linearSize) && x < p.width && y < p.height
    ensures JoinOffsets(p, x, y, Quotient(x, BlockWidth(p.bytes)), Quotient(y, BlockHeight(p.bytes)), Inside(p, x, y))
      == Some(Offsets(TiledAt(p, x, y), LinearAt(p, x, y)))
  {
    hide Inside, BlockWidth, BlockHeight;
    BlockInImage(p, x, y, tiledSize, linearSize);
    LinearInside(p, x, y, tiledSize, linearSize);
  }

  lemma PlanBlocksOk(l: L.Layout, bytes: nat)
    requires Sized(l) && ElementSize(bytes) && PlanBlocks(l, bytes).Ready?
    requires l.mips[0].rowBytes % bytes == 0 && l.mips[0].width * bytes <= l.mips[0].rowBytes
    ensures var p := PlanBlocks(l, bytes).plan;
      && p.bytes == bytes && p.rowBytes == l.mips[0].rowBytes && p.width == l.mips[0].width && p.height == l.mips[0].height
      && p.columns < TWO64
      && p.width <= p.columns * BlockWidth(bytes)
      && p.height <= p.rows * BlockHeight(bytes)
      && p.rows * (p.columns * BLOCK) == l.storageBytes
  {
    var m := l.mips[0];
    var p, pitch := PlanBlocks(l, bytes).plan, m.rowBytes / bytes;
    ExactQuotient(m.rowBytes, bytes);
    if pitch < m.width {
      MulMono(pitch + 1, m.width, bytes);
    }
    hide BlockWidth, BlockHeight;
    ColumnsCover(pitch, BlockWidth(bytes));
    ExactQuotient(l.storageBytes, p.columns * BLOCK);
  }

  /** Whatever plan is accepted agrees with the two buffers. */
  lemma PlanIsOk(l: L.Layout, tiledSize: nat, linearSize: nat, overlap: bool)
    requires Sized(l) && MakePlan(l, tiledSize, linearSize, overlap).Ready?
    ensures PlanOk(MakePlan(l, tiledSize, linearSize, overlap).plan, tiledSize, linearSize)
  {
    hide PlanBlocks, BlockWidth, BlockHeight;
    PlanBlocksOk(l, Formats.NumBytesPerElement(l.viewFormat));
  }

  lemma ColumnsCover(pitch: u64, width: nat)
    requires width > 0
    ensures BlockColumns(pitch, width).Some? ==> pitch <= BlockColumns(pitch, width).value * width
  {
    assert pitch == pitch / width * width + pitch % width;
  }

  lemma ExactQuotient(v: nat, k: nat)
    requires k > 0 && v % k == 0
    ensures v / k * k == v
  {
  }

  // ---------------------------------------------- the map is one to one

  lemma TiledInside(p: Plan, x: nat, y: nat, tiledSize: nat, linearSize: nat)
    requires PlanOk(p, tiledSize, linearSize) && x < p.width && y < p.height
    ensures TiledAt(p, x, y) % p.bytes == 0
    ensures TiledAt(p, x, y) + p.bytes <= tiledSize
  {
    hide InBlock;
    BlockInImage(p, x, y, tiledSize, linearSize);
    InBlockAligned(p.bytes, x / BlockWidth(p.bytes), y / BlockHeight(p.bytes), x % BlockWidth(p.bytes), y % BlockHeight(p.bytes));
    var per := BLOCK / p.bytes;
    assert per * p.bytes == BLOCK;
    MulAssoc(BlockIndex(p, x, y), p.bytes, per);
    MulAssoc(BlockIndex(p, x, y), per, p.bytes);
    ModShift(Inside(p, x, y), BlockIndex(p, x, y) * per, p.bytes);
  }

  lemma SameBlock(p: Plan, x: nat, y: nat, x': nat, y': nat, tiledSize: nat, linearSize: nat)
    requires PlanOk(p, tiledSize, linearSize) && x < p.width && y < p.height && x' < p.width && y' < p.height
    requires TiledAt(p, x, y) == TiledAt(p, x', y')
    ensures x / BlockWidth(p.bytes) == x' / BlockWidth(p.bytes) && y / BlockHeight(p.bytes) == y' / BlockHeight(p.bytes)
    ensures Inside(p, x, y) == Inside(p, x', y')
  {
    hide Inside, BlockWidth, BlockHeight;
    BlockInImage(p, x, y, tiledSize, linearSize);
    BlockInImage(p, x', y', tiledSize, linearSize);
    SameDigits(BlockIndex(p, x, y), Inside(p, x, y), BlockIndex(p, x', y'), Inside(p, x', y'), BLOCK);
    var w, h := BlockWidth(p.bytes), BlockHeight(p.bytes);
    SameDigits(y / h, x / w, y' / h, x' / w, p.columns);
  }

  lemma InsideInjective(p: Plan, x: nat, y: nat, x': nat, y': nat)
    requires ElementSize(p.bytes) && Inside(p, x, y) == Inside(p, x', y')
    requires x / BlockWidth(p.bytes) == x' / BlockWidth(p.bytes) && y / BlockHeight(p.bytes) == y' / BlockHeight(p.bytes)
    ensures x % BlockWidth(p.bytes) == x' % BlockWidth(p.bytes) && y % BlockHeight(p.bytes) == y' % BlockHeight(p.bytes)
  {
    hide InBlock;
    var w, h := BlockWidth(p.bytes), BlockHeight(p.bytes);
    InBlockInjective(p.bytes, x / w, y / h, x % w, y % h, x' % w, y' % h);
  }

  lemma TiledInjective(p: Plan, x: nat, y: nat, x': nat, y': nat, tiledSize: nat, linearSize: nat)
    requires PlanOk(p, tiledSize, linearSize) && x < p.width && y < p.height && x' < p.width && y' < p.height
    requires TiledAt(p, x, y) == TiledAt(p, x', y')
    ensures x == x' && y == y'
  {
    hide Inside, TiledAt;
    SameBlock(p, x, y, x', y', tiledSize, linearSize);
    InsideInjective(p, x, y, x', y');
    SameNumber(x, x', BlockWidth(p.bytes));
    SameNumber(y, y', BlockHeight(p.bytes));
  }

  lemma SameNumber(x: nat, x': nat, k: nat)
    requires k > 0 && x / k == x' / k && x % k == x' % k
    ensures x == x'
  {
    assert x == x / k * k + x % k && x' == x' / k * k + x' % k;
  }

  lemma SameDigits(a: nat, r: nat, a': nat, r': nat, k: nat)
    requires r < k && r' < k && a * k + r == a' * k + r'
    ensures a == a' && r == r'
  {
    DivModUnique(a * k + r, k, a, r);
    DivModUnique(a * k + r, k, a', r');
  }

  /**
   * The whole-image map: in bounds, element-aligned, and different elements
   * own different bytes.
   */
  lemma TiledBytesInjective(p: Plan, x: nat, y: nat, b: nat, x': nat, y': nat, b': nat, tiledSize: nat, linearSize: nat)
    requires PlanOk(p, tiledSize, linearSize) && x < p.width && y < p.height && x' < p.width && y' < p.height
    requires b < p.bytes && b' < p.bytes
    requires TiledAt(p, x, y) + b == TiledAt(p, x', y') + b'
    ensures x == x' && y == y' && b == b'
  {
    hide TiledAt;
    TiledInside(p, x, y, tiledSize, linearSize);
    TiledInside(p, x', y', tiledSize, linearSize);
    var t, t' := TiledAt(p, x, y), TiledAt(p, x', y');
    assert t == t / p.bytes * p.bytes && t' == t' / p.bytes * p.bytes;
    SameDigits(t / p.bytes, b, t' / p.bytes, b', p.bytes);
    TiledInjective(p, x, y, x', y', tiledSize, linearSize);
  }

  // ----------------------------------------------------- what detiling does

  /** The linear byte `k` belongs to an element, not to row padding. */
  predicate Active(p: Plan, k: nat)
    requires p.rowBytes > 0
  {
    k % p.rowBytes < p.width * p.bytes
  }

  /** Row, column and byte within the element of linear byte `k`. */
  function RowOf(p: Plan, k: nat): nat requires p.rowBytes > 0 { k / p.rowBytes }
  function ColumnOf(p: Plan, k: nat): nat requires p.rowBytes > 0 && p.bytes > 0 { k % p.rowBytes / p.bytes }
  function ByteOf(p: Plan, k: nat): nat requires p.rowBytes > 0 && p.bytes > 0 { k % p.rowBytes % p.bytes }

  /** Where an active linear byte comes from. */
  function Source(p: Plan, k: nat): nat
    requires ElementSize(p.bytes) && p.rowBytes > 0
  {
    TiledAt(p, ColumnOf(p, k), RowOf(p, k)) + ByteOf(p, k)
  }

  lemma RowsPositive(p: Plan, tiledSize: nat, linearSize: nat)
    requires PlanOk(p, tiledSize, linearSize)
    ensures p.rowBytes > 0
  {
    MulMono(1, p.width, p.bytes);
  }

  lemma ActiveElement(p: Plan, k: nat, tiledSize: nat, linearSize: nat)
    requires PlanOk(p, tiledSize, linearSize) && k < linearSize && p.rowBytes > 0 && Active(p, k)
    ensures ColumnOf(p, k) < p.width && RowOf(p, k) < p.height && ByteOf(p, k) < p.bytes
    ensures Source(p, k) < tiledSize
  {
    hide TiledAt, PlanOk;
    RowInImage(p, k, tiledSize, linearSize);
    ColumnInImage(p, k % p.rowBytes, tiledSize, linearSize);
    TiledInside(p, ColumnOf(p, k), RowOf(p, k), tiledSize, linearSize);
  }

  lemma RowInImage(p: Plan, k: nat, tiledSize: nat, linearSize: nat)
    requires PlanOk(p, tiledSize, linearSize) && k < linearSize && p.rowBytes > 0
    ensures RowOf(p, k) < p.height
  {
    assert linearSize == p.height * p.rowBytes;
    QuotientBelow(k, p.height, p.rowBytes);
  }

  lemma ColumnInImage(p: Plan, at: nat, tiledSize: nat, linearSize: nat)
    requires PlanOk(p, tiledSize, linearSize) && at < p.width * p.bytes
    ensures p.bytes > 0 && at / p.bytes < p.width && at % p.bytes < p.bytes
  {
    QuotientBelow(at, p.width, p.bytes);
  }

  /** Byte `b` of element (x, y) decodes back to the same place. */
  lemma LinearDecodes(p: Plan, x: nat, y: nat, b: nat, tiledSize: nat, linearSize: nat)
    requires PlanOk(p, tiledSize, linearSize) && x < p.width && y < p.height && b < p.bytes && p.rowBytes > 0
    ensures var k := LinearAt(p, x, y) + b;
      && k < linearSize && Active(p, k) && Source(p, k) == TiledAt(p, x, y) + b
      && k / p.rowBytes == y && k % p.rowBytes == x * p.bytes + b
  {
    hide TiledAt;
    LinearInside(p, x, y, tiledSize, linearSize);
    L.DigitFits(x, p.width, p.bytes, b, 1);
    DivModUnique(LinearAt(p, x, y) + b, p.rowBytes, y, x * p.bytes + b);
    DivModUnique(x * p.bytes + b, p.bytes, x, b);
  }

  function DetiledByte(p: Plan, tiled: seq<byte>, before: seq<byte>, k: nat): byte
    requires PlanOk(p, |tiled|, |before|) && k < |before|
  {
    RowsPositive(p, |tiled|, |before|);
    if Active(p, k) then
      ActiveElement(p, k, |tiled|, |before|);
      tiled[Source(p, k)]
    else before[k]
  }

  function Detiled(p: Plan, tiled: seq<byte>, before: seq<byte>): seq<byte>
    requires PlanOk(p, |tiled|, |before|)
  {
    seq(|before|, k requires 0 <= k < |before| => DetiledByte(p, tiled, before, k))
  }

  // ----------------------------------------------------------- the methods

  predicate Usable(p: Plan) {
    ElementSize(p.bytes) && p.columns < TWO64 && p.rowBytes < TWO64 && p.width < TWO32 && p.height < TWO32
  }

  predicate TexelOk(p: Plan, x: u32, y: u32, tiledSize: u64, linearSize: u64)
    requires Usable(p)
  {
    var at := CalculateOffsets(p, x, y);
    && at.Some? && at.value.tiled < TWO64 && at.value.linear < TWO64
    && L.Add(at.value.tiled, p.bytes).Some? && L.Add(at.value.linear, p.bytes).Some?
    && at.value.tiled + p.bytes <= tiledSize && at.value.linear + p.bytes <= linearSize
  }

  method ValidateTexelOffsets(p: Plan, tiledSize: u64, linearSize: u64) returns (status: Status)
    requires Usable(p)
    ensures status == if forall x, y | 0 <= x < p.width && 0 <= y < p.height :: TexelOk(p, x, y, tiledSize, linearSize) then Success else TileAddressFailure
  {
    hide TexelOk;
    var y := 0;
    while y < p.height
      invariant 0 <= y <= p.height
      invariant forall x', y' | 0 <= x' < p.width && 0 <= y' < y :: TexelOk(p, x', y', tiledSize, linearSize)
    {
      var x := 0;
      while x < p.width
        invariant 0 <= x <= p.width
        invariant forall x' | 0 <= x' < x :: TexelOk(p, x', y, tiledSize, linearSize)
      {
        if !TexelOk(p, x, y, tiledSize, linearSize) {
          return TileAddressFailure;
        }
        x := x + 1;
      }
      y := y + 1;
    }
    status := Success;
  }

  /** The validation loop cannot fail on an accepted plan. */
  lemma TexelsOk(p: Plan, tiledSize: u64, linearSize: u64)
    requires PlanOk(p, tiledSize, linearSize)
    ensures Usable(p) && forall x, y | 0 <= x < p.width && 0 <= y < p.height :: TexelOk(p, x, y, tiledSize, linearSize)
  {
    forall x, y | 0 <= x < p.width && 0 <= y < p.height
      ensures TexelOk(p, x, y, tiledSize, linearSize)
    {
      TexelPasses(p, x, y, tiledSize, linearSize);
    }
  }

  lemma TexelPasses(p: Plan, x: u32, y: u32, tiledSize: u64, linearSize: u64)
    requires PlanOk(p, tiledSize, linearSize) && x < p.width && y < p.height
    ensures TexelOk(p, x, y, tiledSize, linearSize)
  {
    OffsetsDefined(p, x, y, tiledSize, linearSize);
    TiledInside(p, x, y, tiledSize, linearSize);
    LinearInside(p, x, y, tiledSize, linearSize);
    hide CalculateOffsets, TiledAt, LinearAt;
  }

  /** Byte `k` was written once rows below `y` and the first `at` bytes of row `y` were. */
  predicate Written(p: Plan, k: nat, y: nat, at: nat)
    requires p.rowBytes > 0
  {
    Active(p, k) && (k / p.rowBytes < y || (k / p.rowBytes == y && k % p.rowBytes < at))
  }

  ghost predicate Partly(p: Plan, tiled: seq<byte>, before: seq<byte>, now: seq<byte>, y: nat, at: nat)
    requires PlanOk(p, |tiled|, |before|) && p.rowBytes > 0
  {
    && |now| == |before|
    && forall k | 0 <= k < |before| :: now[k] == if Written(p, k, y, at) then DetiledByte(p, tiled, before, k) else before[k]
  }

  lemma StoreByte(p: Plan, tiled: seq<byte>, before: seq<byte>, now: seq<byte>, x: nat, y: nat, b: nat)
    requires PlanOk(p, |tiled|, |before|) && p.rowBytes > 0 && x < p.width && y < p.height && b < p.bytes
    requires Partly(p, tiled, before, now, y, x * p.bytes + b)
    ensures LinearAt(p, x, y) + b < |before| && TiledAt(p, x, y) + b < |tiled|
    ensures Partly(p, tiled, before, now[LinearAt(p, x, y) + b := tiled[TiledAt(p, x, y) + b]], y, x * p.bytes + b + 1)
  {
    hide PlanOk, TiledAt, LinearAt;
    LinearDecodes(p, x, y, b, |tiled|, |before|);
    TiledInside(p, x, y, |tiled|, |before|);
    var at, column, next := LinearAt(p, x, y) + b, x * p.bytes + b, x * p.bytes + b + 1;
    forall k | 0 <= k < |before| && k != at
      ensures Written(p, k, y, next) == Written(p, k, y, column)
    {
      if k / p.rowBytes == y && k % p.rowBytes == column {
        SameNumber(k, at, p.rowBytes);
      }
    }
  }

  lemma RowDone(p: Plan, tiled: seq<byte>, before: seq<byte>, now: seq<byte>, y: nat)
    requires PlanOk(p, |tiled|, |before|) && p.rowBytes > 0
    requires Partly(p, tiled, before, now, y, p.width * p.bytes)
    ensures Partly(p, tiled, before, now, y + 1, 0)
  {
    hide PlanOk, DetiledByte;
    forall k | 0 <= k < |before|
      ensures Written(p, k, y + 1, 0) == Written(p, k, y, p.width * p.bytes)
    {
    }
  }

  lemma AllDone(p: Plan, tiled: seq<byte>, before: seq<byte>, now: seq<byte>)
    requires PlanOk(p, |tiled|, |before|) && p.rowBytes > 0
    requires Partly(p, tiled, before, now, p.height, 0)
    ensures now == Detiled(p, tiled, before)
  {
    hide PlanOk;
    forall k | 0 <= k < |before|
      ensures now[k] == DetiledByte(p, tiled, before, k)
    {
      RowInImage(p, k, |tiled|, |before|);
    }
  }

  /** A window into a buffer, as the detiler is given its source and destination. */
  datatype Span = Span(buffer: array<byte>, start: nat, length: nat)

  predicate InBuffer(s: Span) { s.start + s.length <= s.buffer.Length }

  function Contents(s: Span): seq<byte>
    requires InBuffer(s)
    reads s.buffer
  {
    s.buffer[s.start..s.start + s.length]
  }

  /** The two windows share a byte's place. */
  predicate SpansOverlap(a: Span, b: Span) {
    a.buffer == b.buffer && a.start < b.start + b.length && b.start < a.start + a.length
  }

  /** The three loops; bytes outside the destination window stay as they are. */
  method CopyTexels(p: Plan, tiled: Span, linear: Span) returns (status: Status)
    requires InBuffer(tiled) && InBuffer(linear) && PlanOk(p, tiled.length, linear.length) && !SpansOverlap(tiled, linear)
    modifies linear.buffer
    ensures status == Success
    ensures Contents(linear) == Detiled(p, old(Contents(tiled)), old(Contents(linear)))
    ensures forall k | 0 <= k < linear.buffer.Length && !(linear.start <= k < linear.start + linear.length) ::
      linear.buffer[k] == old(linear.buffer[k])
  {
    hide PlanOk, DetiledByte, Detiled, TiledAt, LinearAt, CalculateOffsets, Partly;
    ghost var source, before := Contents(tiled), Contents(linear);
    RowsPositive(p, tiled.length, linear.length);
    PlanUsable(p, tiled.length, linear.length);
    NothingYet(p, source, before);
    var y := 0;
    while y < p.height
      invariant 0 <= y <= p.height && Contents(tiled) == source
      invariant Partly(p, source, before, Contents(linear), y, 0)
      invariant OutsideKept(linear, old(linear.buffer[..]))
    {
      var x := 0;
      while x < p.width
        invariant 0 <= x <= p.width && Contents(tiled) == source
        invariant Partly(p, source, before, Contents(linear), y, x * p.bytes)
        invariant OutsideKept(linear, old(linear.buffer[..]))
      {
        OffsetsDefined(p, x, y, tiled.length, linear.length);
        var at := CalculateOffsets(p, x, y);
        if at.None? {
          return TileAddressFailure;
        }
        var b := 0;
        while b < p.bytes
          invariant 0 <= b <= p.bytes && Contents(tiled) == source
          invariant Partly(p, source, before, Contents(linear), y, x * p.bytes + b)
          invariant OutsideKept(linear, old(linear.buffer[..]))
        {
          StoreByte(p, source, before, Contents(linear), x, y, b);
          CopyByte(tiled, at.value.tiled + b, linear, at.value.linear + b);
          b := b + 1;
        }
        assert (x + 1) * p.bytes == x * p.bytes + p.bytes;
        x := x + 1;
      }
      RowDone(p, source, before, Contents(linear), y);
      y := y + 1;
    }
    AllDone(p, source, before, Contents(linear));
    status := Success;
  }

  ghost predicate OutsideKept(s: Span, before: seq<byte>)
    reads s.buffer
  {
    && |before| == s.buffer.Length
    && forall k | 0 <= k < s.buffer.Length && !(s.start <= k < s.start + s.length) :: s.buffer[k] == before[k]
  }

  /** One byte of one window into another that it does not overlap. */
  method CopyByte(from: Span, i: nat, to: Span, k: nat)
    requires InBuffer(from) && InBuffer(to) && !SpansOverlap(from, to) && i < from.length && k < to.length
    modifies to.buffer
    ensures Contents(from) == old(Contents(from))
    ensures Contents(to) == old(Contents(to))[k := old(Contents(from))[i]]
    ensures forall a | 0 <= a < to.buffer.Length && !(to.start <= a < to.start + to.length) :: to.buffer[a] == old(to.buffer[a])
  {
    to.buffer[to.start + k] := from.buffer[from.start + i];
  }

  lemma PlanUsable(p: Plan, tiledSize: nat, linearSize: nat)
    requires PlanOk(p, tiledSize, linearSize)
    ensures Usable(p) && p.height > 0
  {
  }

  lemma NothingYet(p: Plan, tiled: seq<byte>, before: seq<byte>)
    requires PlanOk(p, |tiled|, |before|) && p.rowBytes > 0
    ensures Partly(p, tiled, before, before, 0, 0)
  {
    hide PlanOk, DetiledByte;
    forall k | 0 <= k < |before|
      ensures !Written(p, k, 0, 0)
    {
    }
  }

  /**
   * Detiling succeeds exactly when the layout and buffers give a plan.  Each
   * element then lies in its linear place and row padding keeps its bytes; on
   * any failure, overlapping windows included, nothing is touched.
   */
  method DetileRenderTarget64KB(l: L.Layout, tiled: Span, linear: Span) returns (status: Status)
    requires Sized(l) && InBuffer(tiled) && InBuffer(linear)
    modifies linear.buffer
    ensures match MakePlan(l, tiled.length, linear.length, SpansOverlap(tiled, linear))
      case Refused(why) => status == why && linear.buffer[..] == old(linear.buffer[..])
      case Ready(p) =>
        && status == Success && !SpansOverlap(tiled, linear) && PlanOk(p, tiled.length, linear.length)
        && Contents(linear) == Detiled(p, old(Contents(tiled)), old(Contents(linear)))
        && OutsideKept(linear, old(linear.buffer[..]))
  {
    hide PlanOk, Detiled;
    var overlap := SpansOverlap(tiled, linear);
    var planned := MakePlan(l, tiled.length, linear.length, overlap);
    if planned.Refused? {
      return planned.status;
    }
    PlanIsOk(l, tiled.length, linear.length, overlap);
    PlanUsable(planned.plan, tiled.length, linear.length);
    BuffersSized(planned.plan, tiled.length, linear.length);
    TexelsOk(planned.plan, tiled.length, linear.length);
    status := ValidateTexelOffsets(planned.plan, tiled.length, linear.length);
    if status != Success {
      return;
    }
    status := CopyTexels(planned.plan, tiled, linear);
  }

  lemma BuffersSized(p: Plan, tiledSize: nat, linearSize: nat)
    requires PlanOk(p, tiledSize, linearSize)
    ensures tiledSize < TWO64 && linearSize < TWO64
  {
  }

  // ----------------------------------------- detiling undoes the tiling

  /** `tiled` holds every element of `image` where the map puts it. */
  ghost predicate IsTiling(p: Plan, image: seq<byte>, tiled: seq<byte>)
    requires PlanOk(p, |tiled|, |image|) && p.rowBytes > 0
  {
    forall k | 0 <= k < |image| && Active(p, k) :: HoldsByte(p, image, tiled, k)
  }

  ghost predicate HoldsByte(p: Plan, image: seq<byte>, tiled: seq<byte>, k: nat)
    requires PlanOk(p, |tiled|, |image|) && p.rowBytes > 0 && k < |image| && Active(p, k)
  {
    ActiveElement(p, k, |tiled|, |image|);
    tiled[Source(p, k)] == image[k]
  }

  /** The two images agree on every element and differ at most in row padding. */
  ghost predicate SameElements(p: Plan, a: seq<byte>, b: seq<byte>)
    requires p.rowBytes > 0
  {
    |a| == |b| && forall k | 0 <= k < |a| && Active(p, k) :: a[k] == b[k]
  }

  lemma DetileUndoesTiling(p: Plan, image: seq<byte>, tiled: seq<byte>, before: seq<byte>)
    requires |before| == |image| && PlanOk(p, |tiled|, |image|) && p.rowBytes > 0 && IsTiling(p, image, tiled)
    ensures SameElements(p, Detiled(p, tiled, before), image)
    ensures forall k | 0 <= k < |before| && !Active(p, k) :: Detiled(p, tiled, before)[k] == before[k]
  {
    hide PlanOk;
    forall k | 0 <= k < |image| && Active(p, k)
      ensures Detiled(p, tiled, before)[k] == image[k]
    {
      assert HoldsByte(p, image, tiled, k);
    }
  }

  /** No two active bytes come from the same tiled byte. */
  lemma SourceInjective(p: Plan, k: nat, k': nat, tiledSize: nat, linearSize: nat)
    requires PlanOk(p, tiledSize, linearSize) && k < linearSize && k' < linearSize && p.rowBytes > 0
    requires Active(p, k) && Active(p, k') && Source(p, k) == Source(p, k')
    ensures k == k'
  {
    hide PlanOk, TiledAt, RowOf, ColumnOf, ByteOf, Active;
    PlanUsable(p, tiledSize, linearSize);
    ActiveElement(p, k, tiledSize, linearSize);
    ActiveElement(p, k', tiledSize, linearSize);
    TiledBytesInjective(p, ColumnOf(p, k), RowOf(p, k), ByteOf(p, k), ColumnOf(p, k'), RowOf(p, k'), ByteOf(p, k'), tiledSize, linearSize);
    SameByte(p, k, k');
  }

  lemma SameByte(p: Plan, k: nat, k': nat)
    requires p.rowBytes > 0 && p.bytes > 0
    requires RowOf(p, k) == RowOf(p, k') && ColumnOf(p, k) == ColumnOf(p, k') && ByteOf(p, k) == ByteOf(p, k')
    ensures k == k'
  {
    SameNumber(k % p.rowBytes, k' % p.rowBytes, p.bytes);
    SameNumber(k, k', p.rowBytes);
  }

  ghost predicate Feeds(p: Plan, k: nat, t: nat, linearSize: nat)
    requires ElementSize(p.bytes) && p.rowBytes > 0
  {
    k < linearSize && Active(p, k) && Source(p, k) == t
  }

  /** The tiled byte `t`: the image byte it stands for, or zero in unused space. */
  ghost function TiledByte(p: Plan, image: seq<byte>, t: nat): byte
    requires ElementSize(p.bytes) && p.rowBytes > 0
  {
    if exists k: nat :: Feeds(p, k, t, |image|) then
      var k: nat :| Feeds(p, k, t, |image|);
      image[k]
    else 0
  }

  /** Every image has a tiling, so the inverse above is never empty. */
  lemma TilingExists(p: Plan, image: seq<byte>, tiledSize: nat) returns (tiled: seq<byte>)
    requires PlanOk(p, tiledSize, |image|) && p.rowBytes > 0
    ensures |tiled| == tiledSize && IsTiling(p, image, tiled)
  {
    tiled := seq(tiledSize, t requires 0 <= t < tiledSize => TiledByte(p, image, t));
    forall k | 0 <= k < |image| && Active(p, k)
      ensures HoldsByte(p, image, tiled, k)
    {
      TiledByteIs(p, image, k, tiledSize);
    }
  }

  lemma TiledByteIs(p: Plan, image: seq<byte>, k: nat, tiledSize: nat)
    requires PlanOk(p, tiledSize, |image|) && p.rowBytes > 0 && k < |image| && Active(p, k)
    ensures Source(p, k) < tiledSize && TiledByte(p, image, Source(p, k)) == image[k]
  {
    hide PlanOk, Source, Active;
    ActiveElement(p, k, tiledSize, |image|);
    PlanUsable(p, tiledSize, |image|);
    var t := Source(p, k);
    assert Feeds(p, k, t, |image|);
    forall k': nat | Feeds(p, k', t, |image|)
      ensures k' == k
    {
      SourceInjective(p, k, k', tiledSize, |image|);
    }
  }

  // ------------------------------------- every layout handed out is accepted

  lemma TargetBlock(i: L.Input)
    requires L.RenderTargetShape(i)
    ensures var block := M.TextureBlock(i.format, L.RENDER_TARGET); var bytes := Formats.NumBytesPerElement(i.format);
      && ElementSize(bytes) && block.Some? && block.value.bytes == bytes
      && block.value.texelWidth == 1 && block.value.texelHeight == 1 && block.value.depth == 1
      && block.value.width == BlockWidth(bytes) && block.value.height == BlockHeight(bytes) && block.value.size == BLOCK
  {
  }

  /** A one-level render target takes whole blocks, `columns` by `rows` of them. */
  lemma TargetBytesAre(i: L.Input)
    requires L.RenderTargetShape(i) && 0 < i.width <= 16384 && 0 < i.height <= 16384
    ensures var bytes := Formats.NumBytesPerElement(i.format);
      && ElementSize(bytes) && M.TextureBlock(i.format, L.RENDER_TARGET).Some?
      && L.TargetChain(i).End(0) == TileTail.CeilDiv(i.height, BlockHeight(bytes)) * (TileTail.CeilDiv(i.width, BlockWidth(bytes)) * BLOCK)
  {
    TargetBlock(i);
    var c := L.TargetChain(i);
    hide M.TextureBlock, L.RenderTargetShape, BlockWidth, BlockHeight;
    OneLevel(c);
    var across, down := TileTail.CeilDiv(i.width, c.block.width), TileTail.CeilDiv(i.height, c.block.height);
    M.BlockMultiple(across, c.block.width, down, c.block.height, 1, c.block.bytes);
    assert across * down * BLOCK == down * (across * BLOCK) by {
      MulAssoc(down, across, BLOCK);
    }
  }

  lemma OneLevel(c: M.Chain)
    requires c.Ok() && c.levels == 1 && c.block.texelWidth == 1 && c.block.texelHeight == 1
    ensures c.End(0) == M.Volume(M.AlignUp(c.width, c.block.width), M.AlignUp(c.height, c.block.height), c.block.depth, c.block.bytes)
  {
    assert c.TailFrom(0) == c.TailFrom(1) == 1;
    assert c.End(1) == 0;
    assert c.Width0() == c.width && c.Height0() == c.height;
  }

  lemma BlocksAccepted(l: L.Layout, bytes: nat, across: nat, down: nat)
    requires Sized(l) && ElementSize(bytes) && across > 0 && down > 0
    requires l.mips[0].rowBytes == across * BlockWidth(bytes) * bytes
    requires l.storageBytes == down * (across * BLOCK)
    requires l.mips[0].height <= down * BlockHeight(bytes) < TWO64
    ensures PlanBlocks(l, bytes).Ready?
  {
    hide BlockWidth, BlockHeight;
    var pitch := across * BlockWidth(bytes);
    DivModUnique(l.mips[0].rowBytes, bytes, pitch, 0);
    DivModUnique(pitch, BlockWidth(bytes), across, 0);
    MulMono(1, down, across * BLOCK);
    DivModUnique(l.storageBytes, across * BLOCK, down, 0);
  }

  /** A one-level layout of whole blocks. */
  predicate TargetLayout(l: L.Layout, bytes: nat) {
    && l.status == L.Success && Sized(l) && l.needsDetile && l.arrayLayers == 1 && !l.blockCompressed
    && bytes == Formats.NumBytesPerElement(l.viewFormat) && ElementSize(bytes) && Formats.BlockBytes(l.viewFormat) == 0
    && var m := l.mips[0];
    && 0 < m.width <= 16384 && 0 < m.height <= 16384
    && m == L.Mip(m.width, m.height, 1, m.width, m.height, 1, m.rowBytes, l.totalBytes, l.totalBytes, 0, l.totalBytes)
    && m.rowBytes == M.AlignUp(m.width, BlockWidth(bytes)) * bytes
    && l.totalBytes == m.rowBytes * m.height < TWO64
    && l.storageBytes == TileTail.CeilDiv(m.height, BlockHeight(bytes)) * (TileTail.CeilDiv(m.width, BlockWidth(bytes)) * BLOCK)
    && l.key.byteCount == l.storageBytes
  }

  /** What a successful tiled layout holds. */
  lemma TargetLayoutIs(i: L.Input)
    requires i.tileMode != L.LINEAR && L.GuestLayout(i).status == L.Success
    ensures TargetLayout(L.GuestLayout(i), Formats.NumBytesPerElement(i.format))
  {
    hide M.TextureBlock, M.AlignUp, L.CheckArguments, BlockWidth, BlockHeight, TileTail.CeilDiv;
    assert L.RenderTargetShape(i);
    assert L.GuestLayout(i) == L.SizedTarget(i, L.RenderTargetPitch(i.format, i.width).value, L.TargetBytes(i).value);
    TargetBlock(i);
    TargetBytesAre(i);
  }

  lemma TargetPlanned(l: L.Layout, bytes: nat)
    requires TargetLayout(l, bytes)
    ensures MakePlan(l, l.storageBytes, l.totalBytes, false).Ready?
  {
    hide PlanBlocks, BlockWidth, BlockHeight, TileTail.CeilDiv, M.AlignUp, Formats.NumBytesPerElement;
    TargetAccepted(l, bytes);
  }

  /**
   * Every render-target layout the image code returns is accepted for buffers
   * of the sizes it states, provided they do not overlap.
   */
  lemma LayoutAccepted(i: L.Input)
    requires i.tileMode != L.LINEAR && L.GuestLayout(i).status == L.Success
    ensures var l := L.GuestLayout(i);
      Sized(l) && MakePlan(l, l.storageBytes, l.totalBytes, false).Ready?
  {
    hide MakePlan, L.GuestLayout;
    TargetLayoutIs(i);
    TargetPlanned(L.GuestLayout(i), Formats.NumBytesPerElement(i.format));
  }

  lemma TargetAccepted(l: L.Layout, bytes: nat)
    requires Sized(l) && ElementSize(bytes) && 0 < l.mips[0].width <= 16384 && 0 < l.mips[0].height <= 16384
    requires l.mips[0].rowBytes == M.AlignUp(l.mips[0].width, BlockWidth(bytes)) * bytes
    requires l.storageBytes == TileTail.CeilDiv(l.mips[0].height, BlockHeight(bytes)) * (TileTail.CeilDiv(l.mips[0].width, BlockWidth(bytes)) * BLOCK)
    ensures PlanBlocks(l, bytes).Ready? && l.storageBytes > 0
    ensures l.mips[0].rowBytes > 0 && l.mips[0].rowBytes % bytes == 0 && l.mips[0].width * bytes <= l.mips[0].rowBytes
  {
    hide BlockWidth, BlockHeight;
    var w, h := l.mips[0].width, l.mips[0].height;
    var across, down := TileTail.CeilDiv(w, BlockWidth(bytes)), TileTail.CeilDiv(h, BlockHeight(bytes));
    TileTail.CeilLeast(w, BlockWidth(bytes), 0);
    TileTail.CeilLeast(h, BlockHeight(bytes), 0);
    M.AlignUpBound(w, BlockWidth(bytes));
    M.AlignUpBound(h, BlockHeight(bytes));
    hide TileTail.CeilDiv;
    BlockHeightSmall(bytes);
    BlocksAccepted(l, bytes, across, down);
    DivModUnique(l.mips[0].rowBytes, bytes, across * BlockWidth(bytes), 0);
    MulMono(w, across * BlockWidth(bytes), bytes);
    MulMono(1, down, across * BLOCK);
  }

  lemma BlockHeightSmall(bytes: nat)
    requires ElementSize(bytes)
    ensures BlockHeight(bytes) <= 256
  {
  }
}
