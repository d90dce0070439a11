/** Tiled mip chains: full levels in whole blocks, small levels in one tail block. */
module TileMips {
  import opened Words
  import opened Arith
  import opened TileTail
  import Formats
  import S = TileSwizzle

  /** A tile block: its tail table, element size and dimensions in elements. */
  datatype Block = Block(
    tail: Tail, sizeLog: nat, bytes: nat, texelWidth: nat, texelHeight: nat,
    width: nat, height: nat, depth: nat, size: nat)

  predicate BlockOk(b: Block) {
    && b.bytes in {1, 2, 4, 8, 16} && b.sizeLog == SizeLog(b.bytes)
    && b.texelWidth in {1, 4} && b.texelHeight in {1, 4}
    && b.width == BlockWidth(b.tail, b.sizeLog) && b.height == BlockHeight(b.tail, b.sizeLog)
    && 1 <= b.depth <= 32
    && b.size in {4096, 65536}
    && b.width * b.height * b.depth * b.bytes == b.size
  }

  function SizeLog(bytes: nat): (r: nat)
    requires bytes in {1, 2, 4, 8, 16}
    ensures r < 5
  {
    match bytes
    case 1 => 0
    case 2 => 1
    case 4 => 2
    case 8 => 3
    case _ => 4
  }

  function TailDepth(t: Tail, sizeLog: nat): nat {
    match t
    case Thick64 => if sizeLog <= 1 then 32 else 16
    case Thick4 => if sizeLog <= 1 then 16 else 8
    case _ => 1
  }

  function MakeBlock(t: Tail, bytes: nat, texel: nat): (r: Block)
    requires bytes in {1, 2, 4, 8, 16} && texel in {1, 4}
    ensures BlockOk(r)
  {
    var s := SizeLog(bytes);
    Block(t, s, bytes, texel, texel, BlockWidth(t, s), BlockHeight(t, s), TailDepth(t, s), if t == Thin4 || t == Thick4 then 4096 else 65536)
  }

  /** Compressed formats address 4x4 blocks; the 12-byte formats cannot be tiled. */
  function StandardBlock(t: Tail, format: u32): (r: Option<Block>)
    ensures r.Some? ==> BlockOk(r.value)
  {
    var bytes := Formats.NumBytesPerElement(format);
    if bytes in {1, 2, 4, 8, 16} then Some(MakeBlock(t, bytes, 1))
    else if Formats.BlockBytes(format) != 0 then Some(MakeBlock(t, Formats.BlockBytes(format), 4))
    else None
  }

  function ThinBlock(tile: nat, format: u32): (r: Option<Block>)
    ensures r.Some? ==> BlockOk(r.value)
  {
    var bytes := Formats.NumBytesPerElement(format);
    if bytes !in {1, 2, 4, 8, 16} || (tile == 24 && bytes > 8) then None
    else Some(MakeBlock(Thin64, bytes, 1))
  }

  /** The block of a 2D texture in the 4 KiB and 64 KiB tile modes. */
  function TextureBlock(format: u32, tile: nat): (r: Option<Block>)
    ensures r.Some? ==> BlockOk(r.value) && r.value.depth == 1
  {
    if tile == 5 then StandardBlock(Thin4, format)
    else if tile == 9 || tile == 17 then StandardBlock(Thin64, format)
    else if tile == 24 || tile == 27 then ThinBlock(tile, format)
    else None
  }

  /** The block of a volume texture: thick in the standard modes. */
  function VolumeBlock(format: u32, tile: nat): (r: Option<Block>)
    ensures r.Some? ==> BlockOk(r.value) && (tile == 24 ==> r.value.tail == Thin64)
    ensures r.Some? <==> TextureBlock(format, tile).Some?
  {
    if tile == 5 then StandardBlock(Thick4, format)
    else if tile == 9 || tile == 17 then StandardBlock(Thick64, format)
    else if tile == 24 || tile == 27 then ThinBlock(tile, format)
    else None
  }

  // -------------------------------------------------------------- the chain

  datatype Chain = Chain(block: Block, tile: nat, width: nat, height: nat, levels: nat)
  {
    predicate Ok() {
      BlockOk(block) && 0 < width <= 16384 && 0 < height <= 16384 && 0 < levels <= 16
      && (tile == 24 ==> block.tail == Thin64)
    }

    /** Base dimensions in elements. */
    function Width0(): nat requires Ok() { CeilDiv(width, block.texelWidth) }
    function Height0(): nat requires Ok() { CeilDiv(height, block.texelHeight) }

    function TailW(): nat requires Ok() {
      if tile == 24 && block.bytes < 4 then 64 else TailWidth(block.tail, block.sizeLog)
    }
    function TailH(): nat requires Ok() {
      if tile == 24 && block.bytes < 4 then 128 else TailHeight(block.tail, block.sizeLog)
    }

    predicate InTail(level: nat) requires Ok() && level < levels {
      && levels > 1
      && ShiftCeil(Width0(), level) <= TailW()
      && ShiftCeil(Height0(), level) <= TailH()
      && levels - level <= MaxTail(block.tail)
    }

    function TailFrom(level: nat): (r: nat)
      requires Ok() && level <= levels
      ensures level <= r <= levels
      ensures forall k | level <= k < r :: !InTail(k)
      ensures r < levels ==> InTail(r)
      decreases levels - level
    {
      if level == levels || InTail(level) then level else TailFrom(level + 1)
    }

    /** The first level stored in the tail block; `levels` when there is none. */
    function First(): (r: nat)
      requires Ok()
      ensures r <= levels
    {
      TailFrom(0)
    }

    function PaddedWidth(level: nat): nat requires Ok() {
      AlignUp(ShiftCeil(Width0(), level), block.width)
    }
    function PaddedHeight(level: nat): nat requires Ok() {
      AlignUp(ShiftCeil(Height0(), level), block.height)
    }

    function FullSize(level: nat): nat requires Ok() {
      Volume(PaddedWidth(level), PaddedHeight(level), block.depth, block.bytes)
    }

    /** Where the levels from `level` to the last full one end: small levels come first. */
    function End(level: nat): nat
      requires Ok() && level <= First()
      decreases First() - level
    {
      if level == First() then (if First() < levels then block.size else 0)
      else End(level + 1) + FullSize(level)
    }

    /** A full level starts where the smaller ones end. */
    function Offset(level: nat): nat requires Ok() && level < First() { End(level + 1) }

    /** Dimensions of a tail level, from the shifted-down texel size. */
    function TailMipWidth(level: nat): nat requires Ok() {
      Max(CeilDiv(width / Pow2(level), block.texelWidth), 1)
    }
    function TailMipHeight(level: nat): nat requires Ok() {
      Max(CeilDiv(height / Pow2(level), block.texelHeight), 1)
    }
    function TailSize(level: nat): nat requires Ok() {
      Volume(TailMipWidth(level), TailMipHeight(level), 1, block.bytes)
    }
    function TailOffset(level: nat): nat
      requires Ok() && First() <= level
      decreases level
    {
      if level == First() then 0 else TailOffset(level - 1) + TailSize(level - 1)
    }
    function Location(level: nat): TileTail.Location
      requires Ok() && First() <= level < levels
    {
      InTailIndex(this, level);
      TailLocation(block.tail, block.sizeLog, level - First())
    }
  }

  function Max(a: nat, b: nat): nat { if a < b then b else a }

  function Volume(width: nat, height: nat, depth: nat, bytes: nat): nat { width * height * depth * bytes }

  function AlignUp(value: nat, alignment: nat): nat
    requires alignment > 0
  {
    CeilDiv(value, alignment) * alignment
  }

  /** Table indexes are in range: a tail is never longer than its table. */
  lemma InTailIndex(c: Chain, level: nat)
    requires c.Ok() && c.First() <= level < c.levels
    ensures level - c.First() < MaxTail(c.block.tail)
    ensures c.InTail(c.First())
  {
  }

  // ----------------------------------------------------------- full levels

  lemma BlockMultiple(q: nat, w: nat, r: nat, h: nat, d: nat, b: nat)
    ensures (q * w) * (r * h) * d * b == (q * r) * (w * h * d * b)
  {
    calc {
      (q * w) * (r * h) * d * b;
      { SwapInner(q, w, r, h); }
      (q * r) * (w * h) * d * b;
      { MulAssoc(q * r, w * h, d); assert (q * r) * (w * h) * d == (q * r) * (w * h * d); }
      (q * r) * (w * h * d) * b;
      { MulAssoc(q * r, w * h * d, b); }
      (q * r) * (w * h * d * b);
    }
  }

  lemma SwapInner(q: nat, w: nat, r: nat, h: nat)
    ensures (q * w) * (r * h) == (q * r) * (w * h)
  {
    MulAssoc(q, w, r * h);
    MulAssoc(q, r, w * h);
    assert w * (r * h) == r * (w * h) by { MulAssoc(w, h, r); MulAssoc(r, h, w); }
  }

  /** A full level takes a whole, positive number of blocks. */
  lemma FullSizeBlocks(c: Chain, level: nat) returns (n: nat)
    requires c.Ok()
    ensures n > 0 && c.FullSize(level) == n * c.block.size
  {
    var b := c.block;
    var w, h := ShiftCeil(c.Width0(), level), ShiftCeil(c.Height0(), level);
    ShiftCeilPositive(c.Width0(), level);
    ShiftCeilPositive(c.Height0(), level);
    var q, r := CeilDiv(w, b.width), CeilDiv(h, b.height);
    CeilLeast(w, b.width, 0);
    CeilLeast(h, b.height, 0);
    BlockMultiple(q, b.width, r, b.height, b.depth, b.bytes);
    MulMono(1, q, r);
    n := q * r;
  }

  function Base(c: Chain): nat requires c.Ok() { if c.First() < c.levels then c.block.size else 0 }

  lemma {:induction false} EndMonotone(c: Chain, a: nat, b: nat)
    requires c.Ok() && a <= b <= c.First()
    ensures Base(c) <= c.End(b) <= c.End(a)
    decreases c.First() - a
  {
    if a < b {
      EndMonotone(c, a + 1, b);
    } else if a < c.First() {
      EndMonotone(c, a + 1, a + 1);
    }
  }

  lemma {:induction false} EndBlocks(c: Chain, level: nat) returns (n: nat)
    requires c.Ok() && level <= c.First()
    ensures c.End(level) == n * c.block.size
    decreases c.First() - level
  {
    if level == c.First() {
      n := if level < c.levels then 1 else 0;
    } else {
      var m := EndBlocks(c, level + 1);
      var k := FullSizeBlocks(c, level);
      n := m + k;
      assert m * c.block.size + k * c.block.size == (m + k) * c.block.size;
    }
  }

  /** Bytes taken by the full levels from `level` on. */
  function FullBytes(c: Chain, level: nat): nat
    requires c.Ok() && level <= c.First()
    decreases c.First() - level
  {
    if level == c.First() then 0 else c.FullSize(level) + FullBytes(c, level + 1)
  }

  lemma {:induction false} EndSums(c: Chain, level: nat)
    requires c.Ok() && level <= c.First()
    ensures c.End(level) == Base(c) + FullBytes(c, level)
    decreases c.First() - level
  {
    if level < c.First() {
      EndSums(c, level + 1);
    }
  }

  ghost predicate FullLevelPlaced(c: Chain, a: nat)
    requires c.Ok() && a < c.First()
  {
    && Base(c) <= c.Offset(a)
    && c.Offset(a) % c.block.size == 0
    && c.FullSize(a) % c.block.size == 0
    && c.Offset(a) + c.FullSize(a) == (if a == 0 then c.End(0) else c.Offset(a - 1))
    && c.block.size <= c.FullSize(a)
  }

  lemma EndStep(c: Chain, a: nat)
    requires c.Ok() && a < c.First()
    ensures c.End(a) == c.Offset(a) + c.FullSize(a)
  {
  }

  lemma FullLevelFacts(c: Chain, a: nat)
    requires c.Ok() && a < c.First()
    ensures FullLevelPlaced(c, a)
  {
    hide c.First, c.FullSize, c.End;
    EndStep(c, a);
    EndMonotone(c, a + 1, a + 1);
    var n := EndBlocks(c, a + 1);
    ModShift(0, n, c.block.size);
    var k := FullSizeBlocks(c, a);
    ModShift(0, k, c.block.size);
    MulMono(1, k, c.block.size);
  }

  /** A full level takes the bytes from `Offset` to `Offset + FullSize`. */
  ghost predicate FullLevelsTile(c: Chain)
    requires c.Ok()
  {
    && c.End(0) == Base(c) + FullBytes(c, 0)
    && (forall a | 0 <= a < c.First() :: FullLevelPlaced(c, a))
    && (forall a, b | 0 <= a < b < c.First() :: c.Offset(b) + c.FullSize(b) <= c.Offset(a))
  }

  /**
   * Full levels are block-aligned, abut each other, never overlap the tail
   * block or one another, and with the tail block add up to the total.
   */
  lemma FullLevelsNeverCollide(c: Chain)
    requires c.Ok()
    ensures FullLevelsTile(c)
  {
    hide c.First, c.FullSize, c.End, c.Ok;
    EndSums(c, 0);
    forall a | 0 <= a < c.First()
      ensures FullLevelPlaced(c, a)
    {
      FullLevelFacts(c, a);
    }
    forall a, b | 0 <= a < b < c.First()
      ensures c.Offset(b) + c.FullSize(b) <= c.Offset(a)
    {
      EndStep(c, b);
      EndMonotone(c, a + 1, b);
    }
  }

  // ------------------------------------------------------------ tail levels

  /** What a tail level covers when its size is rounded up from the base. */
  lemma CeilInTail(c: Chain, level: nat)
    requires c.Ok() && c.First() <= level < c.levels
    ensures level - c.First() < MaxTail(c.block.tail)
    ensures ShiftCeil(c.Width0(), level) <= Shrunk(TailWidth(c.block.tail, c.block.sizeLog), level - c.First())
    ensures ShiftCeil(c.Height0(), level) <= Shrunk(TailHeight(c.block.tail, c.block.sizeLog), level - c.First())
  {
    hide ShiftCeil, Shrunk;
    InTailIndex(c, level);
    var t, s, i := c.block.tail, c.block.sizeLog, level - c.First();
    TailRoom(c);
    ShrinksWithin(c.Width0(), c.First(), i, TailWidth(t, s));
    ShrinksWithin(c.Height0(), c.First(), i, TailHeight(t, s));
    ShrunkIsShiftCeil(TailWidth(t, s), i);
    ShrunkIsShiftCeil(TailHeight(t, s), i);
  }

  lemma TailRoom(c: Chain)
    requires c.Ok()
    ensures c.TailW() <= TailWidth(c.block.tail, c.block.sizeLog) <= 256
    ensures c.TailH() <= TailHeight(c.block.tail, c.block.sizeLog) <= 256
    ensures TailWidth(c.block.tail, c.block.sizeLog) >= 1 && TailHeight(c.block.tail, c.block.sizeLog) >= 1
  {
    assert c.block.width * c.block.height * c.block.depth * c.block.bytes == c.block.size;
    if c.tile == 24 && c.block.bytes < 4 {
      assert c.block.depth <= 32;
    }
  }

  /** Shifting a size down never gives more elements than rounding it up. */
  lemma FloorWithinCeil(size: nat, texel: nat, level: nat)
    requires size > 0 && texel > 0
    ensures Max(CeilDiv(size / Pow2(level), texel), 1) <= ShiftCeil(CeilDiv(size, texel), level)
  {
    hide Pow2, ShiftCeil, CeilDiv;
    var base := CeilDiv(size, texel);
    var c := ShiftCeil(base, level);
    CeilLeast(size, texel, base);
    CeilLeast(size, texel, 0);
    ShiftCeilPositive(base, level);
    ShiftCeilCovers(base, level);
    FloorCovered(size, texel, Pow2(level), base, c);
  }

  lemma ShiftCeilCovers(value: nat, level: nat)
    ensures value <= ShiftCeil(value, level) * Pow2(level)
  {
    CeilLeast(value, Pow2(level), ShiftCeil(value, level));
  }

  lemma FloorCovered(size: nat, texel: nat, p: nat, base: nat, c: nat)
    requires texel > 0 && p > 0 && size <= base * texel && base <= c * p
    ensures CeilDiv(size / p, texel) <= c
  {
    MulMono(base, c * p, texel);
    MulAssoc(c, texel, p);
    assert (c * p) * texel == (c * texel) * p;
    QuotientWithin(size, p, c * texel);
    CeilLeast(size / p, texel, c);
  }

  lemma QuotientWithin(v: nat, p: nat, bound: nat)
    requires p > 0 && v <= bound * p
    ensures v / p <= bound
  {
    if v / p > bound {
      MulMono(bound + 1, v / p, p);
    }
  }

  lemma TableFits(t: Tail, s: nat, i: nat)
    requires s < 5 && i < MaxTail(t)
    ensures Fits(t, s, i)
  {
    hide Fits, PairApart;
    if i > 0 {
      TablePlaced(t, s, i - 1, i);
    } else {
      TablePlaced(t, s, i, i + 1);
    }
  }

  /** A rectangle of the given size at the level's place lies in the tail block. */
  predicate InsideTail(c: Chain, level: nat, w: nat, h: nat)
    requires c.Ok() && c.First() <= level < c.levels
  {
    c.Location(level).x + w <= c.block.width && c.Location(level).y + h <= c.block.height
  }

  predicate TailsApart(c: Chain, i: nat, wi: nat, hi: nat, j: nat, wj: nat, hj: nat)
    requires c.Ok() && c.First() <= i < c.levels && c.First() <= j < c.levels
  {
    Apart(c.Location(i).x, c.Location(i).y, wi, hi, c.Location(j).x, c.Location(j).y, wj, hj)
  }

  /**
   * The tail levels occupy pairwise disjoint rectangles inside the one tail
   * block, even with each size rounded up.
   */
  lemma TailLevelsNeverCollide(c: Chain, i: nat, j: nat)
    requires c.Ok() && c.First() <= i < j < c.levels
    ensures InsideTail(c, i, ShiftCeil(c.Width0(), i), ShiftCeil(c.Height0(), i))
    ensures TailsApart(c, i, ShiftCeil(c.Width0(), i), ShiftCeil(c.Height0(), i), j, ShiftCeil(c.Width0(), j), ShiftCeil(c.Height0(), j))
  {
    hide ShiftCeil, Shrunk, TailLocation, TailWidth, TailHeight, BlockWidth, BlockHeight, c.InTail;
    CeilInTail(c, i);
    CeilInTail(c, j);
    TablePlaced(c.block.tail, c.block.sizeLog, i - c.First(), j - c.First());
  }

  lemma TailLevelInside(c: Chain, level: nat)
    requires c.Ok() && c.First() <= level < c.levels
    ensures InsideTail(c, level, ShiftCeil(c.Width0(), level), ShiftCeil(c.Height0(), level))
    ensures InsideTail(c, level, c.TailMipWidth(level), c.TailMipHeight(level))
  {
    hide ShiftCeil, Shrunk, TailLocation, TailWidth, TailHeight, BlockWidth, BlockHeight, c.InTail;
    CeilInTail(c, level);
    TableFits(c.block.tail, c.block.sizeLog, level - c.First());
    FloorWithinCeil(c.width, c.block.texelWidth, level);
    FloorWithinCeil(c.height, c.block.texelHeight, level);
  }

  /** The same with the shifted-down sizes the 2D layout reports. */
  lemma TailMipsNeverCollide(c: Chain, i: nat, j: nat)
    requires c.Ok() && c.First() <= i < j < c.levels
    ensures TailsApart(c, i, c.TailMipWidth(i), c.TailMipHeight(i), j, c.TailMipWidth(j), c.TailMipHeight(j))
  {
    hide ShiftCeil, c.Location, c.InTail, c.First;
    TailLevelsNeverCollide(c, i, j);
    FloorWithinCeil(c.width, c.block.texelWidth, i);
    FloorWithinCeil(c.height, c.block.texelHeight, i);
    FloorWithinCeil(c.width, c.block.texelWidth, j);
    FloorWithinCeil(c.height, c.block.texelHeight, j);
  }

  lemma TailSizeBound(c: Chain, level: nat)
    requires c.Ok() && c.First() <= level < c.levels
    ensures c.TailSize(level) <= 65536
  {
    hide c.First, c.TailMipWidth, c.TailMipHeight, c.Location, BlockWidth, BlockHeight;
    TailLevelInside(c, level);
    VolumeMono(c.TailMipWidth(level), c.TailMipHeight(level), 1, c.block.bytes, c.block.width, c.block.height, c.block.depth);
  }

  lemma VolumeMono(w: nat, h: nat, d: nat, b: nat, w': nat, h': nat, d': nat)
    requires w <= w' && h <= h' && d <= d'
    ensures Volume(w, h, d, b) <= Volume(w', h', d', b)
  {
    MulMono(w, w', h);
    MulMono(h, h', w');
    assert w * h <= w' * h';
    MulMono(w * h, w' * h', d);
    MulMono(d, d', w' * h');
    MulMono(w * h * d, w' * h' * d', b);
  }

  lemma {:induction false} TailOffsetBound(c: Chain, level: nat)
    requires c.Ok() && c.First() <= level <= c.levels
    ensures c.TailOffset(level) <= 65536 * (level - c.First())
    decreases level
  {
    hide c.First, c.TailSize;
    if level > c.First() {
      TailOffsetBound(c, level - 1);
      TailSizeBound(c, level - 1);
    }
  }

  // ---------------------------------------------------------- the 2D layout

  datatype Level = Level(size: nat, offset: nat, srcSize: nat, srcOffset: nat, x: nat, y: nat)
  datatype Padded = Padded(width: nat, height: nat)
  datatype MipLayout = MipLayout(size: nat, align: nat, levels: seq<Level>, padded: seq<Padded>)

  predicate LevelStored(c: Chain, level: nat, r: Level)
    requires c.Ok() && level < c.levels
  {
    if level < c.First() then r == Level(c.FullSize(level), c.Offset(level), c.FullSize(level), c.Offset(level), 0, 0)
    else r == Level(c.TailSize(level), c.TailOffset(level), c.block.size, 0, c.Location(level).x, c.Location(level).y)
  }

  predicate PaddedStored(c: Chain, level: nat, r: Padded)
    requires c.Ok() && level < c.levels
  {
    if level < c.First() then r == Padded(c.PaddedWidth(level) * c.block.texelWidth, c.PaddedHeight(level) * c.block.texelHeight)
    else r == Padded(c.block.width * c.block.texelWidth, c.block.height * c.block.texelHeight)
  }

  ghost predicate Laid(c: Chain, r: MipLayout)
    requires c.Ok()
  {
    && r.size == c.End(0) && r.align == c.block.size
    && |r.levels| == c.levels && |r.padded| == c.levels
    && (forall k | 0 <= k < c.levels :: LevelStored(c, k, r.levels[k]))
    && (forall k | 0 <= k < c.levels :: PaddedStored(c, k, r.padded[k]))
  }

  method FindFirstTail(c: Chain) returns (first: nat)
    requires c.Ok()
    ensures first == c.First()
  {
    first := c.levels;
    if c.levels > 1 {
      var level := 0;
      while level < c.levels
        invariant level <= c.levels
        invariant c.TailFrom(0) == c.TailFrom(level)
      {
        if ShiftCeil(c.Width0(), level) <= c.TailW() && ShiftCeil(c.Height0(), level) <= c.TailH() && c.levels - level <= MaxTail(c.block.tail) {
          return level;
        }
        level := level + 1;
      }
    } else {
      assert c.TailFrom(0) == c.TailFrom(1);
    }
  }

  method PaddedDims(c: Chain, level: nat) returns (width: nat, height: nat)
    requires c.Ok()
    ensures width == c.PaddedWidth(level) && height == c.PaddedHeight(level)
    ensures c.FullSize(level) == Volume(width, height, c.block.depth, c.block.bytes)
  {
    ShiftCeilPositive(c.Width0(), level);
    ShiftCeilPositive(c.Height0(), level);
    width := AlignUp(Max(ShiftCeil(c.Width0(), level), 1), c.block.width);
    height := AlignUp(Max(ShiftCeil(c.Height0(), level), 1), c.block.height);
  }

  /** Fills in the levels that take whole blocks, smallest first. */
  method PlaceFullLevels(c: Chain, first: nat, blank: seq<Level>, plain: seq<Padded>)
    returns (ok: bool, offset: nat, levels: seq<Level>, padded: seq<Padded>)
    requires c.Ok() && c.block.depth == 1 && first == c.First()
    requires |blank| == c.levels && |plain| == c.levels
    ensures ok <==> c.End(0) < TWO32
    ensures ok ==> offset == c.End(0) && |levels| == c.levels && |padded| == c.levels
    ensures ok ==> forall k | 0 <= k < first :: LevelStored(c, k, levels[k]) && PaddedStored(c, k, padded[k])
  {
    hide c.First, c.FullSize, c.PaddedWidth, c.PaddedHeight, BlockWidth, BlockHeight;
    offset, levels, padded := if first < c.levels then c.block.size else 0, blank, plain;
    var l := first;
    while l > 0
      invariant 0 <= l <= first && offset == c.End(l) < TWO32
      invariant |levels| == c.levels && |padded| == c.levels
      invariant forall k | l <= k < first :: LevelStored(c, k, levels[k]) && PaddedStored(c, k, padded[k])
    {
      var level := l - 1;
      var width, height := PaddedDims(c, level);
      var size := Volume(width, height, 1, c.block.bytes);
      EndMonotone(c, 0, level);
      if size >= TWO32 || offset > TWO32 - 1 - size {
        return false, offset, levels, padded;
      }
      levels := levels[level := Level(size, offset, size, offset, 0, 0)];
      padded := padded[level := Padded(width * c.block.texelWidth, height * c.block.texelHeight)];
      offset := offset + size;
      l := level;
    }
    ok := true;
  }

  /** Fills in the tail; its levels are too small for the size checks to fail. */
  method PlaceTailLevels(c: Chain, first: nat, full: seq<Level>, plain: seq<Padded>)
    returns (ok: bool, levels: seq<Level>, padded: seq<Padded>)
    requires c.Ok() && first == c.First()
    requires |full| == c.levels && |plain| == c.levels
    ensures ok && |levels| == c.levels && |padded| == c.levels
    ensures forall k | 0 <= k < first :: levels[k] == full[k] && padded[k] == plain[k]
    ensures forall k | first <= k < c.levels :: LevelStored(c, k, levels[k]) && PaddedStored(c, k, padded[k])
  {
    hide c.First, c.Location, BlockWidth, BlockHeight, c.TailMipHeight, c.TailMipWidth;
    levels, padded := full, plain;
    var linear, level := 0, first;
    while level < c.levels
      invariant first <= level <= c.levels && linear == c.TailOffset(level)
      invariant |levels| == c.levels && |padded| == c.levels
      invariant forall k | 0 <= k < first :: levels[k] == full[k] && padded[k] == plain[k]
      invariant forall k | first <= k < level :: LevelStored(c, k, levels[k]) && PaddedStored(c, k, padded[k])
    {
      var size := Volume(c.TailMipWidth(level), c.TailMipHeight(level), 1, c.block.bytes);
      assert size == c.TailSize(level);
      TailSizeBound(c, level);
      TailOffsetBound(c, level);
      var at := c.Location(level);
      if size >= TWO32 || linear > TWO32 - 1 - size {
        return false, levels, padded;
      }
      levels := levels[level := Level(size, linear, c.block.size, 0, at.x, at.y)];
      padded := padded[level := Padded(c.block.width * c.block.texelWidth, c.block.height * c.block.texelHeight)];
      linear := linear + size;
      level := level + 1;
    }
    ok := true;
  }

  /** Succeeds exactly when the whole chain fits in 32 bits. */
  method SetMacroMipLayout(c: Chain) returns (r: Option<MipLayout>)
    requires c.Ok() && c.block.depth == 1
    ensures r.Some? <==> c.End(0) < TWO32
    ensures r.Some? ==> Laid(c, r.value)
  {
    hide c.First, c.End, LevelStored, PaddedStored, BlockWidth, BlockHeight;
    var first := FindFirstTail(c);
    var blank, plain := seq(c.levels, _ => Level(0, 0, 0, 0, 0, 0)), seq(c.levels, _ => Padded(0, 0));
    var ok, offset, levels, padded := PlaceFullLevels(c, first, blank, plain);
    if !ok {
      return None;
    }
    ok, levels, padded := PlaceTailLevels(c, first, levels, padded);
    if !ok || offset >= TWO32 {
      return None;
    }
    r := Some(MipLayout(offset, c.block.size, levels, padded));
  }

  // -------------------------------------------------------- texture queries

  predicate SizeInRange(format: u32, width: u32, height: u32) {
    && Volume(width, height, 1, Formats.NumBytesPerElement(format)) < TWO32
    && Volume(CeilDiv(width, 4), CeilDiv(height, 4), 1, Formats.BlockBytes(format)) < TWO32
  }

  /** Which 2D textures have a layout in the 4 KiB and 64 KiB tile modes. */
  predicate BlockedFits(format: u32, width: u32, height: u32, levels: u32, tile: nat) {
    && 0 < width <= 16384 && 0 < height <= 16384 && 0 < levels <= 16
    && SizeInRange(format, width, height)
    && TextureBlock(format, tile).Some?
    && Chain(TextureBlock(format, tile).value, tile, width, height, levels).End(0) < TWO32
  }

  method BlockedSize(format: u32, width: u32, height: u32, levels: u32, tile: nat) returns (r: Option<MipLayout>)
    ensures r.Some? <==> BlockedFits(format, width, height, levels, tile)
    ensures r.Some? ==> Laid(Chain(TextureBlock(format, tile).value, tile, width, height, levels), r.value)
  {
    if width == 0 || width > 16384 || height == 0 || height > 16384 || levels == 0 || levels > 16 {
      return None;
    }
    if !SizeInRange(format, width, height) {
      return None;
    }
    var block := TextureBlock(format, tile);
    if block.None? {
      return None;
    }
    var c := Chain(block.value, tile, width, height, levels);
    r := SetMacroMipLayout(c);
    if r.Some? && r.value.size == 0 {
      EndPositive(c);
      return None;
    }
  }

  /** A layout is never empty. */
  lemma EndPositive(c: Chain)
    requires c.Ok()
    ensures c.End(0) >= c.block.size > 0
  {
    if c.First() > 0 {
      FullLevelFacts(c, 0);
    }
  }

  // ------------------------------------------------------ the volume layout

  datatype VolumeLevel = VolumeLevel(width: nat, height: nat, size: nat, offset: nat, x: nat, y: nat)
  datatype VolumeLayout = VolumeLayout(
    block: Block, firstTail: nat, sliceSize: nat, totalSize: nat, levels: seq<VolumeLevel>)

  predicate VolumeStored(c: Chain, level: nat, r: VolumeLevel)
    requires c.Ok() && level < c.levels
  {
    if level < c.First() then r == VolumeLevel(c.PaddedWidth(level), c.PaddedHeight(level), c.FullSize(level), c.Offset(level), 0, 0)
    else r == VolumeLevel(c.block.width, c.block.height, c.block.size, 0, c.Location(level).x, c.Location(level).y)
  }

  predicate Measured(c: Chain, level: nat, r: VolumeLevel)
    requires c.Ok()
  {
    r == VolumeLevel(c.PaddedWidth(level), c.PaddedHeight(level), c.FullSize(level), 0, 0, 0)
  }

  /** Walks the full levels from the largest down to the first tail level. */
  method MeasureLevels(c: Chain) returns (first: nat, slice: nat, levels: seq<VolumeLevel>)
    requires c.Ok()
    ensures first == c.First() && slice == c.End(0) && |levels| == c.levels
    ensures forall k | 0 <= k < first :: Measured(c, k, levels[k])
  {
    hide c.FullSize, c.PaddedWidth, c.PaddedHeight, BlockWidth, BlockHeight;
    levels := seq(c.levels, _ => VolumeLevel(0, 0, 0, 0, 0, 0));
    EndSums(c, 0);
    var level := 0;
    slice := 0;
    while level < c.levels
      invariant level <= c.levels && |levels| == c.levels
      invariant c.TailFrom(0) == c.TailFrom(level)
      invariant slice + FullBytes(c, level) == FullBytes(c, 0)
      invariant forall k | 0 <= k < level :: Measured(c, k, levels[k])
    {
      ShiftCeilPositive(c.Width0(), level);
      ShiftCeilPositive(c.Height0(), level);
      var width, height := Max(ShiftCeil(c.Width0(), level), 1), Max(ShiftCeil(c.Height0(), level), 1);
      if c.levels > 1 && width <= c.TailW() && height <= c.TailH() && c.levels - level <= MaxTail(c.block.tail) {
        return level, slice + c.block.size, levels;
      }
      var w, h := PaddedDims(c, level);
      levels := levels[level := VolumeLevel(w, h, Volume(w, h, c.block.depth, c.block.bytes), 0, 0, 0)];
      slice := slice + levels[level].size;
      level := level + 1;
    }
    first := c.levels;
  }

  /** Gives every level its place; returns where the full levels end. */
  method PlaceVolume(c: Chain, first: nat, measured: seq<VolumeLevel>) returns (offset: nat, levels: seq<VolumeLevel>)
    requires c.Ok() && first == c.First() && |measured| == c.levels
    requires forall k | 0 <= k < first :: Measured(c, k, measured[k])
    ensures offset == c.End(0) && |levels| == c.levels
    ensures forall k | 0 <= k < c.levels :: VolumeStored(c, k, levels[k])
  {
    hide c.First, c.FullSize, c.Location, c.PaddedWidth, c.PaddedHeight, BlockWidth, BlockHeight;
    levels := measured;
    var level := first;
    while level < c.levels
      invariant first <= level <= c.levels && |levels| == c.levels
      invariant forall k | 0 <= k < first :: Measured(c, k, levels[k])
      invariant forall k | first <= k < level :: VolumeStored(c, k, levels[k])
    {
      var at := c.Location(level);
      levels := levels[level := VolumeLevel(c.block.width, c.block.height, c.block.size, 0, at.x, at.y)];
      level := level + 1;
    }
    offset := if first < c.levels then c.block.size else 0;
    var l := first;
    while l > 0
      invariant 0 <= l <= first && |levels| == c.levels && offset == c.End(l)
      invariant forall k | 0 <= k < l :: Measured(c, k, levels[k])
      invariant forall k | l <= k < c.levels :: VolumeStored(c, k, levels[k])
    {
      l := l - 1;
      var size := levels[l].size;
      assert Measured(c, l, levels[l]);
      levels := levels[l := levels[l].(offset := offset)];
      assert VolumeStored(c, l, levels[l]);
      offset := offset + size;
    }
  }

  predicate VolumeAccepted(format: u32, width: u32, height: u32, depth: u32, levels: u32, tile: nat) {
    && 0 < width <= 16384 && 0 < height <= 16384 && 0 < depth <= 16384 && 0 < levels <= 16
    && VolumeBlock(format, tile).Some?
  }

  ghost predicate VolumeLaid(c: Chain, depth: nat, r: VolumeLayout)
    requires c.Ok()
  {
    && r.block == c.block && r.firstTail == c.First() && r.sliceSize == c.End(0)
    && r.totalSize == c.End(0) * CeilDiv(depth, c.block.depth) < TWO64
    && |r.levels| == c.levels
    && forall k | 0 <= k < c.levels :: VolumeStored(c, k, r.levels[k])
  }

  method LayVolume(c: Chain, depth: nat) returns (r: Option<VolumeLayout>)
    requires c.Ok() && depth <= 16384
    ensures r.Some? && VolumeLaid(c, depth, r.value)
  {
    hide c.First, c.End, BlockWidth, BlockHeight, VolumeStored, Measured, CeilDiv;
    var first, slice, measured := MeasureLevels(c);
    var offset, placed := PlaceVolume(c, first, measured);
    VolumeNoWrap(c, depth);
    if offset != slice {
      return None;
    }
    r := Some(VolumeLayout(c.block, first, slice, slice * CeilDiv(depth, c.block.depth), placed));
  }

  /** The closing size comparison never rejects: acceptance depends on the arguments alone. */
  method TextureVolumeLayout(format: u32, width: u32, height: u32, depth: u32, levels: u32, tile: nat)
    returns (r: Option<VolumeLayout>)
    ensures r.Some? <==> VolumeAccepted(format, width, height, depth, levels, tile)
    ensures r.Some? ==> VolumeLaid(Chain(VolumeBlock(format, tile).value, tile, width, height, levels), depth, r.value)
  {
    hide VolumeBlock, TextureBlock, BlockOk;
    if width > 16384 || height > 16384 || depth > 16384 {
      return None;
    }
    if width == 0 || height == 0 || depth == 0 || levels == 0 || levels > 16 {
      return None;
    }
    var block := VolumeBlock(format, tile);
    if block.None? {
      return None;
    }
    r := LayVolume(Chain(block.value, tile, width, height, levels), depth);
  }

  lemma AlignUpBound(value: nat, alignment: nat)
    requires alignment > 0
    ensures value <= AlignUp(value, alignment) < value + alignment
  {
    CeilLeast(value, alignment, CeilDiv(value, alignment));
    var q := CeilDiv(value, alignment);
    assert value + alignment - 1 == q * alignment + (value + alignment - 1) % alignment;
  }

  lemma FullSizeBound(c: Chain, level: nat)
    requires c.Ok()
    ensures c.FullSize(level) <= 0x40_0000_0000
  {
    hide ShiftCeil, AlignUp, CeilDiv;
    var w, h := ShiftCeil(c.Width0(), level), ShiftCeil(c.Height0(), level);
    BaseBound(c.width, c.block.texelWidth, level);
    BaseBound(c.height, c.block.texelHeight, level);
    AlignUpBound(w, c.block.width);
    AlignUpBound(h, c.block.height);
    VolumeMono(c.PaddedWidth(level), c.PaddedHeight(level), c.block.depth, c.block.bytes, 16640, 16640, 32);
  }

  lemma BaseBound(size: nat, texel: nat, level: nat)
    requires 0 < size <= 16384 && texel > 0
    ensures ShiftCeil(CeilDiv(size, texel), level) <= 16384
  {
    hide CeilDiv, Pow2;
    MulMono(1, texel, size);
    CeilLeast(size, texel, size);
    MulMono(1, Pow2(level), CeilDiv(size, texel));
    CeilLeast(CeilDiv(size, texel), Pow2(level), CeilDiv(size, texel));
  }

  lemma {:induction false} EndBound(c: Chain, level: nat)
    requires c.Ok() && level <= c.First()
    ensures c.End(level) <= 0x1_0000 + (c.First() - level) * 0x40_0000_0000
    decreases c.First() - level
  {
    hide c.First, c.FullSize;
    if level < c.First() {
      EndBound(c, level + 1);
      FullSizeBound(c, level);
    }
  }

  /** No 64-bit product in the volume layout wraps. */
  lemma VolumeNoWrap(c: Chain, depth: nat)
    requires c.Ok() && depth <= 16384
    ensures c.End(0) * CeilDiv(depth, c.block.depth) < TWO64
  {
    hide c.First, c.End, CeilDiv, BlockWidth, BlockHeight;
    EndBound(c, 0);
    var n := CeilDiv(depth, c.block.depth);
    MulMono(1, c.block.depth, depth);
    CeilLeast(depth, c.block.depth, depth);
    MulMono(c.End(0), 0x800_0000_0000, n);
    MulMono(n, 16384, 0x800_0000_0000);
  }

  // ------------------------------------------------- no two levels collide

  /** Storage of two levels, `i` the larger: separate bytes, or separate rectangles of the tail block. */
  ghost predicate StorageApart(c: Chain, i: nat, offset: nat, size: nat, j: nat, offset': nat, size': nat)
    requires c.Ok() && i < j < c.levels
  {
    || (i < c.First() && offset' + size' <= offset && offset + size <= c.End(0))
    || (c.First() <= i
       && offset == 0 && offset' == 0 && size == c.block.size && size' == c.block.size
       && TailsApart(c, i, ShiftCeil(c.Width0(), i), ShiftCeil(c.Height0(), i), j, ShiftCeil(c.Width0(), j), ShiftCeil(c.Height0(), j)))
  }

  lemma ChainApart(c: Chain, i: nat, j: nat)
    requires c.Ok() && i < j < c.levels
    ensures i < c.First() ==> c.Offset(i) + c.FullSize(i) <= c.End(0)
    ensures i < c.First() <= j ==> c.block.size <= c.Offset(i)
    ensures j < c.First() ==> c.Offset(j) + c.FullSize(j) <= c.Offset(i)
    ensures c.First() <= i ==> TailsApart(c, i, ShiftCeil(c.Width0(), i), ShiftCeil(c.Height0(), i), j, ShiftCeil(c.Width0(), j), ShiftCeil(c.Height0(), j))
  {
    hide c.First, c.FullSize, c.End, c.Location, ShiftCeil;
    FullLevelsNeverCollide(c);
    if c.First() <= i {
      TailLevelsNeverCollide(c, i, j);
    } else {
      assert FullLevelPlaced(c, i);
      EndStep(c, i);
      EndMonotone(c, 0, i);
    }
  }

  lemma MipsNeverCollide(c: Chain, r: MipLayout, i: nat, j: nat)
    requires c.Ok() && Laid(c, r) && i < j < c.levels
    ensures StorageApart(c, i, r.levels[i].srcOffset, r.levels[i].srcSize, j, r.levels[j].srcOffset, r.levels[j].srcSize)
  {
    hide c.First, c.FullSize, c.End, c.Location, ShiftCeil, TailsApart;
    assert LevelStored(c, i, r.levels[i]) && LevelStored(c, j, r.levels[j]);
    ChainApart(c, i, j);
  }

  lemma VolumeLevelsNeverCollide(c: Chain, depth: nat, r: VolumeLayout, i: nat, j: nat)
    requires c.Ok() && VolumeLaid(c, depth, r) && i < j < c.levels
    ensures StorageApart(c, i, r.levels[i].offset, r.levels[i].size, j, r.levels[j].offset, r.levels[j].size)
  {
    hide c.First, c.FullSize, c.End, c.Location, ShiftCeil, TailsApart;
    assert VolumeStored(c, i, r.levels[i]) && VolumeStored(c, j, r.levels[j]);
    ChainApart(c, i, j);
  }

  // ----------------------------------------------- texels of different tail levels

  const RENDER_TARGET: nat := 27

  lemma TargetBlock(c: Chain)
    requires c.Ok() && c.block.tail == Thin64
    ensures S.ElementSize(c.block.bytes) && c.block.width == S.BlockWidth(c.block.bytes) && c.block.height == S.BlockHeight(c.block.bytes)
  {
  }

  /** The texel at (x, y) of a tail level, as a byte offset in the tail block of a render target. */
  function TailTexel(c: Chain, blockX: nat, blockY: nat, level: nat, x: nat, y: nat): nat
    requires c.Ok() && c.block.tail == Thin64 && c.First() <= level < c.levels
  {
    TargetBlock(c);
    S.InBlock(c.block.bytes, blockX, blockY, c.Location(level).x + x, c.Location(level).y + y)
  }

  lemma TailTexelInBlock(c: Chain, level: nat, x: nat, y: nat)
    requires c.Ok() && c.First() <= level < c.levels
    requires x < ShiftCeil(c.Width0(), level) && y < ShiftCeil(c.Height0(), level)
    ensures c.Location(level).x + x < c.block.width && c.Location(level).y + y < c.block.height
  {
    hide ShiftCeil, c.Location, c.First, c.InTail, c.Width0, c.Height0, BlockOk;
    TailLevelInside(c, level);
  }

  /**
   * In a render target, texels of different tail levels own different bytes of the tail block,
   * wherever the block lies in the image.
   */
  lemma TailTexelsApart(c: Chain, blockX: nat, blockY: nat, i: nat, x: nat, y: nat, j: nat, x': nat, y': nat)
    requires c.Ok() && c.tile == RENDER_TARGET && c.block.tail == Thin64 && c.First() <= i < j < c.levels
    requires x < ShiftCeil(c.Width0(), i) && y < ShiftCeil(c.Height0(), i)
    requires x' < ShiftCeil(c.Width0(), j) && y' < ShiftCeil(c.Height0(), j)
    ensures var a, b := TailTexel(c, blockX, blockY, i, x, y), TailTexel(c, blockX, blockY, j, x', y');
      a + c.block.bytes <= b || b + c.block.bytes <= a
  {
    hide ShiftCeil, c.Location, c.First, c.InTail, c.Width0, c.Height0, S.InBlock, BlockWidth, BlockHeight;
    TargetBlock(c);
    TailLevelsNeverCollide(c, i, j);
    TailTexelInBlock(c, i, x, y);
    TailTexelInBlock(c, j, x', y');
    var ax, ay := c.Location(i).x + x, c.Location(i).y + y;
    var bx, by' := c.Location(j).x + x', c.Location(j).y + y';
    assert ax != bx || ay != by';
    var a, b := TailTexel(c, blockX, blockY, i, x, y), TailTexel(c, blockX, blockY, j, x', y');
    if a == b {
      S.InBlockInjective(c.block.bytes, blockX, blockY, ax, ay, bx, by');
    }
    S.InBlockAligned(c.block.bytes, blockX, blockY, ax, ay);
    S.InBlockAligned(c.block.bytes, blockX, blockY, bx, by');
    MultiplesApart(a, b, c.block.bytes);
  }

  lemma MultiplesApart(a: nat, b: nat, k: nat)
    requires k > 0 && a % k == 0 && b % k == 0 && a != b
    ensures a + k <= b || b + k <= a
  {
    var p, q := a / k, b / k;
    assert a == p * k && b == q * k;
    if p < q {
      MulMono(p + 1, q, k);
    } else {
      MulMono(q + 1, p, k);
    }
  }
}
