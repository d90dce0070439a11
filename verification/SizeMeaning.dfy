/** What the size arithmetic of textures and images means: rounding is to the least multiple,
    levels halve, tile modes name their blocks, and arguments are refused for one reason each. */
module SizeMeaning {
  import opened Arith
  import opened Words
  import opened TileTail
  import M = TileMips
  import T = TextureSizes
  import I = ImageLayout
  import Formats
  import Pm4
  import WaitMeaning

  // ------------------------------------------------------------------ rounding

  /** Division rounding up gives the least number of parts that covers the value. */
  lemma CeilExactly(v: nat, p: nat, c: nat)
    requires p > 0
    ensures c == CeilDiv(v, p) <==> v <= c * p && (c > 0 ==> (c - 1) * p < v)
  {
    var q := CeilDiv(v, p);
    var r := (v + p - 1) % p;
    assert v + p - 1 == q * p + r;
    assert (q - 1) * p == q * p - p;
    if v <= c * p && (c > 0 ==> (c - 1) * p < v) {
      if c < q { MulMono(c, q - 1, p); }
      if q < c { MulMono(q, c - 1, p); }
    }
  }

  lemma CeilHalf(v: nat, p: nat)
    requires p > 0
    ensures CeilDiv(v, 2 * p) == (CeilDiv(v, p) + 1) / 2
  {
    hide CeilDiv;
    var d, e := (CeilDiv(v, p) + 1) / 2, CeilDiv(v, 2 * p);
    CeilLeast(v, 2 * p, d);
    CeilLeast(v, p, 2 * d);
    assert d * (2 * p) == 2 * d * p;
    CeilLeast(v, 2 * p, e);
    CeilLeast(v, p, 2 * e);
    assert e * (2 * p) == 2 * e * p;
  }

  /** A level is half the one above it, rounded up. */
  lemma LevelHalves(v: nat, level: nat)
    ensures ShiftCeil(v, 0) == v && ShiftCeil(v, level + 1) == (ShiftCeil(v, level) + 1) / 2
  {
    CeilHalf(v, Pow2(level));
  }

  /** Rounding up to an alignment gives its least multiple that is large enough. */
  lemma AlignExactly(v: nat, a: nat)
    requires a > 0
    ensures M.AlignUp(v, a) % a == 0 && v <= M.AlignUp(v, a) < v + a
  {
    var c := CeilDiv(v, a);
    CeilExactly(v, a, c);
    DivModUnique(c * a, a, c, 0);
    if c > 0 { assert (c - 1) * a == c * a - a; }
  }

  /** A full level is padded to whole blocks and no further. */
  lemma PaddedExactly(c: M.Chain, level: nat)
    requires c.Ok()
    ensures c.PaddedWidth(level) % c.block.width == 0 && c.PaddedHeight(level) % c.block.height == 0
    ensures ShiftCeil(c.Width0(), level) <= c.PaddedWidth(level) < ShiftCeil(c.Width0(), level) + c.block.width
    ensures ShiftCeil(c.Height0(), level) <= c.PaddedHeight(level) < ShiftCeil(c.Height0(), level) + c.block.height
  {
    hide M.AlignUp, ShiftCeil, c.Width0, c.Height0;
    AlignExactly(ShiftCeil(c.Width0(), level), c.block.width);
    AlignExactly(ShiftCeil(c.Height0(), level), c.block.height);
  }

  /** A tail starts where a level fits half a block and its table reaches to the last level; for
      small depth formats a quarter of the block has to do. */
  lemma TailExactly(c: M.Chain, level: nat)
    requires c.Ok() && level < c.levels
    ensures var w, h := ShiftCeil(c.Width0(), level), ShiftCeil(c.Height0(), level);
      c.InTail(level) <==>
        && c.levels > 1 && c.levels - level <= MaxTail(c.block.tail)
        && if c.tile == 24 && c.block.bytes < 4 then w <= 64 && h <= 128
           else if c.block.tail == Thick4 then w <= c.block.width && 2 * h <= c.block.height
           else 2 * w <= c.block.width && h <= c.block.height
  {
    hide ShiftCeil, c.Width0, c.Height0;
  }

  /** Inside a tail a level has the texels that plain halving leaves, in whole units. */
  lemma TailMipExactly(c: M.Chain, level: nat)
    requires c.Ok()
    ensures c.block.texelWidth == 1 ==> c.TailMipWidth(level) == I.MipDimension(c.width, level)
    ensures c.block.texelHeight == 1 ==> c.TailMipHeight(level) == I.MipDimension(c.height, level)
    ensures c.block.texelWidth == 4 ==> c.TailMipWidth(level) == (I.MipDimension(c.width, level) + 3) / 4
    ensures c.block.texelHeight == 4 ==> c.TailMipHeight(level) == (I.MipDimension(c.height, level) + 3) / 4
  {
    hide Pow2, BlockWidth, BlockHeight;
    QuotientSmall(c.width, Pow2(level));
    QuotientSmall(c.height, Pow2(level));
  }

  // ---------------------------------------------------------------- linear rows

  lemma {:induction false} AndLow(v: u64, k: nat)
    requires Pow2(k) <= TWO64
    ensures Pm4.And(v, Pow2(k) - 1) == v % Pow2(k)
    decreases k
  {
    hide Pm4.And;
    var mask := Pow2(k) - 1;
    WaitMeaning.AndHalf(v, mask);
    if k == 0 {
      AndNothing(v);
    } else {
      assert mask / 2 == Pow2(k - 1) - 1 && mask % 2 == 1;
      AndLow(v / 2, k - 1);
      HalveFirst(v, Pow2(k - 1));
    }
  }

  lemma AndNothing(v: u64)
    ensures Pm4.And(v, 0) == 0
  {
  }

  /** For a power of two, clearing the low bits rounds up to the least multiple. */
  lemma MaskUpExactly(v: nat, k: nat)
    requires v + Pow2(k) < TWO64
    ensures T.MaskUp(v, Pow2(k)) == M.AlignUp(v, Pow2(k))
  {
    hide Pm4.And, Pow2;
    var p := Pow2(k);
    AndLow(v + p - 1, k);
    var sum := v + p - 1;
    assert sum == sum / p * p + sum % p;
  }

  /** A linear level of `rows` rows of `pitch` units, the pitch being rounded to 256 bytes. */
  ghost predicate Pitched(f: T.Flat, w: nat, rows: nat, bytes: nat, compressed: bool, pitch: nat) {
    && f.size == pitch * rows * bytes
    && pitch * bytes % 256 == 0 && w * bytes <= pitch * bytes < w * bytes + 256
    && f.width == (if compressed then M.Max(4 * pitch, 32) else pitch)
    && f.height == (if compressed then M.Max(4 * rows, 32) else rows)
  }

  /** Linear rows of every element size but twelve bytes are the least multiple of 256 bytes
      that holds the level's width. */
  lemma LinearPitch(width: nat, height: nat, bytes: nat, compressed: bool, level: nat)
    requires 0 < width <= 16384 && bytes in {1, 2, 4, 8, 16}
    ensures exists pitch :: Pitched(T.LinearLevel(width, height, bytes, compressed, level), M.Max(ShiftCeil(width, level), 1),
                                    M.Max(ShiftCeil(height, level), 1), bytes, compressed, pitch)
  {
    hide ShiftCeil, Pm4.And, M.AlignUp, Pow2, T.MaskUp;
    T.ShiftCeilSmall(width, level);
    var w := M.Max(ShiftCeil(width, level), 1);
    var k := if bytes == 1 then 8 else if bytes == 2 then 7 else if bytes == 4 then 6 else if bytes == 8 then 5 else 4;
    RowPower(bytes, k);
    MaskUpExactly(w, k);
    var units := T.RowUnits(bytes);
    var pitch := T.MaskUp(w, units);
    AlignExactly(w, units);
    RowBytes(pitch, units, bytes);
    RowLess(pitch, w, units, bytes);
    assert Pitched(T.LinearLevel(width, height, bytes, compressed, level), w, M.Max(ShiftCeil(height, level), 1), bytes,
                   compressed, pitch);
  }

  lemma RowPower(bytes: nat, k: nat)
    requires bytes in {1, 2, 4, 8, 16}
    requires k == if bytes == 1 then 8 else if bytes == 2 then 7 else if bytes == 4 then 6 else if bytes == 8 then 5 else 4
    ensures Pow2(k) == T.RowUnits(bytes) && T.RowUnits(bytes) * bytes == 256
  {
    assert Pow2(4) == 16;
    assert Pow2(5) == 32 && Pow2(6) == 64;
    assert Pow2(7) == 128 && Pow2(8) == 256;
  }

  lemma RowBytes(pitch: nat, units: nat, bytes: nat)
    requires units > 0 && units * bytes == 256 && pitch % units == 0
    ensures pitch * bytes % 256 == 0
  {
    var q := pitch / units;
    assert pitch == q * units;
    assert pitch * bytes == q * 256 by { MulAssoc(q, units, bytes); }
    DivModUnique(pitch * bytes, 256, q, 0);
  }

  lemma RowLess(pitch: nat, w: nat, units: nat, bytes: nat)
    requires units * bytes == 256 && w <= pitch < w + units && bytes > 0
    ensures w * bytes <= pitch * bytes < w * bytes + 256
  {
    MulMono(w, pitch, bytes);
    MulMono(pitch + 1, w + units, bytes);
    assert (w + units) * bytes == w * bytes + 256;
    assert (pitch + 1) * bytes == pitch * bytes + bytes;
  }

  /** A level in 256-byte blocks is padded to whole blocks each way and no further. */
  lemma MicroExactly(b: T.Micro, width: nat, height: nat, level: nat, w: nat, h: nat)
    requires b.texel > 0 && b.width > 0 && b.height > 0
    requires w == M.AlignUp(M.Max(ShiftCeil(CeilDiv(width, b.texel), level), 1), b.width)
    requires h == M.AlignUp(M.Max(ShiftCeil(CeilDiv(height, b.texel), level), 1), b.height)
    ensures T.MicroLevel(b, width, height, level) == T.Flat(w * h * b.bytes, w * b.texel, h * b.texel)
    ensures w % b.width == 0 && h % b.height == 0
    ensures ShiftCeil(CeilDiv(width, b.texel), level) <= w && ShiftCeil(CeilDiv(height, b.texel), level) <= h
    ensures w < M.Max(ShiftCeil(CeilDiv(width, b.texel), level), 1) + b.width
    ensures h < M.Max(ShiftCeil(CeilDiv(height, b.texel), level), 1) + b.height
  {
    hide CeilDiv, ShiftCeil, M.AlignUp;
    AlignExactly(M.Max(ShiftCeil(CeilDiv(width, b.texel), level), 1), b.width);
    AlignExactly(M.Max(ShiftCeil(CeilDiv(height, b.texel), level), 1), b.height);
  }

  /** A row of one twelve-byte texel is not rounded up at all: 21 units are no power of two. */
  lemma TwelveByteRow()
    ensures T.RowUnits(12) == 21 && T.MaskUp(1, 21) == 1
  {
    assert Pm4.And(1, 1) == 1 by { assert Pm4.And(0, 0) == 0; }
    assert Pm4.And(2, 2) == 2;
    assert Pm4.And(5, 5) == 5;
    assert Pm4.And(10, 10) == 10;
    assert Pm4.And(21, 20) == 20;
  }

  // ---------------------------------------------------------------- tile modes

  ghost predicate Tileable(format: u32) {
    Formats.NumBytesPerElement(format) in {1, 2, 4, 8, 16} || Formats.BlockBytes(format) != 0
  }

  /** Mode 5 tiles in 4 KiB, modes 9, 17, 24 and 27 in 64 KiB; depth targets have at most eight
      bytes, and only the standard modes take compressed formats and thick volumes. */
  lemma TileModes(format: u32, tile: nat)
    ensures var b, v := M.TextureBlock(format, tile), M.VolumeBlock(format, tile);
      && (tile in {5, 9, 17} ==> (b.Some? <==> Tileable(format)))
      && (tile == 24 ==> (b.Some? <==> Formats.NumBytesPerElement(format) in {1, 2, 4, 8}))
      && (tile == 27 ==> (b.Some? <==> Formats.NumBytesPerElement(format) in {1, 2, 4, 8, 16}))
      && (tile !in {5, 9, 17, 24, 27} ==> b.None? && v.None?)
      && (b.Some? ==>
            && b.value.size == v.value.size == (if tile == 5 then 0x1000 else 0x1_0000)
            && b.value.bytes == v.value.bytes
            && b.value.texelWidth == b.value.texelHeight == (if Formats.NumBytesPerElement(format) == 0 then 4 else 1)
            && b.value.tail == (if tile == 5 then Thin4 else Thin64)
            && v.value.tail == (if tile == 5 then Thick4 else if tile in {9, 17} then Thick64 else Thin64))
  {
    FormatKinds(format);
  }

  /** No format is both plain and compressed. */
  lemma FormatKinds(format: u32)
    ensures Formats.NumBytesPerElement(format) == 0 || Formats.BlockBytes(format) == 0
  {
  }

  /** An sRGB view shares the storage of a format of the same size, which shares its own. */
  lemma AliasKeepsSize(format: u32)
    ensures var a := Formats.StorageAlias(format);
      && (a == 0 <==> !Formats.Known(format))
      && (a != 0 ==>
            && Formats.StorageAlias(a) == a
            && Formats.NumBytesPerElement(a) == Formats.NumBytesPerElement(format)
            && Formats.BlockBytes(a) == Formats.BlockBytes(format))
  {
    hide Formats.NumBytesPerElement, Formats.BlockBytes;
    if format in {128, 129, 130} {
      PlainAlias(format);
    } else if format in {170, 172, 174, 182} {
      CompressedAlias(format);
    } else if format == 0 {
      ZeroIsUnknown();
    }
  }

  lemma ZeroIsUnknown()
    ensures !Formats.Known(0)
  {
  }

  lemma PlainAlias(format: u32)
    requires format in {128, 129, 130}
    ensures var a := Formats.StorageAlias(format);
      && a in {1, 14, 56} && Formats.Known(format)
      && Formats.NumBytesPerElement(a) == Formats.NumBytesPerElement(format) > 0
      && Formats.BlockBytes(a) == Formats.BlockBytes(format) == 0
  {
    if format == 128 {} else if format == 129 {} else {}
  }

  lemma CompressedAlias(format: u32)
    requires format in {170, 172, 174, 182}
    ensures var a := Formats.StorageAlias(format);
      && a in {169, 171, 173, 181} && Formats.Known(format)
      && Formats.NumBytesPerElement(a) == Formats.NumBytesPerElement(format) == 0
      && Formats.BlockBytes(a) == Formats.BlockBytes(format) > 0
  {
    hide Formats.NumBytesPerElement;
    HighFormats(format);
    HighFormats(Formats.StorageAlias(format));
  }

  lemma HighFormats(format: u32)
    requires format >= 169
    ensures Formats.NumBytesPerElement(format) == 0
  {
  }

  // --------------------------------------------------------------- image levels

  /** An image level is half the one above it, rounded down, but never empty. */
  lemma MipHalves(d: nat, level: nat)
    ensures I.MipDimension(d, 0) == M.Max(d, 1)
    ensures I.MipDimension(d, level + 1) == M.Max(I.MipDimension(d, level) / 2, 1)
  {
    var p := Pow2(level);
    var q := d / p;
    assert d / (2 * p) == q / 2 by {
      var r := d % p + (q % 2) * p;
      assert d == q / 2 * (2 * p) + r by {
        assert d == q * p + d % p;
        assert q == q / 2 * 2 + q % 2;
        assert q * p == q / 2 * 2 * p + q % 2 * p;
        assert q / 2 * 2 * p == q / 2 * (2 * p);
      }
      MulMono(q % 2, 1, p);
      MulMono(0, q % 2, p);
      DivModUnique(d, 2 * p, q / 2, r);
    }
  }

  /** Compressed images are measured in 4x4 blocks; only volumes shrink in depth; a cube has six
      layers per layer, and a volume none. */
  lemma ImageUnits(i: I.Input, size: nat, level: nat)
    ensures Formats.BlockBytes(i.format) == 0 ==> I.Blocks(i, size) == size && I.Unit(i) == Formats.NumBytesPerElement(i.format)
    ensures Formats.BlockBytes(i.format) != 0 ==>
      I.Blocks(i, size) == CeilDiv(size, 4) && I.Unit(i) == Formats.BlockBytes(i.format)
    ensures I.MipDepth(i, level) == if i.imageType == I.COLOR_3D then I.MipDimension(i.depth, level) else 1
    ensures i.imageType == I.CUBE ==> I.LevelLayers(i) == 6 * i.layers
    ensures i.imageType == I.COLOR_3D ==> I.LevelLayers(i) == 1 && I.ArrayLayers(i) == 0
    ensures i.imageType !in {I.CUBE, I.COLOR_3D} ==> I.LevelLayers(i) == i.layers == I.ArrayLayers(i)
  {
  }

  /** The dimensions each image type leaves free; the others must be one. */
  ghost predicate Shaped(i: I.Input) {
    && (i.imageType in {8, 12} ==> i.height == 1)
    && (i.imageType != 10 ==> i.depth == 1)
    && (i.imageType in {8, 9, 10} ==> i.layers == 1)
    && (i.imageType == 11 ==> i.width == i.height)
  }

  /** Exactly which image descriptions are well formed. */
  lemma ArgumentsExactly(i: I.Input)
    ensures I.CheckArguments(i) == I.Success <==>
      && i.width > 0 && i.height > 0 && i.depth > 0 && i.layers > 0
      && 8 <= i.imageType <= 13 && Shaped(i) && (i.imageType == 11 ==> 6 * i.layers < TWO32)
      && 1 <= i.mipCount <= (if i.packed then 16 else 1)
      && (i.packed ==> i.rowPitch == 0 && i.slicePitch == 0)
      && (Formats.NumBytesPerElement(i.format) != 0 || Formats.BlockBytes(i.format) != 0)
      && i.format !in {2, 12, 19, 21, 28, 61, 63, 70, 73, 76}
    ensures i.width == 0 || i.height == 0 || i.depth == 0 || i.layers == 0 || i.mipCount == 0 ==>
      I.CheckArguments(i) == I.InvalidArgument
    ensures I.CheckArguments(i) == I.UnsupportedFormat ==>
      (Formats.NumBytesPerElement(i.format) == 0 && Formats.BlockBytes(i.format) == 0) || i.format in Formats.NOT_SAMPLED
  {
    AliasKeepsSize(i.format);
  }
}
