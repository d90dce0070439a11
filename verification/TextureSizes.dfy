/** Sizes of 2D textures in every tile mode: linear rows, 256-byte blocks without a tail, and
    the larger blocks with one. */
module TextureSizes {
  import opened Words
  import opened Arith
  import opened TileTail
  import opened TileMips
  import Formats
  import Pm4

  const LINEAR: nat := 0
  const STANDARD_256: nat := 1
  const LINEAR_ALIGN: nat := 256

  /** A level that is stored by itself: its bytes and its padded size in texels. */
  datatype Flat = Flat(size: nat, width: nat, height: nat)

  /** Where the levels from `l` on end: smaller levels come first. */
  function FlatEnd(f: seq<Flat>, l: nat): nat
    requires l <= |f|
    decreases |f| - l
  {
    if l == |f| then 0 else FlatEnd(f, l + 1) + f[l].size
  }

  lemma {:induction false} FlatEndMonotone(f: seq<Flat>, a: nat, b: nat)
    requires a <= b <= |f|
    ensures FlatEnd(f, b) <= FlatEnd(f, a)
    decreases |f| - a
  {
    if a < b {
      FlatEndMonotone(f, a + 1, b);
    }
  }

  /** The bytes of level `l`, and its padded size. */
  predicate FlatStored(f: seq<Flat>, l: nat, level: Level, padded: Padded)
    requires l < |f|
  {
    level == Level(f[l].size, FlatEnd(f, l + 1), 0, 0, 0, 0) && padded == Padded(f[l].width, f[l].height)
  }

  /** Places the levels smallest first; fails exactly when they leave 32 bits. */
  method StackLevels(f: seq<Flat>) returns (ok: bool, total: nat, levels: seq<Level>, padded: seq<Padded>)
    ensures ok <==> FlatEnd(f, 0) < TWO32
    ensures ok ==> total == FlatEnd(f, 0) && |levels| == |f| && |padded| == |f|
    ensures ok ==> forall l | 0 <= l < |f| :: FlatStored(f, l, levels[l], padded[l])
  {
    levels, padded := seq(|f|, _ => Level(0, 0, 0, 0, 0, 0)), seq(|f|, _ => Padded(0, 0));
    total := 0;
    var l := |f|;
    while l > 0
      invariant 0 <= l <= |f| && total == FlatEnd(f, l) < TWO32
      invariant |levels| == |f| && |padded| == |f|
      invariant forall k | l <= k < |f| :: FlatStored(f, k, levels[k], padded[k])
    {
      var level := l - 1;
      var size := f[level].size;
      FlatEndMonotone(f, 0, level);
      if size >= TWO32 || total > TWO32 - 1 - size {
        return false, total, levels, padded;
      }
      levels := levels[level := Level(size, total, 0, 0, 0, 0)];
      padded := padded[level := Padded(f[level].width, f[level].height)];
      total := total + size;
      l := level;
    }
    ok := true;
  }

  /** Levels stored by themselves abut and never overlap. */
  lemma FlatLevelsApart(f: seq<Flat>, a: nat, b: nat)
    requires a < b < |f|
    ensures FlatEnd(f, b + 1) + f[b].size <= FlatEnd(f, a + 1)
    ensures FlatEnd(f, a + 1) + f[a].size == FlatEnd(f, a) <= FlatEnd(f, 0)
  {
    FlatEndMonotone(f, a + 1, b);
    FlatEndMonotone(f, 0, a);
  }

  // ------------------------------------------------------------ 256-byte blocks

  datatype Micro = Micro(bytes: nat, texel: nat, width: nat, height: nat)

  function MicroDims(bytes: nat, texel: nat): (r: Micro)
    requires bytes in {1, 2, 4, 8, 16}
    ensures r.bytes == bytes && r.texel == texel && r.width * r.height * r.bytes == 256
    ensures r.width == r.height || r.width == 2 * r.height
  {
    Micro(bytes, texel, if bytes <= 2 then 16 else if bytes <= 8 then 8 else 4,
          if bytes == 1 then 16 else if bytes <= 4 then 8 else 4)
  }

  function MicroBlock(format: u32): (r: Option<Micro>)
    ensures r.Some? ==> r.value.texel in {1, 4} && r.value.width * r.value.height * r.value.bytes == 256
  {
    var bytes, block := Formats.NumBytesPerElement(format), Formats.BlockBytes(format);
    if bytes in {1, 2, 4, 8, 16} then Some(MicroDims(bytes, 1))
    else if block != 0 then Some(MicroDims(block, 4))
    else None
  }

  function MicroLevel(b: Micro, width: nat, height: nat, level: nat): Flat
    requires b.texel > 0 && b.width > 0 && b.height > 0
  {
    var w := AlignUp(Max(ShiftCeil(CeilDiv(width, b.texel), level), 1), b.width);
    var h := AlignUp(Max(ShiftCeil(CeilDiv(height, b.texel), level), 1), b.height);
    Flat(Volume(w, h, 1, b.bytes), Volume(w, b.texel, 1, 1), Volume(h, b.texel, 1, 1))
  }

  lemma MicroPositive(b: Micro)
    requires b.width * b.height * b.bytes == 256
    ensures b.width > 0 && b.height > 0 && b.bytes > 0
  {
  }

  function MicroChain(b: Micro, width: nat, height: nat, levels: nat): (f: seq<Flat>)
    requires b.texel > 0 && b.width * b.height * b.bytes == 256
    ensures |f| == levels
  {
    MicroPositive(b);
    seq(levels, l requires 0 <= l < levels => MicroLevel(b, width, height, l))
  }

  // ---------------------------------------------------------------- linear rows

  /** Clears the bits of `alignment - 1`, as the source does; a true rounding only for powers of two. */
  function MaskUp(value: nat, alignment: nat): (r: nat)
    requires 0 < alignment && value + alignment < TWO64
    ensures value <= r < value + alignment
  {
    var sum := value + alignment - 1;
    sum - Pm4.And(sum, alignment - 1)
  }

  /** One row holds at least 256 bytes' worth of units; a 12-byte unit gives 21, no power of two. */
  function RowUnits(bytes: nat): (r: nat)
    requires 0 < bytes
    ensures 1 <= r <= 256
  {
    QuotientSmall(256, bytes);
    Max(1, 256 / bytes)
  }

  function LinearLevel(width: nat, height: nat, bytes: nat, compressed: bool, level: nat): Flat
    requires width <= 16384 && 0 < bytes
  {
    ShiftCeilSmall(width, level);
    var pitch := MaskUp(Max(ShiftCeil(width, level), 1), RowUnits(bytes));
    var rows := Max(ShiftCeil(height, level), 1);
    if compressed then Flat(Volume(pitch, rows, 1, bytes), Max(4 * pitch, 32), Max(4 * rows, 32))
    else Flat(Volume(pitch, rows, 1, bytes), pitch, rows)
  }

  lemma ShiftCeilSmall(value: nat, level: nat)
    ensures ShiftCeil(value, level) <= value
  {
    MulMono(1, Pow2(level), value);
    CeilLeast(value, Pow2(level), value);
  }

  function LinearChain(width: nat, height: nat, bytes: nat, compressed: bool, levels: nat): (f: seq<Flat>)
    requires width <= 16384 && 0 < bytes
    ensures |f| == levels
  {
    seq(levels, l requires 0 <= l < levels => LinearLevel(width, height, bytes, compressed, l))
  }

  /** The linear levels of a texture: its elements, or its 4x4 blocks. */
  function LinearLevels(format: u32, width: u32, height: u32, levels: u32): (r: Option<seq<Flat>>)
    requires width <= 16384
    ensures r.Some? ==> |r.value| == levels
  {
    var bytes, block := Formats.NumBytesPerElement(format), Formats.BlockBytes(format);
    if bytes != 0 then Some(LinearChain(width, height, bytes, false, levels))
    else if block != 0 then
      CeilSmall(width, 4);
      Some(LinearChain(Max(CeilDiv(width, 4), 1), Max(CeilDiv(height, 4), 1), block, true, levels))
    else None
  }

  lemma CeilSmall(value: nat, p: nat)
    requires p > 0
    ensures CeilDiv(value, p) <= value
  {
    MulMono(1, p, value);
    CeilLeast(value, p, value);
  }

  // ------------------------------------------------------------- any tile mode

  predicate TextureFits(format: u32, width: u32, height: u32, levels: u32, tile: nat) {
    && 0 < width <= 16384 && 0 < height <= 16384 && 0 < levels <= 16
    && SizeInRange(format, width, height)
    && if tile == LINEAR then
         var f := LinearLevels(format, width, height, levels);
         f.Some? && AlignUp(FlatEnd(f.value, 0), LINEAR_ALIGN) < TWO32
       else if tile == STANDARD_256 then
         var b := MicroBlock(format);
         b.Some? && FlatEnd(MicroChain(b.value, width, height, levels), 0) < TWO32
       else BlockedFits(format, width, height, levels, tile)
  }

  /** The layout places every level as its mode prescribes. */
  ghost predicate TextureLaid(format: u32, width: u32, height: u32, levels: u32, tile: nat, r: MipLayout)
    requires TextureFits(format, width, height, levels, tile)
  {
    if tile == LINEAR then
      var f := LinearLevels(format, width, height, levels).value;
      FlatLaid(f, r) && r.size == AlignUp(FlatEnd(f, 0), LINEAR_ALIGN) && r.align == LINEAR_ALIGN
    else if tile == STANDARD_256 then
      var f := MicroChain(MicroBlock(format).value, width, height, levels);
      FlatLaid(f, r) && r.size == FlatEnd(f, 0) && r.align == 256
    else Laid(Chain(TextureBlock(format, tile).value, tile, width, height, levels), r)
  }

  ghost predicate FlatLaid(f: seq<Flat>, r: MipLayout) {
    |r.levels| == |f| && |r.padded| == |f| && forall l | 0 <= l < |f| :: FlatStored(f, l, r.levels[l], r.padded[l])
  }

  /** No level is empty, so no chain is. */
  lemma VolumePositive(w: nat, h: nat, bytes: nat)
    requires w >= 1 && h >= 1 && bytes >= 1
    ensures Volume(w, h, 1, bytes) >= 1
  {
    VolumeMono(1, 1, 1, bytes, w, h, 1);
  }

  lemma LinearPositive(format: u32, width: u32, height: u32, levels: u32)
    requires width <= 16384 && levels > 0 && LinearLevels(format, width, height, levels).Some?
    ensures FlatEnd(LinearLevels(format, width, height, levels).value, 0) > 0
  {
    hide MaskUp, ShiftCeil, CeilDiv, Volume;
    var f := LinearLevels(format, width, height, levels).value;
    var bytes, block := Formats.NumBytesPerElement(format), Formats.BlockBytes(format);
    if bytes != 0 {
      LinearLevelPositive(width, height, bytes, false, 0);
    } else {
      CeilSmall(width, 4);
      LinearLevelPositive(Max(CeilDiv(width, 4), 1), Max(CeilDiv(height, 4), 1), block, true, 0);
    }
    assert f[0].size > 0;
  }

  lemma LinearLevelPositive(width: nat, height: nat, bytes: nat, compressed: bool, level: nat)
    requires width <= 16384 && 0 < bytes
    ensures LinearLevel(width, height, bytes, compressed, level).size >= 1
  {
    hide ShiftCeil, Volume;
    ShiftCeilSmall(width, level);
    VolumePositive(MaskUp(Max(ShiftCeil(width, level), 1), RowUnits(bytes)), Max(ShiftCeil(height, level), 1), bytes);
  }

  lemma MicroChainPositive(b: Micro, width: nat, height: nat, levels: nat)
    requires b.texel > 0 && b.width * b.height * b.bytes == 256 && levels > 0
    ensures FlatEnd(MicroChain(b, width, height, levels), 0) > 0
  {
    hide ShiftCeil, CeilDiv, Volume, AlignUp;
    MicroPositive(b);
    var w, h := Max(ShiftCeil(CeilDiv(width, b.texel), 0), 1), Max(ShiftCeil(CeilDiv(height, b.texel), 0), 1);
    AlignUpBound(w, b.width);
    AlignUpBound(h, b.height);
    VolumePositive(AlignUp(w, b.width), AlignUp(h, b.height), b.bytes);
    assert MicroChain(b, width, height, levels)[0].size > 0;
  }

  method LinearSize(format: u32, width: u32, height: u32, levels: u32) returns (r: Option<MipLayout>)
    requires 0 < width <= 16384 && 0 < levels <= 16
    ensures var f := LinearLevels(format, width, height, levels);
      && (r.Some? <==> f.Some? && AlignUp(FlatEnd(f.value, 0), LINEAR_ALIGN) < TWO32)
      && (r.Some? ==> FlatLaid(f.value, r.value) && r.value.size == AlignUp(FlatEnd(f.value, 0), LINEAR_ALIGN) && r.value.align == LINEAR_ALIGN)
  {
    hide AlignUp, LinearLevels;
    var f := LinearLevels(format, width, height, levels);
    if f.None? {
      return None;
    }
    AlignUpBound(FlatEnd(f.value, 0), LINEAR_ALIGN);
    LinearPositive(format, width, height, levels);
    var ok, total, sizes, padded := StackLevels(f.value);
    if !ok {
      return None;
    }
    var aligned := AlignUp(total, LINEAR_ALIGN);
    if aligned >= TWO32 || aligned == 0 {
      return None;
    }
    r := Some(MipLayout(aligned, LINEAR_ALIGN, sizes, padded));
  }

  method MicroSize(format: u32, width: u32, height: u32, levels: u32) returns (r: Option<MipLayout>)
    requires 0 < levels <= 16
    ensures var b := MicroBlock(format);
      && (r.Some? <==> b.Some? && FlatEnd(MicroChain(b.value, width, height, levels), 0) < TWO32)
      && (r.Some? ==>
            var f := MicroChain(b.value, width, height, levels); FlatLaid(f, r.value) && r.value.size == FlatEnd(f, 0) && r.value.align == 256)
  {
    hide MicroBlock, MicroChain;
    var b := MicroBlock(format);
    if b.None? {
      return None;
    }
    var f := MicroChain(b.value, width, height, levels);
    MicroChainPositive(b.value, width, height, levels);
    var ok, total, sizes, padded := StackLevels(f);
    if !ok || total == 0 {
      return None;
    }
    r := Some(MipLayout(total, 256, sizes, padded));
  }

  /** A texture has a layout exactly when its arguments, its size and its chain allow it. */
  method TextureSize(format: u32, width: u32, height: u32, levels: u32, tile: nat) returns (r: Option<MipLayout>)
    ensures r.Some? <==> TextureFits(format, width, height, levels, tile)
    ensures r.Some? ==> TextureLaid(format, width, height, levels, tile, r.value)
  {
    hide LinearLevels, MicroBlock, MicroChain, BlockedFits, AlignUp, SizeInRange, FlatLaid;
    if width == 0 || width > 16384 || height == 0 || height > 16384 || levels == 0 || levels > 16 {
      return None;
    }
    if !SizeInRange(format, width, height) {
      return None;
    }
    if tile == LINEAR {
      r := LinearSize(format, width, height, levels);
    } else if tile == STANDARD_256 {
      r := MicroSize(format, width, height, levels);
    } else {
      r := BlockedSize(format, width, height, levels, tile);
    }
  }
}
