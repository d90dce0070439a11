/** Byte layouts of guest images, with every product and sum checked. */
module ImageLayout {
  import opened Words
  import opened Arith
  import Formats
  import TileTail
  import M = TileMips
  import T = TextureSizes

  const MAX_MIPS: nat := 16
  const MAX_BYTES: nat := 512 * 1024 * 1024
  const LINEAR: u32 := 0
  const RENDER_TARGET: u32 := 27

  const COLOR_1D: u32 := 8
  const COLOR_2D: u32 := 9
  const COLOR_3D: u32 := 10
  const CUBE: u32 := 11
  const COLOR_1D_ARRAY: u32 := 12
  const COLOR_2D_ARRAY: u32 := 13

  datatype Status = Success | NeedsDetile | InvalidArgument | UnsupportedFormat | UnsupportedLayout | Overflow

  datatype Input = Input(
    address: u64, format: u32, width: u32, height: u32, depth: u32, layers: u32, mipCount: u32,
    rowPitch: u64, slicePitch: u64, imageType: u32, tileMode: u32, packed: bool)

  datatype Mip = Mip(
    width: nat, height: nat, depth: nat, blockWidth: nat, blockHeight: nat, blockDepth: nat,
    rowBytes: nat, sliceBytes: nat, layerBytes: nat, byteOffset: nat, byteCount: nat)

  datatype StorageKey = StorageKey(address: nat, byteCount: nat, format: u32)

  datatype Layout = Layout(
    status: Status, viewFormat: u32, storageAlias: u32, arrayLayers: nat, blockCompressed: bool,
    needsDetile: bool, mips: seq<Mip>, totalBytes: nat, storageBytes: nat, key: StorageKey)

  const NO_MIP := Mip(0, 0, 0, 0, 0, 0, 0, 0, 0, 0, 0)

  function Failure(status: Status, needsDetile: bool): Layout {
    Layout(status, 0, 0, 0, false, needsDetile, seq(MAX_MIPS, _ => NO_MIP), 0, 0, StorageKey(0, 0, 0))
  }

  // ---------------------------------------------------- checked arithmetic

  function Add(left: nat, right: nat): (r: Option<u64>)
    requires left < TWO64 && right < TWO64
    ensures r == if left + right < TWO64 then Some(left + right) else None
  {
    if left > TWO64 - 1 - right then None else Some(left + right)
  }

  /** The quotient test rejects exactly the products that do not fit. */
  function Multiply(left: nat, right: nat): (r: Option<u64>)
    requires left < TWO64 && right < TWO64
    ensures r == if left * right < TWO64 then Some(left * right) else None
  {
    MultiplyTest(left, right);
    if left != 0 && right > (TWO64 - 1) / left then None else Some(left * right)
  }

  lemma MultiplyTest(left: nat, right: nat)
    ensures (left != 0 && right > (TWO64 - 1) / left) <==> left * right >= TWO64
  {
    if left != 0 {
      var q := (TWO64 - 1) / left;
      assert TWO64 - 1 == q * left + (TWO64 - 1) % left;
      if right > q {
        MulMono(q + 1, right, left);
        assert (q + 1) * left == q * left + left;
      } else {
        MulMono(right, q, left);
      }
    }
  }

  // ------------------------------------------------------ argument checks

  predicate KnownType(imageType: u32) { COLOR_1D <= imageType <= COLOR_2D_ARRAY }

  predicate ShapeOk(i: Input)
    requires KnownType(i.imageType)
  {
    if i.imageType == COLOR_1D then i.height == 1 && i.depth == 1 && i.layers == 1
    else if i.imageType == COLOR_1D_ARRAY then i.height == 1 && i.depth == 1
    else if i.imageType == COLOR_2D then i.depth == 1 && i.layers == 1
    else if i.imageType == COLOR_2D_ARRAY then i.depth == 1
    else if i.imageType == COLOR_3D then i.layers == 1
    else i.width == i.height && i.depth == 1
  }

  /** Cube faces included; zero for volumes. */
  function ArrayLayers(i: Input): nat {
    if i.imageType == COLOR_3D then 0 else if i.imageType == CUBE then i.layers * 6 else i.layers
  }

  function CheckArguments(i: Input): Status {
    var unit, block := Formats.NumBytesPerElement(i.format), Formats.BlockBytes(i.format);
    if i.width == 0 || i.height == 0 || i.depth == 0 || i.layers == 0 || i.mipCount == 0 then InvalidArgument
    else if i.mipCount > MAX_MIPS || !KnownType(i.imageType) then UnsupportedLayout
    else if Formats.StorageAlias(i.format) == 0 || (unit == 0 && block == 0) || !Formats.Sampled(i.format) then UnsupportedFormat
    else if !i.packed && i.mipCount != 1 then UnsupportedLayout
    else if i.packed && (i.rowPitch != 0 || i.slicePitch != 0) then InvalidArgument
    else if !ShapeOk(i) then InvalidArgument
    else if ArrayLayers(i) >= TWO32 then UnsupportedLayout
    else Success
  }

  // ------------------------------------------------------------- one level

  function MipDimension(dimension: nat, level: nat): nat { M.Max(Quotient(dimension, Pow2(level)), 1) }

  /** Bytes of one stored unit: an element or a compressed block. */
  function Unit(i: Input): nat {
    if Formats.BlockBytes(i.format) != 0 then Formats.BlockBytes(i.format) else Formats.NumBytesPerElement(i.format)
  }

  function Blocks(i: Input, size: nat): nat {
    if Formats.BlockBytes(i.format) != 0 then (size + 3) / 4 else size
  }

  function LevelLayers(i: Input): nat { if i.imageType == COLOR_3D then 1 else ArrayLayers(i) }

  function MipDepth(i: Input, level: nat): nat { if i.imageType == COLOR_3D then MipDimension(i.depth, level) else 1 }

  lemma DimensionBound(dimension: nat, level: nat)
    requires dimension < TWO32
    ensures 1 <= MipDimension(dimension, level) < TWO32
  {
  }

  datatype Outcome = Fine(mip: Mip) | Bad(status: Status)

  /** One pass of the level loop: the level's record, or why the image is refused. */
  function BuildMip(i: Input, level: nat, total: nat): Outcome
    requires CheckArguments(i) == Success && total <= MAX_BYTES
  {
    DimensionBound(i.width, level);
    DimensionBound(i.height, level);
    DimensionBound(i.depth, level);
    BuildRows(i, MipDimension(i.width, level), MipDimension(i.height, level), MipDepth(i, level), total)
  }

  function BuildRows(i: Input, w: nat, h: nat, d: nat, total: nat): Outcome
    requires CheckArguments(i) == Success && total <= MAX_BYTES
    requires 0 < w < TWO32 && 0 < h < TWO32 && 0 < d < TWO32
  {
    var bw, bh := Blocks(i, w), Blocks(i, h);
    var row := Multiply(bw, Unit(i));
    if row.None? then Bad(Overflow)
    else if !i.packed && i.rowPitch != 0 && (i.rowPitch < row.value || i.rowPitch % Unit(i) != 0) then Bad(InvalidArgument)
    else
      var rowBytes := if !i.packed && i.rowPitch != 0 then i.rowPitch else row.value;
      BuildSlices(i, Mip(w, h, d, bw, bh, d, rowBytes, 0, 0, total, 0))
  }

  function BuildSlices(i: Input, m: Mip): Outcome
    requires CheckArguments(i) == Success && m.byteOffset <= MAX_BYTES
    requires 0 < m.rowBytes < TWO64 && m.blockHeight < TWO64 && m.depth < TWO64
  {
    var slice := Multiply(m.rowBytes, m.blockHeight);
    if slice.None? then Bad(Overflow)
    else if !i.packed && i.slicePitch != 0 && (i.slicePitch < slice.value || i.slicePitch % m.rowBytes != 0) then Bad(InvalidArgument)
    else
      var sliceBytes := if !i.packed && i.slicePitch != 0 then i.slicePitch else slice.value;
      var layer := Multiply(sliceBytes, m.depth);
      if layer.None? then Bad(Overflow) else
      var count := Multiply(layer.value, LevelLayers(i));
      if count.None? then Bad(Overflow) else
      var sum := Add(m.byteOffset, count.value);
      if sum.None? then Bad(Overflow)
      else if sum.value > MAX_BYTES then Bad(UnsupportedLayout)
      else Fine(m.(sliceBytes := sliceBytes, layerBytes := layer.value, byteCount := count.value))
  }

  // --------------------------------------------------------- linear images

  function LinearFrom(i: Input, level: nat, total: nat, mips: seq<Mip>): Layout
    requires CheckArguments(i) == Success && total <= MAX_BYTES && level <= i.mipCount && |mips| == MAX_MIPS
    decreases i.mipCount - level
  {
    if level < i.mipCount then
      match BuildMip(i, level, total)
      case Bad(status) => Failure(status, false)
      case Fine(mip) =>
        assert total + mip.byteCount <= MAX_BYTES by { BuildMipBounded(i, level, total); }
        LinearFrom(i, level + 1, total + mip.byteCount, mips[level := mip])
    else if i.address > TWO64 - 1 - total then Failure(Overflow, false)
    else
      var alias := Formats.StorageAlias(i.format);
      Layout(Success, i.format, alias, ArrayLayers(i), Formats.BlockBytes(i.format) != 0, false, mips, total, total,
        StorageKey(i.address, total, alias))
  }

  lemma BuildMipBounded(i: Input, level: nat, total: nat)
    requires CheckArguments(i) == Success && total <= MAX_BYTES && BuildMip(i, level, total).Fine?
    ensures total + BuildMip(i, level, total).mip.byteCount <= MAX_BYTES
  {
    DimensionBound(i.width, level);
    DimensionBound(i.height, level);
    DimensionBound(i.depth, level);
  }

  // ------------------------------------------------- render-target images

  predicate RenderTargetShape(i: Input) {
    && i.tileMode == RENDER_TARGET && i.imageType == COLOR_2D && i.depth == 1 && i.layers == 1
    && i.mipCount == 1 && i.packed && i.rowPitch == 0 && i.slicePitch == 0
    && Formats.BlockBytes(i.format) == 0 && Formats.NumBytesPerElement(i.format) in {1, 2, 4, 8, 16}
  }

  /** Pitch of a render-target texture: its width in whole blocks. */
  function RenderTargetPitch(format: u32, width: u32): Option<u64> {
    if width == 0 || width > 16384 then None else
    match M.TextureBlock(format, RENDER_TARGET)
    case None => None
    case Some(block) =>
      M.AlignUpBound(width, block.width);
      Some(M.AlignUp(width, block.width))
  }

  function TargetChain(i: Input): M.Chain
    requires M.TextureBlock(i.format, RENDER_TARGET).Some?
  {
    M.Chain(M.TextureBlock(i.format, RENDER_TARGET).value, RENDER_TARGET, i.width, i.height, 1)
  }

  /** Bytes of the tiled image, when it has a layout. */
  function TargetBytes(i: Input): Option<u64> {
    if T.TextureFits(i.format, i.width, i.height, 1, RENDER_TARGET) then Some(TargetChain(i).End(0)) else None
  }

  function RenderTargetLayout(i: Input): Layout {
    var pitch, size := RenderTargetPitch(i.format, i.width), TargetBytes(i);
    if pitch.None? || size.None? then Failure(UnsupportedLayout, false) else SizedTarget(i, pitch.value, size.value)
  }

  function SizedTarget(i: Input, pitch: u64, size: u64): Layout {
    var row := Multiply(pitch, Formats.NumBytesPerElement(i.format));
    if row.None? then Failure(Overflow, false) else
    var staging := Multiply(row.value, i.height);
    if staging.None? || i.address > TWO64 - 1 - staging.value || i.address > TWO64 - 1 - size then Failure(Overflow, false)
    else if staging.value > MAX_BYTES || size > MAX_BYTES then Failure(UnsupportedLayout, false)
    else
      var alias, bytes := Formats.StorageAlias(i.format), staging.value;
      Layout(Success, i.format, alias, 1, false, true,
        [Mip(i.width, i.height, 1, i.width, i.height, 1, row.value, bytes, bytes, 0, bytes)] + seq(MAX_MIPS - 1, _ => NO_MIP),
        bytes, size, StorageKey(i.address, size, alias))
  }

  // ------------------------------------------------------------- any image

  function GuestLayout(i: Input): Layout {
    var status := CheckArguments(i);
    if status != Success then Failure(status, false)
    else if i.tileMode == LINEAR then LinearFrom(i, 0, 0, seq(MAX_MIPS, _ => NO_MIP))
    else if RenderTargetShape(i) then RenderTargetLayout(i)
    else Failure(NeedsDetile, true)
  }

  method CalculateTarget(i: Input) returns (r: Layout)
    ensures r == RenderTargetLayout(i)
  {
    hide RenderTargetPitch, SizedTarget, M.TextureBlock;
    var pitch := RenderTargetPitch(i.format, i.width);
    var total := T.TextureSize(i.format, i.width, i.height, 1, RENDER_TARGET);
    if pitch.None? || total.None? {
      return Failure(UnsupportedLayout, false);
    }
    r := SizedTarget(i, pitch.value, total.value.size);
  }

  method CalculateGuestImageLayout(i: Input) returns (r: Layout)
    ensures r == GuestLayout(i)
  {
    hide RenderTargetLayout, BuildMip;
    var status := CheckArguments(i);
    if status != Success {
      return Failure(status, false);
    }
    if i.tileMode != LINEAR {
      if RenderTargetShape(i) {
        r := CalculateTarget(i);
        return;
      }
      return Failure(NeedsDetile, true);
    }
    var level: nat, total: nat, mips := 0, 0, seq(MAX_MIPS, _ => NO_MIP);
    while level < i.mipCount
      invariant level <= i.mipCount && total <= MAX_BYTES && |mips| == MAX_MIPS
      invariant GuestLayout(i) == LinearFrom(i, level, total, mips)
    {
      match BuildMip(i, level, total)
      case Bad(why) =>
        return Failure(why, false);
      case Fine(mip) =>
        BuildMipBounded(i, level, total);
        mips := mips[level := mip];
        total := total + mip.byteCount;
        level := level + 1;
    }
    r := LinearFrom(i, level, total, mips);
  }

  // ----------------------------------------------- exact sizes, unbounded

  function Product(a: nat, b: nat): nat { a * b }

  /** The level's record in unbounded arithmetic. */
  function ExactMip(i: Input, level: nat, offset: nat): Mip {
    ExactRows(i, MipDimension(i.width, level), MipDimension(i.height, level), MipDepth(i, level), offset)
  }

  function ExactRows(i: Input, w: nat, h: nat, d: nat, offset: nat): Mip {
    var bw, bh := Blocks(i, w), Blocks(i, h);
    var row := if !i.packed && i.rowPitch != 0 then i.rowPitch else Product(bw, Unit(i));
    var slice := if !i.packed && i.slicePitch != 0 then i.slicePitch else Product(row, bh);
    Mip(w, h, d, bw, bh, d, row, slice, Product(slice, d), offset, Product(Product(slice, d), LevelLayers(i)))
  }

  /** Given pitches hold a row and a slice, in whole units and whole rows. */
  predicate PitchesFit(i: Input, level: nat) { RowsFit(i, ExactMip(i, level, 0)) }

  predicate RowsFit(i: Input, m: Mip) {
    RowPitchOk(i, m) && SlicePitchOk(i, m)
  }

  /** Why a level with these exact sizes is refused: a bad row pitch, a slice beyond 64 bits, a bad
      slice pitch, a total beyond 64 bits, or a total beyond the limit, the first that applies. */
  function Reason(i: Input, m: Mip): Status {
    if !RowPitchOk(i, m) then InvalidArgument
    else if Product(m.rowBytes, m.blockHeight) >= TWO64 then Overflow
    else if !SlicePitchOk(i, m) then InvalidArgument
    else if m.byteOffset + m.byteCount >= TWO64 then Overflow
    else UnsupportedLayout
  }

  predicate RowPitchOk(i: Input, m: Mip) {
    !i.packed && i.rowPitch != 0 ==> Product(m.blockWidth, Unit(i)) <= i.rowPitch && Unit(i) != 0 && i.rowPitch % Unit(i) == 0
  }

  predicate SlicePitchOk(i: Input, m: Mip) {
    !i.packed && i.slicePitch != 0 ==>
      Product(m.rowBytes, m.blockHeight) <= i.slicePitch && m.rowBytes != 0 && i.slicePitch % m.rowBytes == 0
  }

  /** Bytes of the levels below `level`. */
  function PackedBytes(i: Input, level: nat): nat {
    if level == 0 then 0 else PackedBytes(i, level - 1) + ExactMip(i, level - 1, 0).byteCount
  }

  lemma BuildSlicesExact(i: Input, m: Mip)
    requires CheckArguments(i) == Success && m.byteOffset <= MAX_BYTES && m.sliceBytes == m.layerBytes == m.byteCount == 0
    requires 0 < m.rowBytes < TWO64 && 0 < m.blockHeight < TWO64 && 0 < m.depth < TWO64
    ensures var slice := if !i.packed && i.slicePitch != 0 then i.slicePitch else Product(m.rowBytes, m.blockHeight);
      var layer := Product(slice, m.depth); var count := Product(layer, LevelLayers(i));
      && (BuildSlices(i, m).Fine? <==> SlicePitchOk(i, m) && m.byteOffset + count <= MAX_BYTES)
      && (BuildSlices(i, m).Bad? ==>
            BuildSlices(i, m).status ==
              (if Product(m.rowBytes, m.blockHeight) >= TWO64 then Overflow
               else if !SlicePitchOk(i, m) then InvalidArgument
               else if m.byteOffset + count >= TWO64 then Overflow
               else UnsupportedLayout))
      && (BuildSlices(i, m).Fine? ==> BuildSlices(i, m).mip == m.(sliceBytes := slice, layerBytes := layer, byteCount := count))
  {
    var slice := if !i.packed && i.slicePitch != 0 then i.slicePitch else Product(m.rowBytes, m.blockHeight);
    Grows(slice, m.depth);
    Grows(Product(slice, m.depth), LevelLayers(i));
  }

  lemma BuildRowsExact(i: Input, w: nat, h: nat, d: nat, total: nat)
    requires CheckArguments(i) == Success && total <= MAX_BYTES
    requires 0 < w < TWO32 && 0 < h < TWO32 && 0 < d < TWO32
    ensures var m, b := ExactRows(i, w, h, d, total), BuildRows(i, w, h, d, total);
      && (b.Fine? <==> RowsFit(i, m) && total + m.byteCount <= MAX_BYTES)
      && (b.Fine? ==> b.mip == m)
      && (b.Bad? ==> b.status == Reason(i, m))
  {
    UnitPositive(i);
    hide CheckArguments, BuildSlices, LevelLayers, Unit;
    var m := ExactRows(i, w, h, d, total);
    Grows(m.blockWidth, Unit(i));
    BuildSlicesExact(i, m.(sliceBytes := 0, layerBytes := 0, byteCount := 0));
  }

  /** The checked step agrees with unbounded arithmetic, and refuses only what is too big or badly
      pitched, for the first reason that applies. */
  lemma BuildMipExact(i: Input, level: nat, total: nat)
    requires CheckArguments(i) == Success && total <= MAX_BYTES
    ensures BuildMip(i, level, total).Fine? <==> PitchesFit(i, level) && total + ExactMip(i, level, 0).byteCount <= MAX_BYTES
    ensures BuildMip(i, level, total).Fine? ==> BuildMip(i, level, total).mip == ExactMip(i, level, total)
    ensures BuildMip(i, level, total).Bad? ==> BuildMip(i, level, total).status == Reason(i, ExactMip(i, level, total))
  {
    hide BuildRows, MipDimension, CheckArguments, LevelLayers, Unit, Product;
    DimensionBound(i.width, level);
    DimensionBound(i.height, level);
    DimensionBound(i.depth, level);
    BuildRowsExact(i, MipDimension(i.width, level), MipDimension(i.height, level), MipDepth(i, level), total);
  }

  lemma UnitPositive(i: Input)
    requires CheckArguments(i) == Success
    ensures 0 < Unit(i) <= 16
  {
  }

  lemma Grows(a: nat, b: nat)
    requires b >= 1
    ensures a * b >= a
  {
    MulMono(1, b, a);
  }

  // ------------------------------------------- linear layouts are exact

  lemma {:induction false} PackedMonotone(i: Input, a: nat, b: nat)
    requires a <= b
    ensures PackedBytes(i, a) <= PackedBytes(i, b)
  {
    if a < b {
      PackedMonotone(i, a, b - 1);
    }
  }

  ghost predicate LinearFits(i: Input) {
    && (forall level | 0 <= level < i.mipCount :: PitchesFit(i, level))
    && PackedBytes(i, i.mipCount) <= MAX_BYTES
    && i.address + PackedBytes(i, i.mipCount) < TWO64
  }

  /** Levels follow each other from offset zero to the total; the rest stay blank. */
  ghost predicate LinearExact(i: Input, r: Layout) {
    && i.mipCount <= |r.mips| == MAX_MIPS
    && (forall level | 0 <= level < i.mipCount :: r.mips[level] == ExactMip(i, level, PackedBytes(i, level)))
    && (forall level | i.mipCount <= level < MAX_MIPS :: r.mips[level] == NO_MIP)
    && r.totalBytes == PackedBytes(i, i.mipCount) && r.storageBytes == r.totalBytes
    && r.key == StorageKey(i.address, r.totalBytes, Formats.StorageAlias(i.format))
    && r.viewFormat == i.format && r.arrayLayers == ArrayLayers(i) && !r.needsDetile
  }

  ghost predicate Prefix(i: Input, level: nat, mips: seq<Mip>) {
    && level <= i.mipCount <= |mips| == MAX_MIPS
    && (forall k | 0 <= k < level :: PitchesFit(i, k) && mips[k] == ExactMip(i, k, PackedBytes(i, k)))
    && (forall k | level <= k < MAX_MIPS :: mips[k] == NO_MIP)
  }

  lemma {:induction false} LinearFromExact(i: Input, level: nat, mips: seq<Mip>)
    requires CheckArguments(i) == Success && Prefix(i, level, mips) && PackedBytes(i, level) <= MAX_BYTES
    ensures LinearFrom(i, level, PackedBytes(i, level), mips).status == Success <==> LinearFits(i)
    ensures LinearFits(i) ==> LinearExact(i, LinearFrom(i, level, PackedBytes(i, level), mips))
    decreases i.mipCount - level
  {
    hide BuildMip, ExactMip, PitchesFit;
    var total := PackedBytes(i, level);
    if level < i.mipCount {
      BuildMipExact(i, level, total);
      SameCount(i, level, total);
      PackedMonotone(i, level + 1, i.mipCount);
      if BuildMip(i, level, total).Fine? {
        LinearFromExact(i, level + 1, mips[level := BuildMip(i, level, total).mip]);
      } else {
        BadIsNoSuccess(i, level, total);
      }
    }
  }

  lemma SameCount(i: Input, level: nat, offset: nat)
    ensures ExactMip(i, level, offset).byteCount == ExactMip(i, level, 0).byteCount
  {
  }

  lemma BadIsNoSuccess(i: Input, level: nat, total: nat)
    requires CheckArguments(i) == Success && total <= MAX_BYTES && BuildMip(i, level, total).Bad?
    ensures BuildMip(i, level, total).status != Success
  {
    DimensionBound(i.width, level);
    DimensionBound(i.height, level);
    DimensionBound(i.depth, level);
  }

  /**
   * A linear image has a layout exactly when its pitches are possible, its
   * true size is at most 512 MiB and its last byte has a 64-bit address.  The
   * layout is then the one unbounded arithmetic gives.
   */
  lemma LinearLayoutExact(i: Input)
    requires i.tileMode == LINEAR
    ensures GuestLayout(i).status == Success <==> CheckArguments(i) == Success && LinearFits(i)
    ensures GuestLayout(i).status == Success ==> LinearExact(i, GuestLayout(i))
  {
    hide BuildMip, ExactMip, PitchesFit;
    if CheckArguments(i) == Success {
      LinearFromExact(i, 0, seq(MAX_MIPS, _ => NO_MIP));
    }
  }

  // ------------------------------------------------------------- the cells

  datatype Cell = Cell(level: nat, layer: nat, slice: nat, row: nat, column: nat)

  predicate HasCell(i: Input, r: Layout, c: Cell) {
    && c.level < i.mipCount <= |r.mips| && c.layer < LevelLayers(i)
    && c.slice < r.mips[c.level].depth && c.row < r.mips[c.level].blockHeight && c.column < r.mips[c.level].blockWidth
  }

  function InSlice(m: Mip, unit: nat, c: Cell): nat { c.row * m.rowBytes + c.column * unit }
  function InLayer(m: Mip, unit: nat, c: Cell): nat { c.slice * m.sliceBytes + InSlice(m, unit, c) }
  function InLevel(m: Mip, unit: nat, c: Cell): nat { c.layer * m.layerBytes + InLayer(m, unit, c) }

  function CellAddress(i: Input, r: Layout, c: Cell): nat
    requires HasCell(i, r, c)
  {
    r.mips[c.level].byteOffset + InLevel(r.mips[c.level], Unit(i), c)
  }

  /** `low` bytes into entry `d` of `n` entries still leaves the unit inside the table. */
  lemma DigitFits(d: nat, n: nat, stride: nat, low: nat, unit: nat)
    requires d < n && low + unit <= stride
    ensures d * stride + low + unit <= n * stride
  {
    MulMono(d + 1, n, stride);
    assert (d + 1) * stride == d * stride + stride;
  }

  /** Each nesting level has room for what it holds. */
  predicate Roomy(i: Input, m: Mip) {
    && m.blockWidth * Unit(i) <= m.rowBytes
    && m.rowBytes * m.blockHeight <= m.sliceBytes
    && m.sliceBytes * m.depth <= m.layerBytes
    && m.layerBytes * LevelLayers(i) <= m.byteCount
  }

  lemma RoomInLevel(i: Input, m: Mip, c: Cell)
    requires Roomy(i, m)
    requires c.layer < LevelLayers(i) && c.slice < m.depth && c.row < m.blockHeight && c.column < m.blockWidth
    ensures c.column * Unit(i) + Unit(i) <= m.rowBytes
    ensures InSlice(m, Unit(i), c) + Unit(i) <= m.sliceBytes
    ensures InLayer(m, Unit(i), c) + Unit(i) <= m.layerBytes
    ensures InLevel(m, Unit(i), c) + Unit(i) <= m.byteCount
  {
    hide Unit, LevelLayers;
    var u := Unit(i);
    DigitFits(c.column, m.blockWidth, u, 0, u);
    DigitFits(c.row, m.blockHeight, m.rowBytes, c.column * u, u);
    DigitFits(c.slice, m.depth, m.sliceBytes, InSlice(m, u, c), u);
    DigitFits(c.layer, LevelLayers(i), m.layerBytes, InLayer(m, u, c), u);
  }

  predicate Before(c: Cell, d: Cell) {
    || c.level < d.level
    || (c.level == d.level && (c.layer < d.layer
      || (c.layer == d.layer && (c.slice < d.slice
        || (c.slice == d.slice && (c.row < d.row || (c.row == d.row && c.column < d.column)))))))
  }

  /** An earlier entry ends before a later one starts. */
  lemma DigitOrder(d: nat, d': nat, stride: nat, low: nat, low': nat, unit: nat)
    requires low + unit <= stride
    requires d < d' || (d == d' && low + unit <= low')
    ensures d * stride + low + unit <= d' * stride + low'
  {
    if d < d' {
      DigitFits(d, d', stride, low, unit);
    }
  }

  lemma ExactIsRoomy(i: Input, level: nat, offset: nat)
    requires PitchesFit(i, level)
    ensures Roomy(i, ExactMip(i, level, offset))
  {
  }

  lemma OrderInLevel(i: Input, m: Mip, c: Cell, d: Cell)
    requires Roomy(i, m) && c.level == d.level && Before(c, d)
    requires c.layer < LevelLayers(i) && c.slice < m.depth && c.row < m.blockHeight && c.column < m.blockWidth
    ensures InLevel(m, Unit(i), c) + Unit(i) <= InLevel(m, Unit(i), d)
  {
    hide Roomy, Unit, InSlice, InLayer, InLevel;
    RoomInLevel(i, m, c);
    var u := Unit(i);
    if c.layer == d.layer {
      if c.slice == d.slice {
        OrderInSlice(m, u, c, d);
      }
      OrderInLayer(m, u, c, d);
    }
    OrderOfLayers(m, u, c, d);
  }

  lemma OrderInSlice(m: Mip, u: nat, c: Cell, d: Cell)
    requires c.row < d.row || (c.row == d.row && c.column < d.column)
    requires c.column * u + u <= m.rowBytes
    ensures InSlice(m, u, c) + u <= InSlice(m, u, d)
  {
    if c.row == d.row {
      DigitFits(c.column, d.column, u, 0, u);
    }
    DigitOrder(c.row, d.row, m.rowBytes, c.column * u, d.column * u, u);
  }

  lemma OrderInLayer(m: Mip, u: nat, c: Cell, d: Cell)
    requires c.slice < d.slice || (c.slice == d.slice && InSlice(m, u, c) + u <= InSlice(m, u, d))
    requires InSlice(m, u, c) + u <= m.sliceBytes
    ensures InLayer(m, u, c) + u <= InLayer(m, u, d)
  {
    hide InSlice;
    DigitOrder(c.slice, d.slice, m.sliceBytes, InSlice(m, u, c), InSlice(m, u, d), u);
  }

  lemma OrderOfLayers(m: Mip, u: nat, c: Cell, d: Cell)
    requires c.layer < d.layer || (c.layer == d.layer && InLayer(m, u, c) + u <= InLayer(m, u, d))
    requires InLayer(m, u, c) + u <= m.layerBytes
    ensures InLevel(m, u, c) + u <= InLevel(m, u, d)
  {
    hide InLayer;
    DigitOrder(c.layer, d.layer, m.layerBytes, InLayer(m, u, c), InLayer(m, u, d), u);
  }

  lemma CellInside(i: Input, r: Layout, c: Cell)
    requires LinearFits(i) && LinearExact(i, r) && HasCell(i, r, c)
    ensures PackedBytes(i, c.level) <= CellAddress(i, r, c)
    ensures CellAddress(i, r, c) + Unit(i) <= PackedBytes(i, c.level + 1) <= r.totalBytes
    ensures Roomy(i, r.mips[c.level])
  {
    hide ExactMip, PitchesFit, Roomy, Unit, InLevel;
    assert PitchesFit(i, c.level);
    assert r.mips[c.level] == ExactMip(i, c.level, PackedBytes(i, c.level));
    ExactIsRoomy(i, c.level, PackedBytes(i, c.level));
    SameCount(i, c.level, PackedBytes(i, c.level));
    ExactOffset(i, c.level, PackedBytes(i, c.level));
    RoomInLevel(i, r.mips[c.level], c);
    PackedMonotone(i, c.level + 1, i.mipCount);
  }

  lemma ExactOffset(i: Input, level: nat, offset: nat)
    ensures ExactMip(i, level, offset).byteOffset == offset
  {
  }

  /** Distinct cells of a linear image own disjoint bytes, all inside the image. */
  lemma CellsDisjoint(i: Input, c: Cell, d: Cell)
    requires i.tileMode == LINEAR && GuestLayout(i).status == Success
    requires HasCell(i, GuestLayout(i), c) && HasCell(i, GuestLayout(i), d) && c != d
    ensures var r := GuestLayout(i);
      && CellAddress(i, r, c) + Unit(i) <= r.totalBytes <= MAX_BYTES
      && i.address + r.totalBytes < TWO64
      && (CellAddress(i, r, c) + Unit(i) <= CellAddress(i, r, d) || CellAddress(i, r, d) + Unit(i) <= CellAddress(i, r, c))
  {
    hide ExactMip, PitchesFit, Roomy, Unit, InLevel, GuestLayout, CheckArguments;
    LinearLayoutExact(i);
    var r := GuestLayout(i);
    CellInside(i, r, c);
    CellInside(i, r, d);
    if c.level < d.level {
      PackedMonotone(i, c.level + 1, d.level);
    } else if d.level < c.level {
      PackedMonotone(i, d.level + 1, c.level);
    } else if Before(c, d) {
      OrderInLevel(i, r.mips[c.level], c, d);
    } else {
      OrderInLevel(i, r.mips[c.level], d, c);
    }
  }
}
