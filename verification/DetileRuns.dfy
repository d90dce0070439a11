/** What the swizzle means for a whole image: where each texel lies, bit by bit, and which runs
    of a row are copied as they stand. */
module DetileRuns {
  import opened Arith
  import opened Words
  import opened TileSwizzle
  import S = SwizzleBits
  import opened Detile
  import Formats
  import TileTail
  import M = TileMips
  import L = ImageLayout

  /** Blocks follow each other row by row; inside a block every offset bit is the XOR of the
      coordinate bits its source names. */
  lemma TiledPosition(p: Plan, x: nat, y: nat, k: nat)
    requires ElementSize(p.bytes) && k < 16
    ensures TiledAt(p, x, y) / 0x1_0000 == y / BlockHeight(p.bytes) * p.columns + x / BlockWidth(p.bytes)
    ensures var s := S.Sources(p.bytes)[k];
      Bit(TiledAt(p, x, y) % 0x1_0000, k) == 1 <==> S.Chosen(x, s.x) != S.Chosen(y, s.y)
  {
    hide InBlock, Bit, S.Sources, S.Chosen;
    S.TexelBit(p.bytes, x, y, k);
    DivModUnique(TiledAt(p, x, y), BLOCK, BlockIndex(p, x, y), Inside(p, x, y));
  }

  /** Runs do not straddle blocks, whose width is a multiple of theirs. */
  lemma SameQuotient(x: nat, p: nat, n: nat, i: nat)
    requires p > 0 && n > 0 && x % p == 0 && i < p
    ensures p * n > 0 && (x + i) / (p * n) == x / (p * n)
  {
    ModOfMod(x, p, n);
    var w := p * n;
    var c := x % w / p;
    assert x % w == c * p;
    if c >= n { MulMono(n, c, p); }
    MulMono(c + 1, n, p);
    DivModUnique(x + i, w, x / w, x % w + i);
  }

  lemma SameColumn(bytes: nat, x: nat, i: nat)
    requires ElementSize(bytes) && x % Pow2(S.RunLog(bytes)) == 0 && i < Pow2(S.RunLog(bytes))
    ensures (x + i) / BlockWidth(bytes) == x / BlockWidth(bytes)
  {
    hide Pow2, BlockWidth, S.RunLog;
    var r, a := S.RunLog(bytes), WidthLog(bytes);
    S.Pow2Sum(r, a - r);
    SameQuotient(x, Pow2(r), Pow2(a - r), i);
  }

  lemma TiledRun(p: Plan, x: nat, y: nat, i: nat)
    requires ElementSize(p.bytes) && x % Pow2(S.RunLog(p.bytes)) == 0 && i < Pow2(S.RunLog(p.bytes))
    ensures TiledAt(p, x + i, y) == TiledAt(p, x, y) + i * p.bytes
  {
    hide InBlock, Pow2, S.RunLog;
    S.RunTogether(p.bytes, x, y, i);
    SameColumn(p.bytes, x, i);
  }

  lemma LinearRun(p: Plan, x: nat, y: nat, k: nat)
    requires p.bytes > 0
    ensures k == k / p.bytes * p.bytes + k % p.bytes
    ensures LinearAt(p, x + k / p.bytes, y) + k % p.bytes == LinearAt(p, x, y) + k
  {
    var i := k / p.bytes;
    assert (x + i) * p.bytes == x * p.bytes + i * p.bytes;
  }

  /** A run of texels along a row is copied byte by byte from consecutive tiled bytes. */
  lemma DetiledRun(p: Plan, tiled: seq<byte>, before: seq<byte>, x: nat, y: nat, n: nat, k: nat)
    requires PlanOk(p, |tiled|, |before|) && y < p.height && x + n <= p.width && k < n * p.bytes
    requires x % Pow2(S.RunLog(p.bytes)) == 0 && n <= Pow2(S.RunLog(p.bytes))
    ensures LinearAt(p, x, y) + k < |before| && TiledAt(p, x, y) + k < |tiled|
    ensures Detiled(p, tiled, before)[LinearAt(p, x, y) + k] == tiled[TiledAt(p, x, y) + k]
  {
    hide TiledAt, Pow2, S.RunLog, PlanOk;
    PlanUsable(p, |tiled|, |before|);
    RowsPositive(p, |tiled|, |before|);
    var i, b := k / p.bytes, k % p.bytes;
    QuotientBelow(k, n, p.bytes);
    TiledRun(p, x, y, i);
    LinearRun(p, x, y, k);
    LinearDecodes(p, x + i, y, b, |tiled|, |before|);
    ActiveElement(p, LinearAt(p, x, y) + k, |tiled|, |before|);
  }

  // ---------------------------------------------------------- render targets

  ghost function TargetRow(i: L.Input): nat
    requires ElementSize(Formats.NumBytesPerElement(i.format))
  {
    M.AlignUp(i.width, BlockWidth(Formats.NumBytesPerElement(i.format))) * Formats.NumBytesPerElement(i.format)
  }

  ghost function TargetTiled(i: L.Input): nat
    requires ElementSize(Formats.NumBytesPerElement(i.format))
  {
    var bytes := Formats.NumBytesPerElement(i.format);
    TileTail.CeilDiv(i.height, BlockHeight(bytes)) * (TileTail.CeilDiv(i.width, BlockWidth(bytes)) * 0x1_0000)
  }

  lemma TargetBytesExactly(i: L.Input)
    requires L.RenderTargetShape(i) && i.width > 0 && i.height > 0
    ensures ElementSize(Formats.NumBytesPerElement(i.format))
    ensures L.TargetBytes(i) ==
      if i.width <= 16384 && i.height <= 16384 && i.width * i.height * Formats.NumBytesPerElement(i.format) < TWO32
         && TargetTiled(i) < TWO32 then Some(TargetTiled(i)) else None
  {
    TargetBlock(i);
    if i.width <= 16384 && i.height <= 16384 {
      TargetBytesAre(i);
      NoBlocks(i);
      hide L.RenderTargetShape, M.TextureBlock, BlockWidth, BlockHeight, TileTail.CeilDiv, L.TargetChain, Formats.NumBytesPerElement;
    }
  }

  lemma NoBlocks(i: L.Input)
    requires L.RenderTargetShape(i)
    ensures M.SizeInRange(i.format, i.width, i.height) <==> i.width * i.height * Formats.NumBytesPerElement(i.format) < TWO32
  {
    hide TileTail.CeilDiv;
  }

  lemma SizedExactly(i: L.Input, pitch: u64, size: u64)
    requires i.height > 0
    ensures var bytes := Formats.NumBytesPerElement(i.format);
      var l, staging := L.SizedTarget(i, pitch, size), pitch * bytes * i.height;
      && (l.status == L.Success <==>
            staging <= 0x2000_0000 && size <= 0x2000_0000 && i.address + staging < TWO64 && i.address + size < TWO64)
      && (l.status == L.Success ==>
            && l.mips[0].width == i.width && l.mips[0].height == i.height && l.mips[0].rowBytes == pitch * bytes
            && l.totalBytes == staging && l.storageBytes == size && l.key.address == i.address)
  {
    hide Formats.NumBytesPerElement, Formats.StorageAlias;
    var bytes := Formats.NumBytesPerElement(i.format);
    MulMono(1, i.height, pitch * bytes);
  }

  /** A render target of supported shape has a layout exactly when it is within 16384 texels each
      way, its sizes fit their words and half a gigabyte, and its end is an address. */
  lemma TargetExactly(i: L.Input)
    requires L.CheckArguments(i) == L.Success && L.RenderTargetShape(i)
    ensures ElementSize(Formats.NumBytesPerElement(i.format))
    ensures var l, row, tiled := L.GuestLayout(i), TargetRow(i), TargetTiled(i);
      && (l.status == L.Success <==>
            && i.width <= 16384 && i.height <= 16384
            && i.width * i.height * Formats.NumBytesPerElement(i.format) < TWO32 && tiled < TWO32
            && row * i.height <= 0x2000_0000 && tiled <= 0x2000_0000
            && i.address + row * i.height < TWO64 && i.address + tiled < TWO64)
      && (l.status == L.Success ==>
            && l.mips[0].width == i.width && l.mips[0].height == i.height && l.mips[0].rowBytes == row
            && l.totalBytes == row * i.height && l.storageBytes == tiled && l.key.address == i.address)
  {
    TargetBytesExactly(i);
    TargetBlock(i);
    Positive(i);
    hide L.CheckArguments, M.TextureBlock, BlockWidth, BlockHeight, M.AlignUp, L.TargetBytes, L.SizedTarget, TargetTiled,
         Formats.NumBytesPerElement;
    var size := L.TargetBytes(i);
    if size.Some? {
      assert L.RenderTargetPitch(i.format, i.width).Some?;
      SizedExactly(i, L.RenderTargetPitch(i.format, i.width).value, size.value);
    }
  }

  lemma Positive(i: L.Input)
    requires L.CheckArguments(i) == L.Success
    ensures i.width > 0 && i.height > 0
  {
    hide Formats.StorageAlias, Formats.NumBytesPerElement;
  }

  /** A layout of a render target is detiled exactly between buffers of its two sizes that do not
      overlap; the sizes are looked at first. */
  lemma PlansExactly(l: L.Layout, bytes: nat, tiledSize: nat, linearSize: nat, overlap: bool)
    requires TargetLayout(l, bytes)
    ensures var r := MakePlan(l, tiledSize, linearSize, overlap);
      if tiledSize != l.storageBytes || linearSize != l.totalBytes then r == Refused(SizeMismatch)
      else if overlap then r == Refused(InvalidArgument)
      else r == Ready(Plan(bytes, TileTail.CeilDiv(l.mips[0].width, BlockWidth(bytes)),
                           TileTail.CeilDiv(l.mips[0].height, BlockHeight(bytes)), l.mips[0].rowBytes,
                           l.mips[0].width, l.mips[0].height))
  {
    hide PlanBlocks, BlockWidth, BlockHeight, TileTail.CeilDiv, M.AlignUp, Formats.NumBytesPerElement;
    TargetAccepted(l, bytes);
    TargetPlan(l, bytes);
  }

  lemma TargetPlan(l: L.Layout, bytes: nat)
    requires TargetLayout(l, bytes) && PlanBlocks(l, bytes).Ready?
    ensures PlanBlocks(l, bytes) == Ready(Plan(bytes, TileTail.CeilDiv(l.mips[0].width, BlockWidth(bytes)),
                           TileTail.CeilDiv(l.mips[0].height, BlockHeight(bytes)), l.mips[0].rowBytes,
                           l.mips[0].width, l.mips[0].height))
  {
    hide BlockWidth, BlockHeight, TileTail.CeilDiv, Formats.NumBytesPerElement;
    var m := l.mips[0];
    var w := BlockWidth(bytes);
    var across, down := TileTail.CeilDiv(m.width, w), TileTail.CeilDiv(m.height, BlockHeight(bytes));
    DivModUnique(m.rowBytes, bytes, across * w, 0);
    DivModUnique(across * w, w, across, 0);
    TileTail.CeilLeast(m.width, w, 0);
    MulMono(1, across, BLOCK);
    DivModUnique(l.storageBytes, across * BLOCK, down, 0);
  }
}
