/** Where the small levels of a tiled mip chain sit inside their shared tail block. */
module TileTail {
  import opened Arith

  datatype Location = At(x: nat, y: nat)

  /** Which location table a block uses: thin or thick, 4 KiB or 64 KiB. */
  datatype Tail = Thin4 | Thin64 | Thick64 | Thick4

  function MaxTail(t: Tail): nat {
    match t
    case Thin4 => 8
    case Thin64 => 12
    case Thick64 => 10
    case Thick4 => 5
  }

  function TailLocation(t: Tail, sizeLog: nat, index: nat): Location
    requires sizeLog < 5 && index < MaxTail(t)
  {
    match t
    case Thin4 => Thin4Location(sizeLog, index)
    case Thin64 => Thin64Location(sizeLog, index)
    case Thick64 => Thick64Location(sizeLog, index)
    case Thick4 => Thick4Location(sizeLog, index)
  }

  function Thin4Location(sizeLog: nat, index: nat): Location
    requires sizeLog < 5 && index < 8
  {
    match sizeLog
    case 0 => (
      match index
      case 0 => At(32, 0)
      case 1 => At(16, 32)
      case 2 => At(0, 48)
      case 3 => At(0, 32)
      case 4 => At(16, 16)
      case 5 => At(16, 0)
      case 6 => At(0, 16)
      case _ => At(0, 0))
    case 1 => (
      match index
      case 0 => At(32, 0)
      case 1 => At(16, 16)
      case 2 => At(0, 24)
      case 3 => At(0, 16)
      case 4 => At(16, 8)
      case 5 => At(16, 0)
      case 6 => At(0, 8)
      case _ => At(0, 0))
    case 2 => (
      match index
      case 0 => At(16, 0)
      case 1 => At(8, 16)
      case 2 => At(0, 24)
      case 3 => At(0, 16)
      case 4 => At(8, 8)
      case 5 => At(8, 0)
      case 6 => At(0, 8)
      case _ => At(0, 0))
    case 3 => (
      match index
      case 0 => At(16, 0)
      case 1 => At(8, 8)
      case 2 => At(0, 12)
      case 3 => At(0, 8)
      case 4 => At(8, 4)
      case 5 => At(8, 0)
      case 6 => At(0, 4)
      case _ => At(0, 0))
    case _ => (
      match index
      case 0 => At(8, 0)
      case 1 => At(4, 8)
      case 2 => At(0, 12)
      case 3 => At(0, 8)
      case 4 => At(4, 4)
      case 5 => At(4, 0)
      case 6 => At(0, 4)
      case _ => At(0, 0))
  }

  function Thin64Location(sizeLog: nat, index: nat): Location
    requires sizeLog < 5 && index < 12
  {
    match sizeLog
    case 0 => (
      match index
      case 0 => At(128, 0)
      case 1 => At(0, 128)
      case 2 => At(64, 0)
      case 3 => At(0, 64)
      case 4 => At(32, 0)
      case 5 => At(16, 32)
      case 6 => At(0, 48)
      case 7 => At(0, 32)
      case 8 => At(16, 16)
      case 9 => At(16, 0)
      case 10 => At(0, 16)
      case _ => At(0, 0))
    case 1 => (
      match index
      case 0 => At(128, 0)
      case 1 => At(0, 64)
      case 2 => At(64, 0)
      case 3 => At(0, 32)
      case 4 => At(32, 0)
      case 5 => At(16, 16)
      case 6 => At(0, 24)
      case 7 => At(0, 16)
      case 8 => At(16, 8)
      case 9 => At(16, 0)
      case 10 => At(0, 8)
      case _ => At(0, 0))
    case 2 => (
      match index
      case 0 => At(64, 0)
      case 1 => At(0, 64)
      case 2 => At(32, 0)
      case 3 => At(0, 32)
      case 4 => At(16, 0)
      case 5 => At(8, 16)
      case 6 => At(0, 24)
      case 7 => At(0, 16)
      case 8 => At(8, 8)
      case 9 => At(8, 0)
      case 10 => At(0, 8)
      case _ => At(0, 0))
    case 3 => (
      match index
      case 0 => At(64, 0)
      case 1 => At(0, 32)
      case 2 => At(32, 0)
      case 3 => At(0, 16)
      case 4 => At(16, 0)
      case 5 => At(8, 8)
      case 6 => At(0, 12)
      case 7 => At(0, 8)
      case 8 => At(8, 4)
      case 9 => At(8, 0)
      case 10 => At(0, 4)
      case _ => At(0, 0))
    case _ => (
      match index
      case 0 => At(32, 0)
      case 1 => At(0, 32)
      case 2 => At(16, 0)
      case 3 => At(0, 16)
      case 4 => At(8, 0)
      case 5 => At(4, 8)
      case 6 => At(0, 12)
      case 7 => At(0, 8)
      case 8 => At(4, 4)
      case 9 => At(4, 0)
      case 10 => At(0, 4)
      case _ => At(0, 0))
  }

  function Thick64Location(sizeLog: nat, index: nat): Location
    requires sizeLog < 5 && index < 10
  {
    match sizeLog
    case 0 => (
      match index
      case 0 => At(32, 0)
      case 1 => At(0, 16)
      case 2 => At(16, 0)
      case 3 => At(8, 8)
      case 4 => At(0, 12)
      case 5 => At(0, 8)
      case 6 => At(8, 4)
      case 7 => At(8, 0)
      case 8 => At(0, 4)
      case _ => At(0, 0))
    case 1 => (
      match index
      case 0 => At(16, 0)
      case 1 => At(0, 16)
      case 2 => At(8, 0)
      case 3 => At(4, 8)
      case 4 => At(0, 12)
      case 5 => At(0, 8)
      case 6 => At(4, 4)
      case 7 => At(4, 0)
      case 8 => At(0, 4)
      case _ => At(0, 0))
    case 2 => (
      match index
      case 0 => At(16, 0)
      case 1 => At(0, 16)
      case 2 => At(8, 0)
      case 3 => At(4, 8)
      case 4 => At(0, 12)
      case 5 => At(0, 8)
      case 6 => At(4, 4)
      case 7 => At(4, 0)
      case 8 => At(0, 4)
      case _ => At(0, 0))
    case 3 => (
      match index
      case 0 => At(16, 0)
      case 1 => At(0, 8)
      case 2 => At(8, 0)
      case 3 => At(4, 4)
      case 4 => At(0, 6)
      case 5 => At(0, 4)
      case 6 => At(4, 2)
      case 7 => At(4, 0)
      case 8 => At(0, 2)
      case _ => At(0, 0))
    case _ => (
      match index
      case 0 => At(8, 0)
      case 1 => At(0, 8)
      case 2 => At(4, 0)
      case 3 => At(2, 4)
      case 4 => At(0, 6)
      case 5 => At(0, 4)
      case 6 => At(2, 2)
      case 7 => At(2, 0)
      case 8 => At(0, 2)
      case _ => At(0, 0))
  }

  function Thick4Location(sizeLog: nat, index: nat): Location
    requires sizeLog < 5 && index < 5
  {
    match sizeLog
    case 0 => (
      match index
      case 0 => At(0, 8)
      case 1 => At(8, 4)
      case 2 => At(8, 0)
      case 3 => At(0, 4)
      case _ => At(0, 0))
    case 1 => (
      match index
      case 0 => At(0, 8)
      case 1 => At(4, 4)
      case 2 => At(4, 0)
      case 3 => At(0, 4)
      case _ => At(0, 0))
    case 2 => (
      match index
      case 0 => At(0, 8)
      case 1 => At(4, 4)
      case 2 => At(4, 0)
      case 3 => At(0, 4)
      case _ => At(0, 0))
    case 3 => (
      match index
      case 0 => At(0, 4)
      case 1 => At(4, 2)
      case 2 => At(4, 0)
      case 3 => At(0, 2)
      case _ => At(0, 0))
    case _ => (
      match index
      case 0 => At(0, 4)
      case 1 => At(2, 2)
      case 2 => At(2, 0)
      case 3 => At(0, 2)
      case _ => At(0, 0))
  }

  // ------------------------------------------------------------- dimensions

  /** Width of the block, in elements. */
  function BlockWidth(t: Tail, sizeLog: nat): nat
    requires sizeLog < 5
  {
    match t
    case Thin4 => if sizeLog <= 1 then 64 else if sizeLog <= 3 then 32 else 16
    case Thin64 => if sizeLog <= 1 then 256 else if sizeLog <= 3 then 128 else 64
    case Thick64 => if sizeLog == 0 then 64 else if sizeLog <= 3 then 32 else 16
    case Thick4 => if sizeLog == 0 then 16 else if sizeLog <= 3 then 8 else 4
  }

  function BlockHeight(t: Tail, sizeLog: nat): nat
    requires sizeLog < 5
  {
    match t
    case Thin4 => if sizeLog == 0 then 64 else if sizeLog <= 2 then 32 else 16
    case Thin64 => if sizeLog == 0 then 256 else if sizeLog <= 2 then 128 else 64
    case Thick64 => if sizeLog <= 2 then 32 else 16
    case Thick4 => if sizeLog <= 2 then 16 else 8
  }

  // ------------------------------------------------------- the shape of a tail

  /** Cells of the block in each direction; a thin cell holds 256 bytes. */
  function CellsAcross(t: Tail): (r: nat)
    ensures r > 0
  {
    match t case Thin4 => 4 case Thin64 => 16 case Thick64 => 8 case Thick4 => 2
  }

  function CellsDown(t: Tail): (r: nat)
    ensures r > 0
  {
    match t case Thin4 => 4 case Thin64 => 16 case Thick64 => 8 case Thick4 => 4
  }

  /** Place `p` of a tail, counted from its end, in cells of `ux` by `uy` elements: the last seven
      places are single cells, down before across; from there the places alternate between the
      next power of two across and the next one down. */
  function Place(p: nat, ux: nat, uy: nat): Location {
    if p < 7 then At(ux * (p / 2 % 2), uy * (p % 2 + p / 4 * 2))
    else if p % 2 == 1 then At(ux * Pow2((p - 5) / 2), 0)
    else At(0, uy * Pow2((p - 4) / 2))
  }

  /** All four location tables are one rule, scaled to the block. */
  lemma TailFollowsRule(t: Tail, sizeLog: nat, index: nat)
    requires sizeLog < 5 && index < MaxTail(t)
    ensures TailLocation(t, sizeLog, index) ==
      Place(MaxTail(t) - 1 - index, BlockWidth(t, sizeLog) / CellsAcross(t), BlockHeight(t, sizeLog) / CellsDown(t))
  {
    hide Place;
    Unrolls(MaxTail(t) - 1 - index, BlockWidth(t, sizeLog) / CellsAcross(t), BlockHeight(t, sizeLog) / CellsDown(t));
    match t {
      case Thin4 =>
      case Thin64 =>
      case Thick64 =>
      case Thick4 =>
    }
  }

  /** The first twelve places, written out. */
  function Unrolled(p: nat, ux: nat, uy: nat): Location {
    match p
    case 0 => At(0, 0)
    case 1 => At(0, uy)
    case 2 => At(ux, 0)
    case 3 => At(ux, uy)
    case 4 => At(0, 2 * uy)
    case 5 => At(0, 3 * uy)
    case 6 => At(ux, 2 * uy)
    case 7 => At(2 * ux, 0)
    case 8 => At(0, 4 * uy)
    case 9 => At(4 * ux, 0)
    case 10 => At(0, 8 * uy)
    case _ => At(8 * ux, 0)
  }

  lemma Unrolls(p: nat, ux: nat, uy: nat)
    requires p < 12
    ensures Place(p, ux, uy) == Unrolled(p, ux, uy)
  {
    assert Pow2(1) == 2 && Pow2(2) == 4 && Pow2(3) == 8;
  }

  /** The largest level that may start a tail: half a block. */
  function TailWidth(t: Tail, sizeLog: nat): nat
    requires sizeLog < 5
  {
    if t == Thick4 then BlockWidth(t, sizeLog) else BlockWidth(t, sizeLog) / 2
  }

  function TailHeight(t: Tail, sizeLog: nat): nat
    requires sizeLog < 5
  {
    if t == Thick4 then BlockHeight(t, sizeLog) / 2 else BlockHeight(t, sizeLog)
  }

  /** Division rounding up. */
  function CeilDiv(value: nat, p: nat): nat
    requires p > 0
  {
    (value + p - 1) / p
  }

  function ShiftCeil(value: nat, shift: nat): nat { CeilDiv(value, Pow2(shift)) }

  // ------------------------------------------------------------- separation

  /** `ShiftCeil` for the small values a tail can hold, without the power. */
  function Shrunk(d: nat, i: nat): nat {
    match i
    case 0 => d
    case 1 => (d + 1) / 2
    case 2 => (d + 3) / 4
    case 3 => (d + 7) / 8
    case 4 => (d + 15) / 16
    case 5 => (d + 31) / 32
    case 6 => (d + 63) / 64
    case 7 => (d + 127) / 128
    case _ => (d + 255) / 256
  }

  predicate Apart(x: nat, y: nat, w: nat, h: nat, x': nat, y': nat, w': nat, h': nat) {
    x + w <= x' || x' + w' <= x || y + h <= y' || y' + h' <= y
  }

  predicate PairApart(t: Tail, s: nat, i: nat, j: nat)
    requires s < 5 && i < MaxTail(t) && j < MaxTail(t)
  {
    var a, b, w, h := TailLocation(t, s, i), TailLocation(t, s, j), TailWidth(t, s), TailHeight(t, s);
    Apart(a.x, a.y, Shrunk(w, i), Shrunk(h, i), b.x, b.y, Shrunk(w, j), Shrunk(h, j))
  }

  predicate Fits(t: Tail, s: nat, i: nat)
    requires s < 5 && i < MaxTail(t)
  {
    var a := TailLocation(t, s, i);
    a.x + Shrunk(TailWidth(t, s), i) <= BlockWidth(t, s) && a.y + Shrunk(TailHeight(t, s), i) <= BlockHeight(t, s)
  }

  /** Both levels lie inside the block and do not overlap. */
  predicate Placed(t: Tail, s: nat, i: nat, j: nat)
    requires s < 5 && i < MaxTail(t) && j < MaxTail(t)
  {
    PairApart(t, s, i, j) && Fits(t, s, i) && Fits(t, s, j)
  }

  lemma Thin4Of1(i: nat, j: nat)
    requires i < j < 8
    ensures Placed(Thin4, 0, i, j)
  {
  }

  lemma Thin4Of2(i: nat, j: nat)
    requires i < j < 8
    ensures Placed(Thin4, 1, i, j)
  {
  }

  lemma Thin4Of4(i: nat, j: nat)
    requires i < j < 8
    ensures Placed(Thin4, 2, i, j)
  {
  }

  lemma Thin4Of8(i: nat, j: nat)
    requires i < j < 8
    ensures Placed(Thin4, 3, i, j)
  {
  }

  lemma Thin4Of16(i: nat, j: nat)
    requires i < j < 8
    ensures Placed(Thin4, 4, i, j)
  {
  }

  lemma Thin64Of1(i: nat, j: nat)
    requires i < j < 12
    ensures Placed(Thin64, 0, i, j)
  {
  }

  lemma Thin64Of2(i: nat, j: nat)
    requires i < j < 12
    ensures Placed(Thin64, 1, i, j)
  {
  }

  lemma Thin64Of4(i: nat, j: nat)
    requires i < j < 12
    ensures Placed(Thin64, 2, i, j)
  {
  }

  lemma Thin64Of8(i: nat, j: nat)
    requires i < j < 12
    ensures Placed(Thin64, 3, i, j)
  {
  }

  lemma Thin64Of16(i: nat, j: nat)
    requires i < j < 12
    ensures Placed(Thin64, 4, i, j)
  {
  }

  lemma Thick64Of1(i: nat, j: nat)
    requires i < j < 10
    ensures Placed(Thick64, 0, i, j)
  {
  }

  lemma Thick64Of2(i: nat, j: nat)
    requires i < j < 10
    ensures Placed(Thick64, 1, i, j)
  {
  }

  lemma Thick64Of4(i: nat, j: nat)
    requires i < j < 10
    ensures Placed(Thick64, 2, i, j)
  {
  }

  lemma Thick64Of8(i: nat, j: nat)
    requires i < j < 10
    ensures Placed(Thick64, 3, i, j)
  {
  }

  lemma Thick64Of16(i: nat, j: nat)
    requires i < j < 10
    ensures Placed(Thick64, 4, i, j)
  {
  }

  lemma Thick4Placed(s: nat, i: nat, j: nat)
    requires s < 5 && i < j < 5
    ensures Placed(Thick4, s, i, j)
  {
  }

  /** Every table keeps its levels apart and inside the block. */
  lemma TablePlaced(t: Tail, s: nat, i: nat, j: nat)
    requires s < 5 && i < j < MaxTail(t)
    ensures Placed(t, s, i, j)
  {
    hide Placed;
    match t
    case Thin4 =>
      if s == 0 { Thin4Of1(i, j); } else if s == 1 { Thin4Of2(i, j); } else if s == 2 { Thin4Of4(i, j); } else if s == 3 { Thin4Of8(i, j); } else { Thin4Of16(i, j); }
    case Thin64 =>
      if s == 0 { Thin64Of1(i, j); } else if s == 1 { Thin64Of2(i, j); } else if s == 2 { Thin64Of4(i, j); } else if s == 3 { Thin64Of8(i, j); } else { Thin64Of16(i, j); }
    case Thick64 =>
      if s == 0 { Thick64Of1(i, j); } else if s == 1 { Thick64Of2(i, j); } else if s == 2 { Thick64Of4(i, j); } else if s == 3 { Thick64Of8(i, j); } else { Thick64Of16(i, j); }
    case Thick4 => Thick4Placed(s, i, j);
  }

  // ---------------------------------------------------------- rounding up

  /** Rounding up is the least multiple count that covers the value. */
  lemma CeilLeast(value: nat, p: nat, c: nat)
    requires p > 0
    ensures CeilDiv(value, p) <= c <==> value <= c * p
  {
    var q, r := (value + p - 1) / p, (value + p - 1) % p;
    assert value + p - 1 == q * p + r;
    if q <= c {
      MulMono(q, c, p);
    } else {
      MulMono(c + 1, q, p);
      assert (c + 1) * p == c * p + p;
    }
  }

  lemma {:induction false} Pow2Add(a: nat, b: nat)
    ensures Pow2(a + b) == Pow2(a) * Pow2(b)
    decreases b
  {
    if b > 0 {
      Pow2Add(a, b - 1);
      assert Pow2(a + b) == 2 * Pow2(a + b - 1);
      assert Pow2(a) * (2 * Pow2(b - 1)) == 2 * (Pow2(a) * Pow2(b - 1));
    }
  }

  /** A level that fits at one step still fits, shrunk, any number of steps later. */
  lemma ShrinksWithin(value: nat, shift: nat, more: nat, bound: nat)
    requires ShiftCeil(value, shift) <= bound
    ensures ShiftCeil(value, shift + more) <= ShiftCeil(bound, more)
  {
    hide Pow2;
    var p, q, c := Pow2(shift), Pow2(more), ShiftCeil(bound, more);
    CeilLeast(value, p, bound);
    CeilLeast(bound, q, c);
    MulMono(bound, c * q, p);
    Pow2Add(shift, more);
    MulAssoc(c, p, q);
    CeilLeast(value, p * q, c);
  }

  lemma ShiftCeilPositive(value: nat, shift: nat)
    requires value > 0
    ensures ShiftCeil(value, shift) >= 1
  {
    CeilLeast(value, Pow2(shift), 0);
  }

  lemma ShrunkIsShiftCeil(d: nat, i: nat)
    requires d <= 256 && i < 12
    ensures d >= 1 ==> Shrunk(d, i) == ShiftCeil(d, i)
  {
    if d >= 1 && i > 8 {
      CeilLeast(d, Pow2(i), 1);
      ShiftCeilPositive(d, i);
      assert Pow2(8) == 256;
      Pow2Add(8, i - 8);
      MulMono(1, Pow2(i - 8), 256);
    } else {
      SmallPowers();
    }
  }

  lemma SmallPowers()
    ensures Pow2(0) == 1 && Pow2(1) == 2 && Pow2(2) == 4 && Pow2(3) == 8 && Pow2(4) == 16
    ensures Pow2(5) == 32 && Pow2(6) == 64 && Pow2(7) == 128 && Pow2(8) == 256
  {
    assert Pow2(2) == 4 && Pow2(4) == 16 && Pow2(6) == 64;
  }
}
