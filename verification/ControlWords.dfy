/** The control words of built packets, field by field: each argument lands in its own bits and
    nowhere else. */
module ControlWords {
  import opened Arith
  import opened Words
  import opened GuestMemory
  import opened Pm4
  import opened PacketBuilder
  import opened PacketRoundTrip
  import MemorySink
  import WaitMeaning

  /** `size` values of `word`, `unit` apart. */
  function Slot(word: int, unit: int, size: int): int
    requires unit > 0 && size > 0
  {
    word / unit % size
  }

  /** Four digits of mixed size are read back each in its place. */
  lemma Digits(a: int, b: int, c: int, d: int, p: int, q: int, r: int)
    requires 0 <= a < p && 0 <= b < q && 0 <= c < r && d >= 0
    ensures p * q > 0 && p * (q * r) > 0
    ensures var v := a + p * (b + q * (c + r * d));
      v % p == a && v / p % q == b && v / (p * q) % r == c && v / (p * (q * r)) == d
  {
    var t := c + r * d;
    var s := b + q * t;
    MulMono(0, d, r);
    MulMono(0, t, q);
    DivModUnique(a + p * s, p, s, a);
    DivModUnique(s, q, t, b);
    DivModUnique(t, r, d, c);
    TwoDigits(a, b, t, p, q);
    ThreeDigits(a, b, c, d, p, q, r);
  }

  lemma TwoDigits(a: int, b: int, t: int, p: int, q: int)
    requires 0 <= a < p && 0 <= b < q
    ensures p * q > 0 && (a + p * (b + q * t)) / (p * q) == t
  {
    DigitBelow(a, b, p, q);
    assert p * (b + q * t) == p * b + p * (q * t);
    assert p * (q * t) == t * (p * q) by { MulAssoc(t, p, q); }
    DivModUnique(a + p * (b + q * t), p * q, t, a + p * b);
  }

  lemma ThreeDigits(a: int, b: int, c: int, d: int, p: int, q: int, r: int)
    requires 0 <= a < p && 0 <= b < q && 0 <= c < r
    ensures p * (q * r) > 0 && (a + p * (b + q * (c + r * d))) / (p * (q * r)) == d
  {
    DigitBelow(b, c, q, r);
    assert q * (c + r * d) == q * c + q * (r * d);
    assert q * (r * d) == (q * r) * d by { MulAssoc(d, r, q); }
    TwoDigits(a, b + q * c, d, p, q * r);
  }

  lemma DigitBelow(a: int, b: int, p: int, q: int)
    requires 0 <= a < p && 0 <= b < q
    ensures 0 <= a + p * b < p * q
  {
    MulMono(0, b, p);
    MulMono(b + 1, q, p);
  }

  // ------------------------------------------------------------------- writes

  /** Destination, cache policy and increment each have a byte; the confirm bit is kept unless
      the destination is zero. */
  lemma WriteFields(args: seq<u64>)
    ensures var w := WriteControl(args);
      && w % 0x100 == Arg32(args, 1) % 0x100
      && Slot(w, 0x100, 0x100) == Arg32(args, 2) % 0x100
      && Slot(w, 0x1_0000, 0x100) == Arg32(args, 6) % 0x100
      && w / 0x100_0000 == if Arg32(args, 1) != 0 && Arg32(args, 7) % 2 == 1 then 1 else 0
  {
    var confirm := if Arg32(args, 1) == 0 then 0 else Arg32(args, 7) % 2;
    Digits(Arg32(args, 1) % 0x100, Arg32(args, 2) % 0x100, Arg32(args, 6) % 0x100, confirm, 0x100, 0x100, 0x100);
  }

  /** What a built write stores, from its arguments alone: nothing for a destination that is not
      memory; otherwise all its words from the aligned address on, or only the last one, over
      and over, when the increment byte is set. */
  lemma WriteStores(m: Memory, args: seq<u64>, at: u64, dwords: u32)
    requires Arg32(args, 5) <= 0x3ffd && (Arg32(args, 5) > 0 ==> m.CanRead(Arg(args, 4), 4 * Arg32(args, 5)))
    ensures var i, address, data := DenoteWriteData(m, args), Down(Arg(args, 3), 4), WritePayload(m, args);
      MemorySink.WriteTarget(Action(i.kind, Site(at, dwords, NOP, WRITE_DATA_REGISTER), i.values, i.payload, [])) ==
        if Arg32(args, 1) % 0x100 !in {1, 2, 4, 5} then MemorySink.Pass
        else if address == 0 then MemorySink.BadStore
        else if Arg32(args, 6) % 0x100 == 0 || data == [] then MemorySink.Words(address, data)
        else MemorySink.Words(address, data[|data| - 1..])
  {
    hide WriteControl;
    WriteFields(args);
    DownAligned(Arg(args, 3));
    var data := WritePayload(m, args);
    assert data != [] ==> data[|data| - 1..] == [data[|data| - 1]];
    WriteTargetOf(Action(WriteData, Site(at, dwords, NOP, WRITE_DATA_REGISTER), DenoteWriteData(m, args).values, data, []),
                  WriteControl(args));
  }

  lemma WriteTargetOf(a: Action, control: u32)
    requires a.site.opcode == NOP && a.site.register == WRITE_DATA_REGISTER
    requires |a.values| == 5 && a.values[1] == control && |a.payload| == a.values[2]
    ensures MemorySink.WriteTarget(a) ==
      if control % 0x100 !in {1, 2, 4, 5} then MemorySink.Pass
      else if a.values[0] == 0 || a.values[0] % 4 != 0 then MemorySink.BadStore
      else MemorySink.Words(a.values[0], if Slot(control, 0x1_0000, 0x100) == 0 || a.payload == [] then a.payload
                                         else [a.payload[|a.payload| - 1]])
  {
  }

  // ----------------------------------------------------------------- releases

  /** Requesting a writeback also requests the invalidation that goes with it. */
  lemma GcrBits(v: u32, k: nat)
    ensures Bit(GcrControl(v), k) == if k == 9 && Bit(v, 8) == 1 then 1 else Bit(v, k)
  {
    hide Bit;
    assert Pow2(8) == 0x100 && Pow2(9) == 0x200;
    TwoBits(v, 8);
    if v / 0x100 % 4 == 1 { BitSet(v, 9, k); }
  }

  /** The event code, its index, the cache bits and the policy of a release. */
  lemma ReleaseControlFields(args: seq<u64>)
    ensures var w := ReleaseControl(args);
      && w % 0x100 == Arg32(args, 1) % 0x40
      && Slot(w, 0x100, 0x10) == (if Arg32(args, 1) < 0x2f then 5 else 6)
      && Slot(w, 0x1000, 0x1000) == GcrControl(Arg32(args, 2)) % 0x1000
      && w / 0x100_0000 == 2 * (Arg32(args, 4) % 4)
  {
    hide GcrControl;
    Digits(Arg32(args, 1) % 0x40, if Arg32(args, 1) < 0x2f then 5 else 6, GcrControl(Arg32(args, 2)) % 0x1000,
           2 * (Arg32(args, 4) % 4), 0x100, 0x10, 0x1000);
  }

  /** Destination, interrupt and data selection of a release. */
  lemma ReleaseSelectFields(args: seq<u64>)
    requires ReleaseOk(args)
    ensures var w := ReleaseSelect(args);
      && w % 0x1_0000 == 0 && Slot(w, 0x1_0000, 0x100) == Arg32(args, 3)
      && Slot(w, 0x100_0000, 0x20) == Arg32(args, 10) && w / 0x2000_0000 == Arg32(args, 6)
  {
    Digits(0, Arg32(args, 3), Arg32(args, 10), Arg32(args, 6), 0x1_0000, 0x100, 0x20);
  }

  /** The data of a release: none for the interrupt-only kind, the offset and size halves for a
      transfer out of global data share, and the argument itself otherwise. */
  lemma ReleaseData(args: seq<u64>)
    ensures var v := ReleaseValue(args);
      if Arg32(args, 10) == 4 then v == 0 && ReleaseAddress(args) == 0
      else
        && ReleaseAddress(args) == Arg(args, 5)
        && (Arg32(args, 6) == 5 ==> v % 0x1_0000 == Arg32(args, 8) % 0x1_0000 && v / 0x1_0000 == Arg32(args, 9) % 0x1_0000)
        && (Arg32(args, 6) != 5 ==> v == Arg(args, 7))
  {
  }

  // -------------------------------------------------------- waits, events, draws

  /** Bit 4 selects memory; the operation is split over bits 6..7 and 8..9. */
  lemma WaitFields(compare: u32, operation: u32, cache: u32)
    ensures var w := Wait32Control(compare, operation, cache);
      && w % 0x40 == 0x10 + compare % 8 && Slot(w, 0x40, 4) == operation / 4 % 4
      && Slot(w, 0x100, 0x2_0000) == operation % 4 && w / 0x200_0000 == cache % 4
    ensures var w := Wait64Control(compare, operation, cache);
      && w % 0x40 == 0x10 + compare % 8 && Slot(w, 0x40, 4) == operation / 2 % 4
      && Slot(w, 0x100, 0x2_0000) == operation % 2 && w / 0x200_0000 == cache % 4
  {
    Digits(0x10 + compare % 8, operation / 4 % 4, operation % 4, cache % 4, 0x40, 4, 0x2_0000);
    Digits(0x10 + compare % 8, operation / 2 % 4, operation % 2, cache % 4, 0x40, 4, 0x2_0000);
  }

  /** The poll interval is in units of sixteen cycles and saturates. */
  lemma PollUnits(cycles: u32)
    ensures var p := WaitPoll(cycles); p <= 0xffff && 16 * p <= cycles && (p == 0xffff || cycles < 16 * (p + 1))
  {
  }

  lemma EventFields(kind: u32)
    requires kind <= 0x3f
    ensures EventControl(kind) % 0x100 == kind
    ensures EventControl(kind) / 0x100 == if kind in {0x38, 0x39} then 1 else if kind in {7, 15, 16} then 4 else 0
  {
  }

  /** A dispatch always sets bits 0 and 6 and lets the caller choose bits 3, 4, 5, 13 and 15. */
  lemma DispatchBits(v: u32, k: nat)
    ensures Bit(DispatchModifier(v), k) == 1 <==> k in {0, 6} || (k in {3, 4, 5, 13, 15} && Bit(v, k) == 1)
  {
    hide Bit, And;
    var chosen := And(v, 0xa038);
    forall j: nat ensures Bit(chosen, j) == 1 <==> j in {3, 4, 5, 13, 15} && Bit(v, j) == 1 {
      WaitMeaning.AndBit(v, 0xa038, j);
      ChosenBits(j);
    }
    assert Pow2(0) == 1 && Pow2(6) == 0x40;
    BitSet(chosen, 0, 6);
    BitSet(chosen, 0, k);
    BitSet(chosen + 1, 6, k);
  }

  lemma ChosenBits(j: nat)
    ensures Bit(0xa038, j) == 1 <==> j in {3, 4, 5, 13, 15}
  {
    assert Pow2(3) == 8 && Pow2(4) == 0x10 && Pow2(5) == 0x20 && Pow2(13) == 0x2000 && Pow2(15) == 0x8000;
    BitOfSmall(0, 0, 3);
    BitOfSmall(0, 0, 4);
    BitOfSmall(0, 0, 5);
    BitOfSmall(0, 0, 13);
    BitOfSmall(0, 0, 15);
    BitOfSmall(0, 0, j);
    hide Bit;
    BitSet(0, 3, j);
    BitSet(0, 3, 4);
    BitSet(0, 3, 5);
    BitSet(0, 3, 13);
    BitSet(0, 3, 15);
    BitSet(8, 4, j);
    BitSet(8, 4, 5);
    BitSet(8, 4, 13);
    BitSet(8, 4, 15);
    BitSet(0x18, 5, j);
    BitSet(0x18, 5, 13);
    BitSet(0x18, 5, 15);
    BitSet(0x38, 13, j);
    BitSet(0x38, 13, 15);
    BitSet(0x2038, 15, j);
  }

  /** Only bit 8 of a draw modifier matters, and only while bit 32 is clear. */
  lemma DrawModifierBits(modifier: u64)
    ensures DrawIndexInitiator(modifier) == if Bit(modifier, 8) == 1 && Bit(modifier, 32) == 0 then 0x20 else 0
  {
    Pow2Words();
    assert Pow2(8) == 0x100;
  }
}
