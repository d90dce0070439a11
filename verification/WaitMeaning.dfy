/** What a memory wait compares: the six conditions of the hardware over the masked word, for
    the first poll, for every later one and for a conditional branch. */
module WaitMeaning {
  import opened Arith
  import opened Words
  import opened GuestMemory
  import opened Pm4
  import opened CommandProcessor

  /** Each bit of `w` is the bit of `v` where the mask has one, and zero elsewhere. */
  ghost predicate Masks(w: u64, v: u64, mask: u64) {
    forall k: nat :: k < 64 ==> (Bit(w, k) == 1 <==> Bit(v, k) == 1 && Bit(mask, k) == 1)
  }

  lemma {:induction false} AndBit(a: u64, b: u64, k: nat)
    ensures Bit(And(a, b), k) == 1 <==> Bit(a, k) == 1 && Bit(b, k) == 1
    decreases k
  {
    hide Bit, And;
    AndHalf(a, b);
    if k == 0 {
      BitHalf(a, 0);
      BitHalf(b, 0);
      BitHalf(And(a, b), 0);
    } else {
      BitHalf(a, k - 1);
      BitHalf(b, k - 1);
      BitHalf(And(a, b), k - 1);
      AndBit(a / 2, b / 2, k - 1);
    }
  }

  lemma AndHalf(a: u64, b: u64)
    ensures And(a, b) / 2 == And(a / 2, b / 2)
    ensures And(a, b) % 2 == 1 <==> a % 2 == 1 && b % 2 == 1
  {
  }

  /** There is exactly one masked word, and it is the one the decoder computes. */
  lemma MaskedWord(w: u64, v: u64, mask: u64)
    ensures Masks(w, v, mask) <==> w == And(v, mask)
  {
    hide Bit, And;
    forall k: nat ensures Bit(And(v, mask), k) == 1 <==> Bit(v, k) == 1 && Bit(mask, k) == 1 {
      AndBit(v, mask, k);
    }
    if Masks(w, v, mask) {
      forall k: nat | k < 64 ensures Bit(w, k) == Bit(And(v, mask), k) {
      }
      Pow2Words();
      BitsDetermine(w, And(v, mask), 64);
    }
  }

  /** A mask of full width keeps the word. */
  lemma FullMask(v: u64, is64: bool)
    requires is64 || v < TWO32
    ensures Masks(v, v, if is64 then TWO64 - 1 else TWO32 - 1)
  {
    hide Bit;
    Pow2Words();
    forall k: nat | k < 64
      ensures Bit(v, k) == 1 <==> Bit(v, k) == 1 && Bit(if is64 then TWO64 - 1 else TWO32 - 1, k) == 1
    {
      BitsOfOnes(if is64 then 64 else 32, k);
      if !is64 && k >= 32 {
        BitOfSmall(v, 32, k);
      }
    }
  }

  /** The word of the wait's width that memory holds at an address. */
  ghost predicate Holds(m: Memory, address: u64, is64: bool, v: u64) {
    if is64 then m.Read64(address) == Some(v) else m.Read32(address).Some? && m.Read32(address).value == v
  }

  /** The relation each condition number stands for. */
  ghost predicate Meets(condition: int, w: u64, reference: u64) {
    && (condition == 1 ==> w < reference)
    && (condition == 2 ==> w <= reference)
    && (condition == 3 ==> w == reference)
    && (condition == 4 ==> w != reference)
    && (condition == 5 ==> w >= reference)
    && (condition == 6 ==> w > reference)
  }

  /** A parked cursor goes on exactly when the masked word in memory meets its condition;
      otherwise it stays parked. */
  lemma ParkedUntilMet(frames: seq<Frame>, m: Memory, wait: PendingWait, v: u64, w: u64)
    requires frames != [] && Top(frames).offset + wait.packetDwords <= |Top(frames).words|
    requires Holds(m, wait.address, wait.is64, v) && Masks(w, v, wait.mask)
    ensures CheckWait(frames, m, wait).Released? <==> Meets(wait.function_, w, wait.reference)
    ensures CheckWait(frames, m, wait).StillBlocked? <==> !Meets(wait.function_, w, wait.reference)
  {
    hide And, Masks;
    MaskedWord(w, v, wait.mask);
  }

  /** The same over the full width, where the mask drops out. */
  lemma ParkedOnWholeWord(frames: seq<Frame>, m: Memory, wait: PendingWait, v: u64)
    requires frames != [] && Top(frames).offset + wait.packetDwords <= |Top(frames).words|
    requires Holds(m, wait.address, wait.is64, v) && wait.mask == if wait.is64 then TWO64 - 1 else TWO32 - 1
    ensures var go := CheckWait(frames, m, wait).Released?;
      match wait.function_
      case 1 => go <==> v < wait.reference
      case 2 => go <==> v <= wait.reference
      case 3 => go <==> v == wait.reference
      case 4 => go <==> v != wait.reference
      case 5 => go <==> v >= wait.reference
      case 6 => go <==> v > wait.reference
      case _ => go
  {
    hide Masks, CheckWait;
    FullMask(v, wait.is64);
    ParkedUntilMet(frames, m, wait, v, v);
  }

  ghost predicate WellPlaced(i: Instr)
    requires i.Wait?
  {
    i.address != 0 && i.address % (if i.is64 then 8 else 4) == 0 && i.mask != 0
  }

  /** The first poll of a wait that compares: a bad operand is malformed, an unreadable word
      is a fault, and a wait the sink accepted goes on exactly when its condition is met. */
  lemma FirstPoll<S>(sink: Sink<S>, limits: Limits, core: Core<S>, site: Site, i: Instr, v: u64, w: u64)
    requires i.Wait? && 1 <= i.control % 8 <= 6
    ensures var s := ExecuteWait(sink, limits, core, site, i);
      && (!WellPlaced(i) ==> s == Halt(core, MalformedPacket, site.address, site.opcode))
      && (WellPlaced(i) && Poll(core.world.memory, i.address, i.is64).None? ==>
            s == Halt(core, MemoryFault, site.address, site.opcode))
      && (WellPlaced(i) && Holds(core.world.memory, i.address, i.is64, v) && Masks(w, v, i.mask) && s.Go? ==>
            && (s.effect == Advance <==> Meets(i.control % 8, w, i.reference))
            && s.core.log == core.log + [MakeAction(WaitMemory, site,
                 [i.address, i.mask, i.reference, v, i.control % 8, if i.is64 then 64 else 32, i.control, i.poll])]
            && (s.effect != Advance ==>
                  s.effect == Hold(PendingWait(site.address, i.address, i.mask, i.reference, site.dwords,
                                               site.opcode, i.control % 8, i.is64))))
  {
    hide And, Masks;
    MaskedWord(w, v, i.mask);
  }

  /** Conditions 0 and 7 never look at memory and never hold the cursor. */
  lemma UnconditionalWait<S>(sink: Sink<S>, limits: Limits, core: Core<S>, site: Site, i: Instr)
    requires i.Wait? && i.control % 8 in {0, 7}
    ensures var s := ExecuteWait(sink, limits, core, site, i);
      && s.core == Emit(sink, limits, core, MakeAction(WaitMemory, site,
           [i.address, i.mask, i.reference, 0, i.control % 8, if i.is64 then 64 else 32, i.control, i.poll])).core
      && (s.Go? ==> s.effect == Advance)
  {
    hide And;
  }

  /** A conditional branch enters the buffer its masked word selects: the first one when the
      condition is met; the second one when it is not and the packet has a second one;
      otherwise none. An empty buffer is not entered. */
  lemma BranchSelects<S>(sink: Sink<S>, limits: Limits, core: Core<S>, site: Site, i: Instr, depth: nat,
                         v: u64, w: u64)
    requires i.Branch? && core.world.memory.Read64(i.address) == Some(v) && Masks(w, v, i.mask)
    ensures var s := ExecuteBranch(sink, limits, core, site, i, depth);
      s.Go? ==>
        var met := Meets(i.function_, w, i.reference);
        && s.effect == (if met && i.thenDwords != 0 then Enter(i.thenTarget, i.thenDwords)
                        else if !met && i.always && i.elseDwords != 0 then Enter(i.elseTarget, i.elseDwords)
                        else Advance)
        && s.core.log == core.log + [MakeAction(IndirectBuffer, site,
             [if met then i.thenTarget else i.elseTarget,
              if met then i.thenDwords else if i.always then i.elseDwords else 0,
              i.control, depth % TWO32, if met then 1 else 0])]
  {
    hide And, Masks;
    MaskedWord(w, v, i.mask);
  }
}
