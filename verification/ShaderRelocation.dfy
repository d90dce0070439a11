/** What a committed registration leaves in guest memory: absolute pointers, the code address
    and the handle the caller asked for. */
module ShaderRelocation {
  import opened Words
  import opened GuestMemory
  import opened ShaderIndex
  import opened ShaderRuntime
  import opened ShaderTransaction

  /** A planned 64-bit value is what memory holds after the plan. */
  lemma Lands(m: Memory, plan: seq<Mutation>, address: u64, v: u64)
    requires AllApart(plan) && (forall i :: 0 <= i < |plan| ==> Patchable(m, plan[i])) && Mutation(address, Encode64(v)) in plan
    ensures StoreAll(m, plan).Read64(address) == Some(v)
  {
    hide Encode64, Decode64, AllApart, StoreAll, Memory.CanRead, Memory.CanWrite, Memory.Read;
    var k :| 0 <= k < |plan| && plan[k] == Mutation(address, Encode64(v));
    assert Patchable(m, plan[k]);
    StoreAllLands(m, plan, k);
    Decode64Encode64(v);
  }

  /** Every non-zero pointer of the structure gets its absolute value, and no patch is lost. */
  lemma {:induction false} RelocateHolds(plan: seq<Mutation>, base: u64, bytes: seq<byte>, offsets: seq<nat>, i: nat)
    requires Fits(bytes, offsets) && Relocate(plan, base, bytes, offsets).Done?
    ensures var r := Relocate(plan, base, bytes, offsets).value;
      && plan <= r.plan
      && (i < |offsets| ==>
            var field, relative := base + offsets[i], Quad(bytes, offsets[i]);
            && field < TWO64
            && (relative == 0 ==> r.pointers[i] == 0)
            && (relative != 0 ==>
                  field + relative < TWO64 && r.pointers[i] == field + relative && Mutation(field, Encode64(field + relative)) in r.plan))
    decreases |offsets|
  {
    hide Encode64, Quad;
    if offsets != [] {
      RelocateHolds(plan, base, bytes, offsets[..|offsets| - 1], i);
    }
  }

  /** The fields a registration fills in, all read in the memory `after` it. */
  ghost predicate Relocated(after: Memory, base: u64, bytes: seq<byte>, offsets: seq<nat>)
    requires Fits(bytes, offsets)
  {
    forall i :: 0 <= i < |offsets| ==> FieldRelocated(after, base, bytes, offsets[i])
  }

  ghost predicate FieldRelocated(after: Memory, base: u64, bytes: seq<byte>, offset: nat)
    requires offset + 8 <= |bytes|
  {
    var relative := Quad(bytes, offset);
    relative != 0 ==> base + offset + relative < TWO64 && after.Read64(base + offset) == Some(base + offset + relative)
  }

  lemma RelocateLands(m: Memory, plan: seq<Mutation>, base: u64, bytes: seq<byte>, offsets: seq<nat>, whole: seq<Mutation>)
    requires Fits(bytes, offsets) && Relocate(plan, base, bytes, offsets).Done? && Relocate(plan, base, bytes, offsets).value.plan <= whole
    requires AllApart(whole) && forall i :: 0 <= i < |whole| ==> Patchable(m, whole[i])
    ensures Relocated(StoreAll(m, whole), base, bytes, offsets)
  {
    hide Relocate, Encode64, Quad, AllApart, StoreAll, Memory.Read64, Patchable;
    forall i | 0 <= i < |offsets|
      ensures FieldRelocated(StoreAll(m, whole), base, bytes, offsets[i])
    {
      RelocateHolds(plan, base, bytes, offsets, i);
      var field, relative := base + offsets[i], Quad(bytes, offsets[i]);
      if relative != 0 {
        assert Mutation(field, Encode64(field + relative)) in whole;
        Lands(m, whole, field, field + relative);
      }
    }
  }

  lemma PlanProgramGrows(plan: seq<Mutation>, m: Memory, table: u64, count: nat, binaryType: byte, code: u64, codeSize: u32)
    ensures var r := PlanProgram(plan, m, table, count, binaryType, code, codeSize); r.Done? ==> plan <= r.value.plan
  {
    hide Encode32, LowRegister, HighRegister, ReadTable, FindPair, FindFallback;
  }

  /** The plans of the stages, each a prefix of the whole. */
  ghost predicate Stages(m: Memory, destination: u64, header: u64, code: u64, h: Header, plan: seq<Mutation>) {
    && |h.bytes| == HEADER_BYTES && Fits(h.bytes, HEADER_POINTERS)
    && var first := Relocate([], header, h.bytes, HEADER_POINTERS);
    && first.Done? && first.value.plan <= plan
    && header + 0x10 < TWO64 && Mutation(header + 0x10, Encode64(code)) in plan
    && (destination != 0 ==> Mutation(destination, Encode64(header)) in plan)
    && (first.value.pointers[0] != 0 ==>
          UserStage(m, first.value.plan + [Mutation(header + 0x10, Encode64(code))], first.value.pointers[0], plan))
  }

  ghost predicate UserStage(m: Memory, before: seq<Mutation>, user: u64, plan: seq<Mutation>) {
    var bytes := m.Read(user, USER_DATA_BYTES);
    && bytes.Some? && Fits(bytes.value, USER_DATA_POINTERS)
    && var second := Relocate(before, user, bytes.value, USER_DATA_POINTERS);
    && second.Done? && second.value.plan <= plan
  }

  lemma PlanStages(m: Memory, destination: u64, header: u64, code: u64, h: Header, planned: Planned)
    requires Plan(m, destination, header, code) == Done(planned) && CheckHeader(m, header, code) == Done(h)
    ensures Stages(m, destination, header, code, h, planned.plan)
  {
    hide CheckHeader, Relocate, Encode64, PlanProgram, Patchable, Memory.Read;
    var pointers := PlanPointers(m, header, code, h).value;
    PlanProgramGrows(pointers.plan, m, pointers.pointers[2], h.bytes[0x5c], h.binaryType, code, h.codeSize);
    var first := Relocate([], header, h.bytes, HEADER_POINTERS).value;
    var coded := first.plan + [Mutation(header + 0x10, Encode64(code))];
    if first.pointers[0] != 0 {
      RelocateHolds(coded, first.pointers[0], m.Read(first.pointers[0], USER_DATA_BYTES).value, USER_DATA_POINTERS, 0);
    }
    assert coded <= pointers.plan;
    assert coded[|first.plan|] == Mutation(header + 0x10, Encode64(code));
  }

  /** The header's user-data pointer, made absolute; zero stays zero. */
  function UserData(header: u64, h: Header): int
    requires |h.bytes| == HEADER_BYTES
  {
    if Quad(h.bytes, 0x08) == 0 then 0 else header + 0x08 + Quad(h.bytes, 0x08)
  }

  ghost predicate UserRelocated(m: Memory, after: Memory, user: int) {
    var bytes := m.Read(user, USER_DATA_BYTES);
    0 < user < TWO64 && bytes.Some? && Fits(bytes.value, USER_DATA_POINTERS) && Relocated(after, user, bytes.value, USER_DATA_POINTERS)
  }

  /**
   * After a committed registration the header's pointers and those of the user data it names
   * are absolute, the code field holds the code address, and the destination, if one was
   * given, holds the header's address.
   */
  lemma PlanRelocates(m: Memory, destination: u64, header: u64, code: u64, h: Header, planned: Planned)
    requires Plan(m, destination, header, code) == Done(planned) && CheckHeader(m, header, code) == Done(h)
    ensures var after := StoreAll(m, planned.plan);
      && Fits(h.bytes, HEADER_POINTERS) && Relocated(after, header, h.bytes, HEADER_POINTERS)
      && after.Read64(header + 0x10) == Some(code)
      && (destination != 0 ==> after.Read64(destination) == Some(header))
      && (UserData(header, h) != 0 ==> UserRelocated(m, after, UserData(header, h)))
  {
    hide Plan, CheckHeader, Relocate, Encode64, Patchable, Memory.Read, Memory.Read64, StoreAll, AllApart, Relocated, Quad;
    var plan := planned.plan;
    PlanStages(m, destination, header, code, h, planned);
    PlanApart(m, destination, header, code);
    RelocateLands(m, [], header, h.bytes, HEADER_POINTERS, plan);
    Lands(m, plan, header + 0x10, code);
    if destination != 0 {
      Lands(m, plan, destination, header);
    }
    RelocateHolds([], header, h.bytes, HEADER_POINTERS, 0);
    var first := Relocate([], header, h.bytes, HEADER_POINTERS).value;
    if first.pointers[0] != 0 {
      RelocateLands(m, first.plan + [Mutation(header + 0x10, Encode64(code))], first.pointers[0],
        m.Read(first.pointers[0], USER_DATA_BYTES).value, USER_DATA_POINTERS, plan);
    }
  }
}
