/** Shader registration as a transaction over guest memory and over the two indexes. */
module ShaderTransaction {
  import opened Words
  import opened GuestMemory
  import opened ShaderIndex
  import opened ShaderRuntime

  // ---------------------------------------------------------------- memory side

  ghost predicate Apart(x: Mutation, y: Mutation) {
    Disjoint(x.address, |x.value|, y.address, |y.value|)
  }

  ghost predicate AllApart(plan: seq<Mutation>) {
    forall i, j :: 0 <= i < j < |plan| ==> Apart(plan[i], plan[j])
  }

  function StoreAll(m: Memory, plan: seq<Mutation>): Memory {
    if plan == [] then m
    else
      var last := plan[|plan| - 1];
      StoreAll(m, plan[..|plan| - 1]).Store(last.address, last.value)
  }

  lemma AddMutationApart(plan: seq<Mutation>, address: u64, value: seq<byte>)
    requires AllApart(plan)
    ensures var r := AddMutation(plan, address, value); r.Done? ==> AllApart(r.value)
  {
    var r := AddMutation(plan, address, value);
    if r.Done? {
      forall i | 0 <= i < |plan| ensures Apart(plan[i], Mutation(address, value)) {
        assert !RangesOverlap(address, |value|, plan[i].address, |plan[i].value|);
      }
    }
  }

  lemma {:induction false} RelocateApart(plan: seq<Mutation>, base: u64, bytes: seq<byte>, offsets: seq<nat>)
    requires AllApart(plan)
    requires Fits(bytes, offsets)
    ensures var r := Relocate(plan, base, bytes, offsets); r.Done? ==> AllApart(r.value.plan)
    decreases |offsets|
  {
    hide AllApart;
    if offsets != [] {
      var last := offsets[|offsets| - 1];
      RelocateApart(plan, base, bytes, offsets[..|offsets| - 1]);
      var before := Relocate(plan, base, bytes, offsets[..|offsets| - 1]);
      var r := Relocate(plan, base, bytes, offsets);
      if r.Done? && Quad(bytes, last) != 0 {
        AddMutationApart(before.value.plan, base + last, Encode64(base + last + Quad(bytes, last)));
      }
    }
  }

  lemma PatchProgramApart(plan: seq<Mutation>, lo: Entry, hi: Entry, code: u64, codeSize: u32)
    requires AllApart(plan)
    ensures var r := PatchProgram(plan, lo, hi, code, codeSize); r.Done? ==> AllApart(r.value.plan)
  {
    hide AllApart, Encode32, AddMutation, LowRegister, HighRegister;
    var r := PatchProgram(plan, lo, hi, code, codeSize);
    if r.Done? {
      var program := code + ProgramAddress(lo.value, hi.value);
      var loWord := Encode32(LowRegister(program));
      var hiWord := Encode32(HighRegister(hi.value, program));
      AddMutationApart(plan, lo.address + 4, loWord);
      AddMutationApart(AddMutation(plan, lo.address + 4, loWord).value, hi.address + 4, hiWord);
    }
  }

  lemma PlanProgramApart(plan: seq<Mutation>, m: Memory, table: u64, count: nat, binaryType: byte, code: u64, codeSize: u32)
    requires AllApart(plan)
    ensures var r := PlanProgram(plan, m, table, count, binaryType, code, codeSize); r.Done? ==> AllApart(r.value.plan)
  {
    hide AllApart, PatchProgram, ReadTable, FindPair, FindFallback;
    var pair := PairForType(binaryType);
    if pair.Some? && table != 0 && count >= 2 {
      var entries := ReadTable(m, table, count);
      if entries.Some? {
        var preferred := FindPair(entries.value, pair.value);
        var found := if preferred.Some? then preferred else FindFallback(entries.value, pair.value, 0);
        if found.Some? {
          PatchProgramApart(plan, entries.value[found.value.lo], entries.value[found.value.hi], code, codeSize);
        }
      }
    }
  }

  lemma PlanPointersApart(m: Memory, header: u64, code: u64, h: Header)
    requires |h.bytes| == HEADER_BYTES
    ensures var r := PlanPointers(m, header, code, h); r.Done? ==> AllApart(r.value.plan)
  {
    hide AllApart, Relocate, AddMutation, Encode64;
    var r := PlanPointers(m, header, code, h);
    if r.Done? {
      assert AllApart([]) by { NothingApart(); }
      RelocateApart([], header, h.bytes, HEADER_POINTERS);
      var first := Relocate([], header, h.bytes, HEADER_POINTERS).value;
      AddMutationApart(first.plan, header + 0x10, Encode64(code));
      var second := AddMutation(first.plan, header + 0x10, Encode64(code)).value;
      var userData := first.pointers[0];
      if userData != 0 {
        RelocateApart(second, userData, m.Read(userData, USER_DATA_BYTES).value, USER_DATA_POINTERS);
      }
    }
  }

  lemma NothingApart()
    ensures AllApart([])
  {
  }

  /** The ranges a registration plans to patch never meet, and each can be patched and restored. */
  lemma PlanApart(m: Memory, destination: u64, header: u64, code: u64)
    ensures var r := Plan(m, destination, header, code);
      r.Done? ==> AllApart(r.value.plan) && forall i :: 0 <= i < |r.value.plan| ==> Patchable(m, r.value.plan[i])
  {
    hide AllApart, CheckHeader, PlanPointers, PlanProgram, AddMutation, Patchable, Encode64;
    var r := Plan(m, destination, header, code);
    if r.Done? {
      var h := CheckHeader(m, header, code).value;
      PlanPointersApart(m, header, code, h);
      var pointers := PlanPointers(m, header, code, h).value;
      PlanProgramApart(pointers.plan, m, pointers.pointers[2], h.bytes[0x5c], h.binaryType, code, h.codeSize);
      var patch := PlanProgram(pointers.plan, m, pointers.pointers[2], h.bytes[0x5c], h.binaryType, code, h.codeSize).value;
      if destination != 0 {
        AddMutationApart(patch.plan, destination, Encode64(header));
      }
    }
  }

  lemma {:induction false} StoreAllKeepsAccess(m: Memory, plan: seq<Mutation>, a: int, n: nat)
    ensures StoreAll(m, plan).CanRead(a, n) == m.CanRead(a, n)
    ensures StoreAll(m, plan).CanWrite(a, n) == m.CanWrite(a, n)
  {
    if plan != [] {
      StoreAllKeepsAccess(m, plan[..|plan| - 1], a, n);
      var last := plan[|plan| - 1];
      StoreKeepsAccess(StoreAll(m, plan[..|plan| - 1]), last.address, last.value, a, n);
    }
  }

  lemma {:induction false} StoreAllElsewhere(m: Memory, plan: seq<Mutation>, a: int, n: nat)
    requires forall i :: 0 <= i < |plan| ==> Disjoint(plan[i].address, |plan[i].value|, a, n)
    ensures StoreAll(m, plan).Read(a, n) == m.Read(a, n)
  {
    if plan != [] {
      StoreAllElsewhere(m, plan[..|plan| - 1], a, n);
      var last := plan[|plan| - 1];
      ReadElsewhere(StoreAll(m, plan[..|plan| - 1]), last.address, last.value, a, n);
    }
  }

  /** After a committed plan every patched range reads back its planned bytes. */
  lemma {:induction false} StoreAllLands(m: Memory, plan: seq<Mutation>, k: nat)
    requires AllApart(plan) && k < |plan| && m.CanRead(plan[k].address, |plan[k].value|)
    ensures StoreAll(m, plan).Read(plan[k].address, |plan[k].value|) == Some(plan[k].value)
  {
    var n := |plan| - 1;
    var before, last := StoreAll(m, plan[..n]), plan[n];
    if k == n {
      StoreAllKeepsAccess(m, plan[..n], last.address, |last.value|);
      ReadStored(before, last.address, last.value);
    } else {
      StoreAllLands(m, plan[..n], k);
      assert Apart(plan[k], plan[n]);
      ReadElsewhere(before, last.address, last.value, plan[k].address, |plan[k].value|);
    }
  }

  /** Writing back what was there undoes a write, even one that stopped part way. */
  lemma UndoStore(m: Memory, x: Mutation, written: nat)
    requires m.CanRead(x.address, |x.value|) && written <= |x.value|
    ensures m.Store(x.address, x.value[..written]).Store(x.address, m.Bytes(x.address, |x.value|)) == m
  {
    hide Memory.Store, Memory.Bytes;
    var back := m.Bytes(x.address, |x.value|);
    var once := m.Store(x.address, x.value[..written]);
    var twice := once.Store(x.address, back);
    forall a | a in m.cells ensures twice.cells[a] == m.cells[a] {
      if x.address <= a < x.address + |x.value| {
        assert back[a - x.address] == m.cells[a].value;
        assert once.cells[a].(value := m.cells[a].value) == m.cells[a];
      }
    }
    assert twice.cells == m.cells;
  }

  lemma UndoLast(m: Memory, plan: seq<Mutation>, k: nat, written: nat)
    requires AllApart(plan) && k < |plan| && m.CanRead(plan[k].address, |plan[k].value|)
    requires written <= |plan[k].value|
    ensures var here := StoreAll(m, plan[..k]);
      here.Store(plan[k].address, plan[k].value[..written])
          .Store(plan[k].address, m.Bytes(plan[k].address, |plan[k].value|)) == here
  {
    var x, here := plan[k], StoreAll(m, plan[..k]);
    forall i | 0 <= i < k ensures Disjoint(plan[..k][i].address, |plan[..k][i].value|, x.address, |x.value|) {
      assert Apart(plan[i], plan[k]);
    }
    StoreAllElsewhere(m, plan[..k], x.address, |x.value|);
    UndoStore(here, x, written);
  }

  // ----------------------------------------------------------------- index side

  /** Program addresses and bound records are in one-to-one correspondence, and no program
      address is the code address of another record. */
  ghost predicate IndexOk(x: Index) {
    && (forall c :: c in x.records ==>
          var r := x.records[c];
          && r.codeAddress == c
          && (r.hasProgramBinding ==>
                && r.programAddress in x.programs && x.programs[r.programAddress] == c
                && r.programAddress == c + r.programOffset && Encodable(r.programAddress)
                && r.programOffset < r.codeSize))
    && (forall p :: p in x.programs ==>
          && x.programs[p] in x.records
          && x.records[x.programs[p]].hasProgramBinding && x.records[x.programs[p]].programAddress == p)
    && (forall p :: p in x.programs && p in x.records ==> x.programs[p] == p)
  }

  function Publish(x: Index, record: RegisteredShader): Attempt<Index> {
    var code := record.codeAddress;
    var cleared :=
      if code in x.records && x.records[code].hasProgramBinding && x.records[code].programAddress in x.programs
         && x.programs[x.records[code].programAddress] == code
      then x.programs - {x.records[code].programAddress} else x.programs;
    if code in x.programs && x.programs[code] != code then Fail(InvalidArgument)
    else if !record.hasProgramBinding then Done(Index(x.records[code := record], cleared))
    else if record.programAddress in cleared && cleared[record.programAddress] != code then Fail(InvalidArgument)
    else if record.programAddress in x.records && record.programAddress != code then Fail(InvalidArgument)
    else Done(Index(x.records[code := record], cleared[record.programAddress := code]))
  }

  lemma PublishIndexed(x: Index, record: RegisteredShader)
    requires IndexOk(x) && Publish(x, record).Done?
    requires record.hasProgramBinding ==>
      && record.programAddress == record.codeAddress + record.programOffset && Encodable(record.programAddress)
      && record.programOffset < record.codeSize
    ensures IndexOk(Publish(x, record).value)
  {
    hide Encodable;
  }

  lemma PublishKeepsIndex(x: Index, record: RegisteredShader)
    requires IndexOk(x)
    requires record.hasProgramBinding ==>
      && record.programAddress == record.codeAddress + record.programOffset && Encodable(record.programAddress)
      && record.programOffset < record.codeSize
    ensures var r := Publish(x, record);
      r.Done? ==>
        && IndexOk(r.value)
        && record.codeAddress in r.value.records && r.value.records[record.codeAddress] == record
        && (forall c :: c != record.codeAddress ==>
              (c in r.value.records <==> c in x.records) && (c in x.records ==> r.value.records[c] == x.records[c]))
        && (record.hasProgramBinding ==> LookupProgram(r.value, record.programAddress) == Some(record))
  {
    hide Encodable, IndexOk;
    if Publish(x, record).Done? {
      PublishIndexed(x, record);
    }
  }

  /** The cross-checks of a program lookup never reject an indexed address. */
  lemma LookupNeverRejects(x: Index, program: u64)
    requires IndexOk(x)
    ensures LookupProgram(x, program).Some? <==> program in x.programs
    ensures program in x.programs ==> LookupProgram(x, program) == Some(x.records[x.programs[program]])
    ensures forall c, d :: SharesProgram(x, c, d) ==> c == d
  {
    forall c, d | SharesProgram(x, c, d) ensures c == d {
      assert x.programs[x.records[c].programAddress] == c;
      assert x.programs[x.records[d].programAddress] == d;
    }
  }

  ghost predicate SharesProgram(x: Index, c: u64, d: u64) {
    && c in x.records && d in x.records
    && x.records[c].hasProgramBinding && x.records[d].hasProgramBinding
    && x.records[c].programAddress == x.records[d].programAddress
  }

  /** A recompile request names a program first and an image second. */
  function RecompileLookup(x: Index, address: u64): Option<RegisteredShader> {
    if address in x.programs && x.programs[address] in x.records then Some(x.records[x.programs[address]])
    else if address in x.records then Some(x.records[address]) else None
  }

  /** The two ways of naming a record never name two different ones. */
  lemma RecompileIsUnambiguous(x: Index, address: u64, record: RegisteredShader)
    requires IndexOk(x)
    ensures RecompileLookup(x, address) == Some(record) <==>
      || LookupProgram(x, address) == Some(record)
      || (address in x.records && x.records[address] == record)
  {
    if address in x.programs {
      assert x.records[x.programs[address]].programAddress == address;
    }
  }
}
