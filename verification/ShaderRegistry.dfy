/** The shader registry as it runs: checked guest-memory writes with rollback, then a swap of
    both indexes. */
module ShaderRegistry {
  import opened Words
  import opened GuestMemory
  import opened ShaderIndex
  import opened ShaderRuntime
  import opened ShaderTransaction

  /** A range write can fail although it was checked, after storing some of its bytes. */
  datatype WriteFault = NoFault | StopAt(index: nat, written: nat)

  class Registry {
    var memory: Memory
    var index: Index

    constructor (memory: Memory)
      ensures this.memory == memory && index == Index(map[], map[]) && IndexOk(index)
    {
      this.memory, index := memory, Index(map[], map[]);
    }

    method WriteRange(x: Mutation, position: nat, fault: WriteFault) returns (ok: bool)
      requires memory.CanWrite(x.address, |x.value|)
      modifies this`memory
      ensures ok <==> !(fault.StopAt? && fault.index == position)
      ensures ok ==> memory == old(memory).Store(x.address, x.value)
      ensures !ok ==> exists n :: 0 <= n <= |x.value| && memory == old(memory).Store(x.address, x.value[..n])
    {
      if fault.StopAt? && fault.index == position {
        var n := if fault.written < |x.value| then fault.written else |x.value|;
        memory := memory.Store(x.address, x.value[..n]);
        return false;
      }
      memory := memory.Write(x.address, x.value).value;
      return true;
    }

    /** Writes saved bytes back, newest first. */
    method RollBack(plan: seq<Mutation>, previous: seq<seq<byte>>, count: nat, ghost start: Memory)
      requires AllApart(plan) && count <= |plan| && |previous| == |plan|
      requires forall i :: 0 <= i < |plan| ==>
        Patchable(start, plan[i]) && previous[i] == start.Bytes(plan[i].address, |plan[i].value|)
      requires memory == StoreAll(start, plan[..count])
      modifies this`memory
      ensures memory == start
    {
      hide AllApart, StoreAll;
      var written := count;
      while written != 0
        invariant 0 <= written <= |plan|
        invariant memory == StoreAll(start, plan[..written])
      {
        written := written - 1;
        assert Patchable(start, plan[written]);
        UndoOne(start, plan, written);
        memory := memory.Store(plan[written].address, previous[written]);
      }
      NoStore(start, plan);
    }

    /** Applies every patch, or restores the attempted one and then the earlier ones, newest
        first. */
    method CommitPlan(plan: seq<Mutation>, fault: WriteFault) returns (ok: bool)
      requires AllApart(plan) && forall i :: 0 <= i < |plan| ==> Patchable(memory, plan[i])
      modifies this`memory
      ensures ok <==> !(fault.StopAt? && fault.index < |plan|)
      ensures memory == if ok then StoreAll(old(memory), plan) else old(memory)
    {
      hide AllApart;
      ghost var start := memory;
      var previous: seq<seq<byte>> := [];
      for i := 0 to |plan|
        invariant |previous| == i
        invariant forall k :: 0 <= k < i ==> previous[k] == start.Bytes(plan[k].address, |plan[k].value|)
      {
        assert Patchable(start, plan[i]);
        previous := previous + [memory.Bytes(plan[i].address, |plan[i].value|)];
      }
      var written := 0;
      assert plan[..0] == [];
      while written < |plan|
        invariant 0 <= written <= |plan|
        invariant memory == StoreAll(start, plan[..written])
        invariant fault.StopAt? ==> fault.index >= written
      {
        assert Patchable(start, plan[written]);
        StoreAllKeepsAccess(start, plan[..written], plan[written].address, |plan[written].value|);
        ghost var here := memory;
        var stored := WriteRange(plan[written], written, fault);
        if !stored {
          ghost var n :| 0 <= n <= |plan[written].value| &&
                         memory == here.Store(plan[written].address, plan[written].value[..n]);
          UndoLast(start, plan, written, n);
          memory := memory.Store(plan[written].address, previous[written]);
          RollBack(plan, previous, written, start);
          return false;
        }
        assert plan[..written + 1][..written] == plan[..written];
        written := written + 1;
      }
      assert plan[..|plan|] == plan;
      return true;
    }

    /** Registers a shader image. Any failure, at any write and after any part of it, leaves
        memory and both indexes as they were; success changes exactly the planned ranges. */
    method CreateShader(destination: u64, header: u64, code: u64, fault: WriteFault) returns (status: Status)
      requires IndexOk(index)
      modifies this
      ensures IndexOk(index)
      ensures status == Verdict(old(memory), old(index), destination, header, code, fault)
      ensures status != Ok ==> memory == old(memory) && index == old(index)
      ensures status == Ok && Known(old(index), header, code) ==>
        && index == old(index)
        && memory == if destination == 0 then old(memory) else old(memory).Store(destination, Encode64(header))
      ensures status == Ok && !Known(old(index), header, code) ==>
        var planned := Plan(old(memory), destination, header, code);
        && planned.Done? && AllApart(planned.value.plan)
        && memory == StoreAll(old(memory), planned.value.plan)
        && Publish(old(index), planned.value.record) == Done(index)
    {
      hide AllApart, StoreAll, Plan;
      if header == 0 || code == 0 || !Encodable(code) {
        return InvalidArgument;
      }
      if Known(index, header, code) {
        if destination == 0 {
          return Ok;
        }
        var x := Mutation(destination, Encode64(header));
        if !Patchable(memory, x) {
          return MemoryFault;
        }
        OneApart(x);
        var stored := CommitPlan([x], fault);
        OneStore(old(memory), x);
        return if stored then Ok else MemoryFault;
      }
      var planned := Plan(memory, destination, header, code);
      if planned.Fail? {
        return planned.status;
      }
      PlanApart(memory, destination, header, code);
      var next := Publish(index, planned.value.record);
      if next.Fail? {
        return InvalidArgument;
      }
      PlanRecord(memory, destination, header, code);
      PublishKeepsIndex(index, planned.value.record);
      var committed := CommitPlan(planned.value.plan, fault);
      if !committed {
        return MemoryFault;
      }
      index := next.value;
      return Ok;
    }
  }

  /** The same image was registered with the same header before. */
  predicate Known(x: Index, header: u64, code: u64) {
    code in x.records && x.records[code].headerAddress == header
  }

  predicate Fails(fault: WriteFault, writes: nat) { fault.StopAt? && fault.index < writes }

  /** The answer to a registration, success included. */
  function Verdict(m: Memory, x: Index, destination: u64, header: u64, code: u64, fault: WriteFault): Status {
    if header == 0 || code == 0 || !Encodable(code) then InvalidArgument
    else if Known(x, header, code) then
      if destination != 0 && (!Patchable(m, Mutation(destination, Encode64(header))) || Fails(fault, 1)) then MemoryFault
      else Ok
    else
      match Plan(m, destination, header, code)
      case Fail(status) => status
      case Done(planned) =>
        if Publish(x, planned.record).Fail? then InvalidArgument
        else if Fails(fault, |planned.plan|) then MemoryFault
        else Ok
  }

  lemma OneApart(x: Mutation)
    ensures AllApart([x])
  {
  }

  /** Writing back what the last patch replaced undoes it. */
  lemma UndoOne(m: Memory, plan: seq<Mutation>, k: nat)
    requires AllApart(plan) && k < |plan| && Patchable(m, plan[k])
    ensures StoreAll(m, plan[..k + 1]).Store(plan[k].address, m.Bytes(plan[k].address, |plan[k].value|)) == StoreAll(m, plan[..k])
  {
    hide AllApart;
    assert plan[..k + 1][..k] == plan[..k];
    assert plan[k].value[..|plan[k].value|] == plan[k].value;
    UndoLast(m, plan, k, |plan[k].value|);
  }

  lemma NoStore(m: Memory, plan: seq<Mutation>)
    ensures StoreAll(m, plan[..0]) == m
  {
    assert plan[..0] == [];
  }

  lemma OneStore(m: Memory, x: Mutation)
    ensures StoreAll(m, [x]) == m.Store(x.address, x.value)
  {
    assert [x][..0] == [];
  }

  lemma PlanRecord(m: Memory, destination: u64, header: u64, code: u64)
    ensures var r := Plan(m, destination, header, code);
      r.Done? && r.value.record.hasProgramBinding ==>
        var record := r.value.record;
        && record.programAddress == record.codeAddress + record.programOffset && Encodable(record.programAddress)
        && record.programOffset < record.codeSize
  {
    hide CheckHeader, PlanPointers, PlanProgram, AddMutation;
  }
}
