/** What every reachable cursor satisfies: the decoder stays inside its limits, at any
    nesting depth and for buffers that call themselves. */
module DecoderBounds {
  import opened Words
  import opened GuestMemory
  import opened Pm4
  import opened CommandProcessor

  predicate SameBuffer(f: Frame, g: Frame) {
    f.address == g.address && |f.words| == |g.words|
  }

  ghost predicate StackOk(limits: Limits, frames: seq<Frame>) {
    && |frames| <= limits.maxIndirectDepth + 1
    && (forall i :: 0 <= i < |frames| ==>
          frames[i].offset <= |frames[i].words| && 0 < |frames[i].words| <= limits.maxBufferDwords)
    && (forall i, j :: 0 <= i < j < |frames| ==> !SameBuffer(frames[i], frames[j]))
  }

  /** The wait belongs to the packet the top frame stands at, which fits in its frame. */
  ghost predicate WaitAt(frames: seq<Frame>, wait: PendingWait) {
    && frames != []
    && Top(frames).offset < |Top(frames).words|
    && wait.packetDwords == SizeAt(Top(frames))
    && Top(frames).offset + wait.packetDwords <= |Top(frames).words|
    && 1 <= wait.function_ <= 6
  }

  ghost predicate WellFormed(c: Cursor) {
    && c.processed <= c.limits.maxProcessedDwords
    && |c.log| <= c.limits.maxActions
    && StackOk(c.limits, c.frames)
    && (c.pending.Some? ==> WaitAt(c.frames, c.pending.value))
    && (!c.terminal ==> c.frames != [])
  }

  lemma {:induction false} ApplyRegistersLog<S>(sink: Sink<S>, limits: Limits, core: Core<S>, space: Space,
                                                site: Site, entries: seq<RegisterEntry>)
    ensures core.log <= ApplyRegisters(sink, limits, core, space, site, entries).core.log
    decreases |entries|
  {
    if entries != [] {
      var s := ApplyRegister(sink, limits, core, space, site, entries[0]);
      if s.Go? { ApplyRegistersLog(sink, limits, s.core, space, site, entries[1..]); }
    }
  }

  /** The action of a wait packet that carries the value which failed the first poll. */
  ghost predicate IsWait(a: Action, wait: PendingWait) {
    && a.kind == WaitMemory && a.site.address == wait.packetAddress && |a.values| == 8
    && a.values[0] == wait.address && a.values[1] == wait.mask && a.values[2] == wait.reference
    && a.values[4] == wait.function_
    && !CompareWait(a.values[3], wait.reference, wait.mask, wait.function_)
  }

  /** A wait leaves one action behind, its own. */
  ghost predicate WaitLogged(before: seq<Action>, after: seq<Action>, wait: PendingWait) {
    |after| == |before| + 1 && before <= after && IsWait(after[|before|], wait)
  }

  /** The last action of a parked cursor is the wait it is parked at. */
  ghost predicate ParkedOnLast(c: Cursor) {
    c.pending.Some? ==> c.log != [] && IsWait(c.log[|c.log| - 1], c.pending.value)
  }

  lemma ExecuteWaitLog<S>(sink: Sink<S>, limits: Limits, core: Core<S>, site: Site, i: Instr)
    requires i.Wait?
    ensures var s := ExecuteWait(sink, limits, core, site, i);
      && core.log <= s.core.log
      && (s.Go? && s.effect.Hold? ==>
            WaitLogged(core.log, s.core.log, s.effect.wait) && 1 <= s.effect.wait.function_ <= 6)
  {
    hide Poll;
  }

  lemma ExecuteLog<S>(sink: Sink<S>, limits: Limits, core: Core<S>, site: Site, i: Instr, depth: nat)
    ensures var s := Execute(sink, limits, core, site, i, depth);
      && core.log <= s.core.log
      && (s.Go? && s.effect.Hold? ==> WaitLogged(core.log, s.core.log, s.effect.wait))
      && (s.Go? && s.effect.Hold? ==> 1 <= s.effect.wait.function_ <= 6)
  {
    hide ExecuteWait, ApplyRegisters, WaitLogged;
    match i {
      case Wait(_, _, _, _, _, _) => ExecuteWaitLog(sink, limits, core, site, i);
      case DirectRegisters(space, start, words) =>
        ApplyRegistersLog(sink, limits, core, space, site, DirectEntries(start, words));
        ApplyRegistersFacts(sink, limits, core, space, site, DirectEntries(start, words));
      case IndirectRegisters(space, table, count) =>
        if count <= limits.maxBufferDwords / 2 {
          var r := ReadDwords(limits, core.world.memory, table, 2 * count);
          if r.Fetched? {
            ApplyRegistersLog(sink, limits, core, space, site, TableEntries(table, r.words));
            ApplyRegistersFacts(sink, limits, core, space, site, TableEntries(table, r.words));
          }
        }
      case _ =>
    }
  }

  lemma PacketStepLog<S>(sink: Sink<S>, limits: Limits, f: Frame, depth: nat, core: Core<S>)
    requires f.offset < |f.words|
    requires core.processed <= limits.maxProcessedDwords
    ensures var s := PacketStep(sink, limits, f, depth, core);
      && core.log <= s.core.log
      && (s.Go? && s.effect.Hold? ==>
            WaitLogged(core.log, s.core.log, s.effect.wait) && 1 <= s.effect.wait.function_ <= 6)
  {
    hide Decode, Execute;
    var at := f.address + 4 * f.offset;
    match ParseHeader(f.words[f.offset]) {
      case Type3(opcode, register, dwords) =>
        if at < TWO64 && dwords <= |f.words| - f.offset {
          ExecuteLog(sink, limits, core.(processed := core.processed + dwords), Site(at, dwords, opcode, register),
                     Decode(opcode, register, f.words[f.offset..f.offset + dwords]), depth);
        }
      case _ =>
    }
  }

  ghost predicate StopOk<S>(limits: Limits, before: Core<S>, stop: Stop<S>) {
    && before.processed <= stop.core.processed <= limits.maxProcessedDwords
    && |stop.core.log| <= limits.maxActions
    && before.log <= stop.core.log
    && (!stop.Finished? ==> StackOk(limits, stop.frames) && stop.frames != [])
    && (stop.Parked? ==>
          && WaitAt(stop.frames, stop.wait) && |before.log| < |stop.core.log|
          && IsWait(stop.core.log[|stop.core.log| - 1], stop.wait))
  }

  /** Every run of the frame stack ends inside the limits; if it parks, it parks on the
      packet of its top frame, and the last action it submitted is that wait. */
  lemma {:induction false} RunFramesBounded<S>(sink: Sink<S>, limits: Limits, frames: seq<Frame>, core: Core<S>)
    requires Bounded(limits, frames, core) && StackOk(limits, frames) && |core.log| <= limits.maxActions
    ensures StopOk(limits, core, RunFrames(sink, limits, frames, core))
    decreases limits.maxProcessedDwords - core.processed, |frames|
  {
    hide PacketStep, SizeAt, IsWait;
    if frames != [] {
      var top, below := Top(frames), Below(frames);
      if top.offset == |top.words| {
        RunFramesBounded(sink, limits, below, core);
      } else {
        PacketStepFacts(sink, limits, top, |below|, core);
        PacketStepLog(sink, limits, top, |below|, core);
        var s := PacketStep(sink, limits, top, |below|, core);
        if s.Go? && s.effect.Advance? {
          RunFramesBounded(sink, limits, below + [top.Skip(SizeAt(top))], s.core);
        } else if s.Go? && s.effect.Enter? {
          var o := OpenFrame(limits, frames, s.core.world.memory, s.effect.target, s.effect.dwords);
          if o.Opened? {
            RunFramesBounded(sink, limits, below + [top.Skip(SizeAt(top)), o.frame], s.core);
          }
        }
      }
    }
  }

  lemma BeginWellFormed(limits: Limits, m: Memory, address: u64, dwords: u32)
    ensures var c := Begin(limits, m, address, dwords);
      && WellFormed(c) && ParkedOnLast(c) && c.log == [] && c.processed == 0 && c.pending.None?
      && (!c.terminal ==> |c.frames| == 1)
  {
  }

  /** Stepping over a wait that now holds stays inside the frame. */
  lemma ReleasedOk(c: Cursor, m: Memory)
    requires WellFormed(c) && c.pending.Some?
    ensures var check := CheckWait(c.frames, m, c.pending.value);
      && !check.Inconsistent?
      && (check.Released? ==> StackOk(c.limits, check.frames))
  {
    hide SizeAt;
  }

  lemma StackBounded<S>(limits: Limits, frames: seq<Frame>, core: Core<S>)
    requires StackOk(limits, frames) && core.processed <= limits.maxProcessedDwords
    ensures Bounded(limits, frames, core)
  {
  }

  /** Recording how decoding stopped gives a well-formed cursor again. */
  lemma SettleOk<S>(c: Cursor, core: Core<S>, stop: Stop<S>)
    requires WellFormed(c) && core.log == c.log && core.processed == c.processed && StopOk(c.limits, core, stop)
    ensures var n := Settle(c, stop);
      WellFormed(n) && ParkedOnLast(n) && n.limits == c.limits && c.log <= n.log && c.processed <= n.processed
  {
    hide IsWait, WaitAt;
  }

  /** Resuming keeps a cursor well formed, never takes the inconsistent branch, and only
      ever adds to the actions submitted. */
  lemma ResumeWellFormed<S>(sink: Sink<S>, c: Cursor, w: World<S>)
    requires WellFormed(c)
    ensures var r := Resume(sink, c, w);
      && WellFormed(r.0) && r.0.limits == c.limits && c.log <= r.0.log && c.processed <= r.0.processed
    ensures c.pending.Some? ==> !CheckWait(c.frames, w.memory, c.pending.value).Inconsistent?
    ensures ParkedOnLast(c) ==> ParkedOnLast(Resume(sink, c, w).0)
  {
    hide RunFrames, IsWait, WaitAt, StackOk, CheckWait, StopOk, Settle;
    var core := Core(w, c.processed, c.log);
    if c.pending.Some? {
      ReleasedOk(c, w.memory);
    }
    if !c.terminal {
      var frames := if c.pending.None? then c.frames else
        (var check := CheckWait(c.frames, w.memory, c.pending.value); if check.Released? then check.frames else c.frames);
      StackBounded(c.limits, frames, core);
      RunFramesBounded(sink, c.limits, frames, core);
      SettleOk(c, core, RunFrames(sink, c.limits, frames, core));
    }
  }
}
