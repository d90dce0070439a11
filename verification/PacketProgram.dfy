/** A run of builder calls as a program, and the proof that the resumable decoder executes it. */
module PacketProgram {
  import opened Words
  import opened GuestMemory
  import opened Pm4
  import opened CommandProcessor
  import opened DecoderBounds
  import opened SpinReference
  import W = PacketWriter
  import R = PacketRun

  /** A request where the decoder meets it: its first word, the word after it, and what it asks. */
  datatype Placed = Placed(at: nat, next: nat, site: Site, instr: Instr)

  /** Carries out the requests of buffer `f` in order, busy-waiting at waits and entering the
      buffers that jumps name. */
  ghost function SpinProgram<S>(sink: Sink<S>, limits: Limits, f: Frame, program: seq<Placed>, core: Core<S>,
                                env: seq<Env<S>>): (r: SpinEnd<S>)
    requires core.processed <= limits.maxProcessedDwords
    ensures core.processed <= r.core.processed <= limits.maxProcessedDwords
    decreases |program|
  {
    if program == [] then Done(core, env)
    else
      var p, rest := program[0], program[1..];
      if p.site.dwords > limits.maxProcessedDwords - core.processed then
        Failed(core, env, ResourceLimit, p.site.address, p.site.opcode)
      else
        var charged := core.(processed := core.processed + p.site.dwords);
        ExecuteFacts(sink, limits, charged, p.site, p.instr, 0);
        match Execute(sink, limits, charged, p.site, p.instr, 0)
        case Halt(c, status, address, opcode) => Failed(c, env, status, address, opcode)
        case Go(c, Advance) => SpinProgram(sink, limits, f, rest, c, env)
        case Go(c, Hold(wait)) =>
          var w := SpinWait(c, wait, env);
          if w.Done? then SpinProgram(sink, limits, f, rest, w.core, w.env) else w
        case Go(c, Enter(target, dwords)) =>
          match OpenFrame(limits, [f.(offset := p.at)], c.world.memory, target, dwords)
          case Refused(status, address, opcode) => Failed(c, env, status, address, opcode)
          case Opened(callee) =>
            var inner := Spin(sink, limits, [f.(offset := p.next)], callee, c, env);
            if inner.Done? then SpinProgram(sink, limits, f, rest, inner.core, inner.env) else inner
  }

  /** The words of `f` from p.at to p.next are one packet that decodes to the placed request. */
  ghost predicate Holds(f: Frame, p: Placed) {
    && p.at < p.next <= |f.words| && f.address + 4 * p.at == p.site.address
    && ParseHeader(f.words[p.at]) == Type3(p.site.opcode, p.site.register, p.site.dwords)
    && p.site.dwords == p.next - p.at
    && Decode(p.site.opcode, p.site.register, f.words[p.at..p.next]) == p.instr
  }

  /** The placed requests follow each other from word `at` to the end of `f`. */
  ghost predicate Lies(f: Frame, program: seq<Placed>, at: nat)
    decreases |program|
  {
    if program == [] then at == |f.words|
    else program[0].at == at && Holds(f, program[0]) && Lies(f, program[1..], program[0].next)
  }

  lemma StepIsRequest<S>(sink: Sink<S>, limits: Limits, f: Frame, p: Placed, core: Core<S>)
    requires Holds(f, p) && core.processed <= limits.maxProcessedDwords
    ensures var here := f.(offset := p.at);
      && SizeAt(here) == p.site.dwords
      && PacketStep(sink, limits, here, 0, core) ==
         if p.site.dwords > limits.maxProcessedDwords - core.processed then Halt(core, ResourceLimit, p.site.address, p.site.opcode)
         else Execute(sink, limits, core.(processed := core.processed + p.site.dwords), p.site, p.instr, 0)
  {
    hide Decode, Execute, ParseHeader;
  }

  /** Interpreting the words is carrying out the requests. */
  lemma {:induction false} ProgramIsSpun<S>(sink: Sink<S>, limits: Limits, f: Frame, program: seq<Placed>, at: nat, core: Core<S>,
                                            env: seq<Env<S>>)
    requires Lies(f, program, at) && at <= |f.words| && core.processed <= limits.maxProcessedDwords
    ensures Spin(sink, limits, [], f.(offset := at), core, env) == SpinProgram(sink, limits, f, program, core, env)
    decreases |program|
  {
    hide PacketStep, SizeAt, SpinWait, Execute, Holds;
    if program != [] {
      var p, rest := program[0], program[1..];
      InBuffer(f, p);
      var here, after := f.(offset := at), f.(offset := p.next);
      StepIsRequest(sink, limits, f, p, core);
      PacketStepFacts(sink, limits, here, 0, core);
      assert here.Skip(SizeAt(here)) == after;
      assert [] + [here] == [here] && [] + [after] == [after];
      match PacketStep(sink, limits, here, 0, core) {
        case Go(c, Advance) => ProgramIsSpun(sink, limits, f, rest, p.next, c, env);
        case Go(c, Hold(wait)) =>
          var w := SpinWait(c, wait, env);
          if w.Done? { ProgramIsSpun(sink, limits, f, rest, p.next, w.core, w.env); }
        case Go(c, Enter(target, dwords)) =>
          match OpenFrame(limits, [here], c.world.memory, target, dwords) {
            case Opened(callee) =>
              var inner := Spin(sink, limits, [after], callee, c, env);
              if inner.Done? { ProgramIsSpun(sink, limits, f, rest, p.next, inner.core, inner.env); }
            case _ =>
          }
        case _ =>
      }
    }
  }

  lemma InBuffer(f: Frame, p: Placed)
    requires Holds(f, p)
    ensures p.at < p.next <= |f.words| && p.site.dwords == p.next - p.at
  {
  }

  // --------------------------------------------------------- the calls of a guest

  /** The k-th call of a run, placed after those before it. */
  function Place(up: u64, at: nat, x: R.Made, r: R.Request): Placed
    requires x.packet.Built? && x.packet == R.BuildRequest(x.memory, r) && |x.packet.words| < TWO32 && up + 4 * at < TWO64
  {
    Placed(at, at + |x.packet.words|, Site(up + 4 * at, |x.packet.words|, x.packet.opcode, x.packet.register), R.Denote(x.memory, r))
  }

  /** `program` is what the calls denote, from call `k` on. */
  ghost predicate Denotes(up: u64, made: seq<R.Made>, requests: seq<R.Request>, program: seq<Placed>, k: nat)
    requires k <= |made| == |requests| && (forall i :: 0 <= i < |made| ==> made[i].packet.Built?)
    decreases |program|
  {
    if program == [] then k == |made|
    else
      && k < |made|
      && made[k].packet == R.BuildRequest(made[k].memory, requests[k])
      && var at := W.Start(R.Packets(made), k);
      && |made[k].packet.words| < TWO32 && up + 4 * at < TWO64
      && program[0] == Place(up, at, made[k], requests[k])
      && Denotes(up, made, requests, program[1..], k + 1)
  }

  lemma {:induction false} ProgramLies(m: Memory, buffer: u64, requests: seq<R.Request>, k: nat) returns (program: seq<Placed>)
    requires R.Writable(m, buffer) && R.AppendRequests(m, buffer, requests).Ran? && R.AllReadBack(requests)
    requires k <= |requests|
    ensures var made, up := R.AppendRequests(m, buffer, requests).made, R.Origin(m, buffer);
      && |made| == |requests| && (forall i :: 0 <= i < |made| ==> made[i].packet.Built?)
      && Denotes(up, made, requests, program, k)
      && Lies(Frame(up, W.Flatten(R.Packets(made)), 0), program, W.Start(R.Packets(made), k))
    decreases |requests| - k
  {
    hide R.AppendRequests, R.BuildRequest, Decode, ParseHeader, W.Flatten, W.ReadState, R.Denote, R.Walk, W.AppendAll;
    R.RunAnswers(m, buffer, requests);
    var made, up := R.AppendRequests(m, buffer, requests).made, R.Origin(m, buffer);
    if k == |requests| {
      program := [];
      R.StartEnds(R.Packets(made));
    } else {
      var rest := ProgramLies(m, buffer, requests, k + 1);
      R.DecoderReadsRequests(m, buffer, requests, k);
      R.StartNext(R.Packets(made), k);
      program := [Place(up, W.Start(R.Packets(made), k), made[k], requests[k])] + rest;
      assert program[1..] == rest;
    }
  }

  /**
   * From argument lists to actions.  After any run of successful calls, a cursor begun at the
   * old buffer cursor and resumed through any outside steps does exactly what the argument
   * lists denote, in order.
   */
  lemma CallsAreCarriedOut<S(!new)>(sink: Sink<S>, limits: Limits, m: Memory, buffer: u64, requests: seq<R.Request>, dwords: u32,
                                    now: World<S>, env: seq<Env<S>>) returns (program: seq<Placed>)
    requires NeverBlocks(sink)
    requires R.Writable(m, buffer) && R.AppendRequests(m, buffer, requests).Ran? && R.AllReadBack(requests)
    requires dwords == |W.Flatten(R.Packets(R.AppendRequests(m, buffer, requests).made))|
    requires !Begin(limits, R.AppendRequests(m, buffer, requests).memory, R.Origin(m, buffer), dwords).terminal
    ensures var run, up := R.AppendRequests(m, buffer, requests), R.Origin(m, buffer);
      && |run.made| == |requests| && (forall i :: 0 <= i < |run.made| ==> run.made[i].packet.Built?)
      && Denotes(up, run.made, requests, program, 0)
      && WellFormed(Begin(limits, run.memory, up, dwords))
      && Agrees(RunResumed(sink, Begin(limits, run.memory, up, dwords), now, env),
                SpinProgram(sink, limits, Frame(up, W.Flatten(R.Packets(run.made)), 0), program, Core(now, 0, []), env))
  {
    hide R.AppendRequests, R.BuildRequest, W.Flatten, W.ReadState, W.AppendAll, Begin, RunResumed, Spin, SpinProgram, Agrees;
    var run, up := R.AppendRequests(m, buffer, requests), R.Origin(m, buffer);
    var packets := R.Packets(run.made);
    R.RunAnswers(m, buffer, requests);
    program := ProgramLies(m, buffer, requests, 0);
    R.StartEnds(packets);
    W.AppendAllWritten(m, buffer, packets);
    BegunFrame(limits, m, run.memory, up, W.Flatten(packets), dwords);
    BlockingRefinesSpinning(sink, limits, now.(memory := run.memory), now, up, dwords, env);
    ProgramIsSpun(sink, limits, Frame(up, W.Flatten(packets), 0), program, 0, Core(now, 0, []), env);
  }

  lemma BegunFrame(limits: Limits, m: Memory, last: Memory, up: u64, words: seq<u32>, dwords: u32)
    requires |words| == dwords && !Begin(limits, last, up, dwords).terminal
    requires m.CanRead(up, 4 * |words|) == last.CanRead(up, 4 * |words|)
    requires m.CanRead(up, 4 * |words|) ==> last.Read(up, 4 * |words|) == Some(EncodeWords(words))
    ensures Begin(limits, last, up, dwords).frames == [Frame(up, words, 0)]
  {
    hide EncodeWords, DecodeWords, Memory.CanRead;
    DecodeWordsEncodeWords(words);
  }
}
