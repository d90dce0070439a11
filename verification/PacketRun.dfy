/** From argument lists to the decoder: packets are built and appended one call after another,
    and the decoder, started at the old cursor, carries out what the calls denote. */
module PacketRun {
  import opened Words
  import opened GuestMemory
  import opened Pm4
  import opened PacketBuilder
  import opened PacketRoundTrip
  import opened PacketWriter
  import P = CommandProcessor

  // ------------------------------------------------------------------ requests

  /** One call of the guest-facing interface. */
  datatype Request =
    | Agc(t: AgcType, args: seq<u64>)
    | NopPacket(dwords: u32)
    | DispatchPacket(x: u32, y: u32, z: u32, modifier: u32)

  function BuildAgc(m: Memory, t: AgcType, args: seq<u64>): Build {
    if args == [] then BuildError(BadArgument)
    else match t
      case DrawIndex => BuildDraw(t, args)
      case DrawIndexMultiInstanced => BuildDraw(t, args)
      case DrawIndexAuto => BuildDraw(t, args)
      case DrawIndexOffset => BuildDraw(t, args)
      case BaseIndirectArgs => BuildBase(args)
      case WriteDataPacket => BuildWriteData(m, args)
      case ReleaseMemoryPacket => BuildRelease(args)
      case EventWritePacket => BuildEvent(args)
      case WaitRegMem => BuildWait(args)
      case _ => BuildSimple(t, args)
  }

  /** The packet a request asks for, built against the memory it is written into. */
  function BuildRequest(m: Memory, r: Request): Build {
    match r
    case Agc(t, args) => BuildAgc(m, t, args)
    case NopPacket(dwords) => BuildNop(dwords)
    case DispatchPacket(x, y, z, modifier) => BuildDispatch(x, y, z, modifier)
  }

  function DenoteAgc(m: Memory, t: AgcType, args: seq<u64>): Instr
    requires BuildAgc(m, t, args).Built?
  {
    match t
    case DrawIndex => Plain(Draw, DrawValues(t, args), [])
    case DrawIndexMultiInstanced => Plain(Draw, DrawValues(t, args), [])
    case DrawIndexAuto => Plain(Draw, DrawValues(t, args), [])
    case DrawIndexOffset => Plain(Draw, DrawValues(t, args), [])
    case BaseIndirectArgs => DenoteBase(args)
    case WriteDataPacket => DenoteWriteData(m, args)
    case ReleaseMemoryPacket => DenoteRelease(args)
    case EventWritePacket => DenoteEvent(args)
    case WaitRegMem => DenoteWait(args)
    case _ => DenoteSimple(t, args)
  }

  /** What the caller asked for, in terms of the arguments alone. */
  function Denote(m: Memory, r: Request): Instr
    requires BuildRequest(m, r).Built?
  {
    match r
    case Agc(t, args) => DenoteAgc(m, t, args)
    case NopPacket(_) => Plain(Nop, [], [])
    case DispatchPacket(x, y, z, modifier) => Plain(Dispatch, [x, y, z, DispatchModifier(modifier), 0], [])
  }

  /** The two packets that are not read back: the longest NOP-opcode packet, and a base address
      for a shader type that does not exist. */
  predicate ReadsBack(r: Request) {
    match r
    case Agc(WriteDataPacket, args) => Arg32(args, 5) != 0x3ffd
    case Agc(BaseIndirectArgs, args) => Arg32(args, 1) <= 1
    case Agc(_, _) => true
    case NopPacket(dwords) => dwords != MAXIMUM_PACKET_DWORDS
    case DispatchPacket(_, _, _, _) => true
  }

  /** The packet starts with the header of its own opcode, register and length. */
  ghost predicate Headed(b: Build) {
    && b.Built? && 2 <= |b.words| <= MAXIMUM_PACKET_DWORDS && b.opcode < 0x100 && b.register < 0x40
    && b.words[0] == MakeHeader(|b.words|, b.opcode, b.register)
  }

  lemma AgcHeaded(m: Memory, t: AgcType, args: seq<u64>)
    ensures var b := BuildAgc(m, t, args); b.Built? && t != BaseIndirectArgs ==> Headed(b)
  {
    hide RoundDown, And, Arg32, ReleaseOk, Memory.Read, MakeHeader, DispatchModifier, DrawIndexInitiator, Wait32Control, Wait64Control, WaitPoll, DecodeWords,
         ReleaseControl, ReleaseSelect, ReleaseValue, ReleaseAddress, WriteControl, EventControl, Low, High, AtLeastOne, Arg;
  }

  lemma AgcLength(m: Memory, t: AgcType, args: seq<u64>)
    ensures var b := BuildAgc(m, t, args);
      b.Built? ==>
        if t == WriteDataPacket then b.opcode == NOP && |b.words| == 4 + Arg32(args, 5) else 2 <= |b.words| <= 9
  {
    hide MakeHeader, DispatchModifier, DrawIndexInitiator, Wait32Control, Wait64Control, WaitPoll, RoundDown, DecodeWords,
         ReleaseControl, ReleaseSelect, ReleaseValue, ReleaseAddress, WriteControl, EventControl, Low, High, AtLeastOne, Arg;
  }

  lemma AgcDecodes(m: Memory, t: AgcType, args: seq<u64>)
    requires BuildAgc(m, t, args).Built? && t != BaseIndirectArgs
    ensures var b := BuildAgc(m, t, args);
      |b.words| >= 1 && Decode(b.opcode, b.register, b.words) == DenoteAgc(m, t, args)
  {
    hide Decode, BuildSimple, BuildDraw, BuildRelease, BuildEvent, BuildWait, BuildWriteData, DenoteSimple, DrawValues,
         DenoteWait, DenoteEvent, DenoteRelease, DenoteWriteData;
    AgcLength(m, t, args);
    match t {
      case DrawIndex => DrawRoundTrip(t, args);
      case DrawIndexMultiInstanced => DrawRoundTrip(t, args);
      case DrawIndexAuto => DrawRoundTrip(t, args);
      case DrawIndexOffset => DrawRoundTrip(t, args);
      case WriteDataPacket => WriteDataRoundTrip(m, args);
      case ReleaseMemoryPacket => ReleaseRoundTrip(args);
      case EventWritePacket => EventRoundTrip(args);
      case WaitRegMem => WaitRoundTrip(args);
      case SetShRegisterDirect => RegisterRoundTrip(t, args);
      case SetCxRegisterDirect => RegisterRoundTrip(t, args);
      case SetUcRegisterDirect => RegisterRoundTrip(t, args);
      case IndexSize => RegisterRoundTrip(t, args);
      case Jump => AddressRoundTrip(t, args);
      case SetPredication => AddressRoundTrip(t, args);
      case GetLodStats => AddressRoundTrip(t, args);
      case _ => IndexRoundTrip(t, args);
    }
  }

  /** The packet reads back as one packet of its own opcode, register and length, which denotes
      what the arguments do. */
  ghost predicate Faithful(m: Memory, r: Request)
    requires BuildRequest(m, r).Built?
  {
    var b := BuildRequest(m, r);
    && |b.words| >= 2 && ParseHeader(b.words[0]) == Type3(b.opcode, b.register, |b.words|)
    && Decode(b.opcode, b.register, b.words) == Denote(m, r)
  }

  /** Building and decoding undo each other for exactly the requests that read back. */
  lemma RequestReadsBack(m: Memory, r: Request)
    requires BuildRequest(m, r).Built?
    ensures Faithful(m, r) <==> ReadsBack(r)
  {
    hide Decode, ParseHeader, MakeHeader, BuildAgc, DenoteAgc, BuildBase;
    match r {
      case Agc(t, args) =>
        AgcHeaded(m, t, args);
        AgcLength(m, t, args);
        var b := BuildAgc(m, t, args);
        if t == BaseIndirectArgs {
          BaseIsFaithful(m, args);
        } else {
          AgcDecodes(m, t, args);
          HeaderRoundTrip(|b.words|, b.opcode, b.register);
        }
      case NopPacket(dwords) =>
        HeaderRoundTrip(dwords, NOP, 0);
        NopDecodes(dwords);
      case DispatchPacket(x, y, z, modifier) =>
        HeaderRoundTrip(5, DISPATCH_DIRECT, 0);
        DispatchRoundTrip(x, y, z, modifier);
    }
  }

  lemma BaseIsFaithful(m: Memory, args: seq<u64>)
    requires BuildAgc(m, BaseIndirectArgs, args).Built?
    ensures Faithful(m, Agc(BaseIndirectArgs, args)) <==> Arg32(args, 1) <= 1
  {
    hide Decode, ParseHeader, MakeHeader;
    BaseRoundTrip(args);
  }

  lemma NopDecodes(dwords: u32)
    requires 2 <= dwords <= MAXIMUM_PACKET_DWORDS
    ensures var b := BuildNop(dwords);
      |b.words| == dwords && b.opcode == NOP && b.register == 0 && Decode(NOP, 0, b.words) == Plain(Nop, [], [])
  {
    hide MakeHeader;
  }

  // ---------------------------------------------------------------- many calls

  /** A packet and the memory it was built against. */
  datatype Made = Made(memory: Memory, packet: Build)

  datatype Run = Ran(memory: Memory, made: seq<Made>) | Stopped(status: BuildStatus)

  /** The calls of a guest one after the other, up to the first that fails. */
  function AppendRequests(m: Memory, buffer: u64, requests: seq<Request>): Run
    decreases |requests|
  {
    if requests == [] then Ran(m, [])
    else
      match BuildRequest(m, requests[0])
      case BuildError(status) => Stopped(status)
      case Built(opcode, register, words) =>
        match Append(m, buffer, words)
        case Refused(status) => Stopped(status)
        case Appended(m', _) =>
          match AppendRequests(m', buffer, requests[1..])
          case Stopped(status) => Stopped(status)
          case Ran(last, made) => Ran(last, [Made(m, Built(opcode, register, words))] + made)
  }

  function Packets(made: seq<Made>): (r: seq<seq<u32>>)
    ensures |r| == |made|
  {
    seq(|made|, k requires 0 <= k < |made| => if made[k].packet.Built? then made[k].packet.words else [])
  }

  /** Each packet was built from its own request, against the memory the earlier ones left. */
  ghost predicate Answers(m: Memory, buffer: u64, requests: seq<Request>, last: Memory, made: seq<Made>) {
    && |made| == |requests|
    && (forall k :: 0 <= k < |made| ==> made[k].packet.Built? && made[k].packet == BuildRequest(made[k].memory, requests[k]))
    && (forall k :: 0 <= k < |made| ==> AppendAll(m, buffer, Packets(made)[..k]) == AllAppended(made[k].memory))
    && AppendAll(m, buffer, Packets(made)) == AllAppended(last)
  }

  lemma {:induction false} RunAnswers(m: Memory, buffer: u64, requests: seq<Request>)
    requires AppendRequests(m, buffer, requests).Ran?
    ensures var run := AppendRequests(m, buffer, requests); Answers(m, buffer, requests, run.memory, run.made)
    decreases |requests|
  {
    hide Append, BuildRequest;
    if requests != [] {
      var run := AppendRequests(m, buffer, requests);
      var m' := Append(m, buffer, run.made[0].packet.words).memory;
      RunAnswers(m', buffer, requests[1..]);
      var rest := AppendRequests(m', buffer, requests[1..]).made;
      assert run.made[1..] == rest;
      var packets := Packets(run.made);
      assert packets[1..] == Packets(rest);
      forall k | 0 <= k < |run.made|
        ensures AppendAll(m, buffer, packets[..k]) == AllAppended(run.made[k].memory)
      {
        if k > 0 {
          assert packets[..k][1..] == Packets(rest)[..k - 1];
        }
      }
    }
  }

  // ------------------------------------------------------ the decoder's own walk

  /** Where the decoder stands after `n` packets of a buffer, by its own rule for their sizes. */
  function Walk(words: seq<u32>, n: nat): Option<nat> {
    if n == 0 then Some(0)
    else
      match Walk(words, n - 1)
      case None => None
      case Some(at) => if at < |words| then Some(at + P.SizeAt(P.Frame(0, words, at))) else None
  }

  lemma StartNext(packets: seq<seq<u32>>, k: nat)
    requires k < |packets|
    ensures Start(packets, k + 1) == Start(packets, k) + |packets[k]|
  {
    FlattenSplit(packets[..k + 1], k);
    assert packets[..k + 1][..k] == packets[..k] && packets[..k + 1][k..] == [packets[k]];
    assert Flatten([packets[k]]) == packets[k] + Flatten([]);
  }

  lemma StartEnds(packets: seq<seq<u32>>)
    ensures Start(packets, 0) == 0 && Start(packets, |packets|) == |Flatten(packets)|
  {
    assert packets[..|packets|] == packets;
  }

  ghost predicate AllFramed(packets: seq<seq<u32>>) { forall k :: 0 <= k < |packets| ==> Framed(packets[k]) }

  /** The walk from the first word meets every packet at its own start. */
  lemma {:induction false} WalkMeetsPackets(packets: seq<seq<u32>>, k: nat)
    requires AllFramed(packets) && k <= |packets|
    ensures Walk(Flatten(packets), k) == Some(Start(packets, k))
  {
    hide Flatten, ParseHeader;
    StartEnds(packets);
    if k > 0 {
      WalkMeetsPackets(packets, k - 1);
      PacketAt(packets, k - 1);
      StartNext(packets, k - 1);
      assert Flatten(packets)[Start(packets, k - 1)] == packets[k - 1][0];
    }
  }

  // ----------------------------------------------------------- what it finds

  /** The old cursor: where the packets of a run begin. */
  function Origin(m: Memory, buffer: u64): u64
    requires ReadState(m, buffer).Some?
  {
    ReadState(m, buffer).value.up
  }

  ghost predicate Writable(m: Memory, buffer: u64) {
    ReadState(m, buffer).Some? && Separate(buffer, ReadState(m, buffer).value)
  }

  ghost predicate AllReadBack(requests: seq<Request>) { forall k :: 0 <= k < |requests| ==> ReadsBack(requests[k]) }

  lemma {:induction false} RunFramed(m: Memory, buffer: u64, requests: seq<Request>)
    requires AppendRequests(m, buffer, requests).Ran? && AllReadBack(requests)
    ensures var made := AppendRequests(m, buffer, requests).made;
      && |made| == |requests|
      && (forall k :: 0 <= k < |made| ==>
            && made[k].packet.Built? && BuildRequest(made[k].memory, requests[k]) == made[k].packet
            && Faithful(made[k].memory, requests[k]))
      && AllFramed(Packets(made))
  {
    hide AppendRequests, BuildRequest, Decode, ParseHeader, AppendAll;
    RunAnswers(m, buffer, requests);
    var made := AppendRequests(m, buffer, requests).made;
    forall k | 0 <= k < |made|
      ensures Faithful(made[k].memory, requests[k]) && Framed(Packets(made)[k])
    {
      RequestReadsBack(made[k].memory, requests[k]);
    }
  }

  /** The k-th request as the decoder meets it, `at` words into the buffer. */
  ghost predicate MeetsRequest(words: seq<u32>, at: nat, next: nat, x: Made, r: Request)
    requires x.packet.Built? && x.packet == BuildRequest(x.memory, r)
  {
    && at < next <= |words|
    && var h := ParseHeader(words[at]);
    && h.Type3? && h.opcode == x.packet.opcode && h.register == x.packet.register && h.dwords == next - at
    && Decode(x.packet.opcode, x.packet.register, words[at..next]) == Denote(x.memory, r)
  }

  /** The k-th call of a run, undone by the decoder. */
  ghost predicate Undone(m: Memory, buffer: u64, requests: seq<Request>, last: Memory, made: seq<Made>, k: nat)
    requires Writable(m, buffer) && k < |requests|
  {
    && |made| == |requests|
    && (forall i :: 0 <= i < |made| ==> made[i].packet.Built?)
    && var up, packets := Origin(m, buffer), Packets(made);
    && var words := Flatten(packets);
    && var at, next := Start(packets, k), Start(packets, k + 1);
    && made[k].packet == BuildRequest(made[k].memory, requests[k])
    && AppendAll(m, buffer, packets[..k]) == AllAppended(made[k].memory)
    && Walk(words, k) == Some(at) && Walk(words, k + 1) == Some(next) && Walk(words, |requests|) == Some(|words|)
    && up + 4 * |words| < TWO64
    && ReadState(last, buffer) == Some(ReadState(m, buffer).value.(up := up + 4 * |words|))
    && MeetsRequest(words, at, next, made[k], requests[k])
    && (m.CanRead(up, 4 * |words|) ==>
          last.Read(up, 4 * |words|) == Some(EncodeWords(words)) && GetPacketSize(last, up + 4 * at) == Some(next - at))
  }

  /**
   * Builders and decoder undo each other over every run of calls.  The decoder's walk from the
   * old cursor meets the packets in turn, at the end of the last it stands at the new cursor,
   * and each packet has its request's opcode and register and decodes to what the request
   * denotes.  Where the buffer can be read, it holds those words and the size query agrees.
   */
  lemma DecoderReadsRequests(m: Memory, buffer: u64, requests: seq<Request>, k: nat)
    requires Writable(m, buffer) && AppendRequests(m, buffer, requests).Ran? && AllReadBack(requests)
    requires k < |requests|
    ensures var run := AppendRequests(m, buffer, requests); Undone(m, buffer, requests, run.memory, run.made, k)
  {
    hide AppendRequests, BuildRequest, Decode, ParseHeader, AppendAll, Flatten, ReadState, Memory.CanRead, EncodeWords, Walk, GetPacketSize;
    var run, up := AppendRequests(m, buffer, requests), Origin(m, buffer);
    RunAnswers(m, buffer, requests);
    RunFramed(m, buffer, requests);
    var packets := Packets(run.made);
    var words := Flatten(packets);
    AppendAllWritten(m, buffer, packets);
    WalkMeetsPackets(packets, k);
    WalkMeetsPackets(packets, k + 1);
    WalkMeetsPackets(packets, |packets|);
    StartNext(packets, k);
    StartEnds(packets);
    PacketAt(packets, k);
    assert words[Start(packets, k)] == packets[k][0];
    if m.CanRead(up, 4 * |words|) {
      AppendedStart(m, buffer, packets);
      SizeAgrees(run.memory, up, words, Start(packets, k), packets[k]);
    }
  }

  // -------------------------------------------------------------- what is refused

  /** The arguments each packet kind insists on. */
  ghost predicate Buildable(t: AgcType, args: seq<u64>) {
    match t
    case DrawIndex => Arg(args, 2) != 0 && Arg(args, 2) % 2 == 0
    case DrawIndexMultiInstanced => Arg(args, 2) != 0 && Arg(args, 2) % 2 == 0 && Arg(args, 3) != 0
    case IndexBuffer => Arg(args, 1) % 2 == 0
    case WriteDataPacket => Arg(args, 4) != 0 && Arg32(args, 5) <= 0x3ffd
    case ReleaseMemoryPacket => Arg32(args, 3) <= 1 && Arg32(args, 6) in {0, 1, 2, 3, 5} && Arg32(args, 10) <= 4
    case EventWritePacket => Arg32(args, 1) < 0x40
    case WaitRegMem => Arg32(args, 1) < 2 && Arg32(args, 2) < 8 && Arg32(args, 3) < 5 && Arg32(args, 4) < 4
    case _ => true
  }

  /** A builder refuses exactly the arguments its kind does not take, and a write also a source
      it cannot read. */
  lemma BuildsExactly(m: Memory, t: AgcType, args: seq<u64>)
    ensures var b := BuildAgc(m, t, args);
      if args == [] || !Buildable(t, args) then b == BuildError(BadArgument)
      else if t == WriteDataPacket && Arg32(args, 5) > 0 && !m.CanRead(Arg(args, 4), 4 * Arg32(args, 5)) then
        b == BuildError(Fault)
      else b.Built?
  {
    hide Packet, MakeHeader, WriteControl, ReleaseControl, ReleaseSelect, ReleaseValue, ReleaseAddress,
         EventControl, Wait32Control, Wait64Control, WaitPoll, DispatchModifier, DrawIndexInitiator,
         RoundDown, DecodeWords, Low, High;
  }

  lemma NopsExactly(dwords: u32)
    ensures BuildNop(dwords).Built? <==> 2 <= dwords <= 0x4001
  {
    hide MakeHeader;
  }
}
