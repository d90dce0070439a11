/** Exactly which buffers the decoder opens and the queues admit, and the reason given for
    every other one, in terms of the arguments, the limits and guest memory. */
module QueueAdmission {
  import opened Words
  import opened GuestMemory
  import opened Pm4
  import opened CommandProcessor
  import opened SubmissionQueue
  import opened QueueAccounting

  // -------------------------------------------------------------------- opening

  ghost predicate WellPlaced(limits: Limits, address: u64, dwords: u32) {
    address != 0 && address % 4 == 0 && 0 < dwords <= limits.maxBufferDwords
  }

  ghost predicate Reentered(frames: seq<Frame>, address: u64, dwords: u32) {
    exists i :: 0 <= i < |frames| && frames[i].address == address && |frames[i].words| == dwords
  }

  /** Each opened word is the little-endian word guest memory holds in its place. */
  ghost predicate CopyOf(f: Frame, m: Memory, address: u64, dwords: u32) {
    && f.address == address && f.offset == 0 && |f.words| == dwords
    && forall i :: 0 <= i < dwords ==> m.Read32(address + 4 * i) == Some(f.words[i])
  }

  lemma FetchCopies(limits: Limits, m: Memory, address: u64, dwords: u32)
    requires WellPlaced(limits, address, dwords) && m.CanRead(address, 4 * dwords)
    ensures var r := ReadDwords(limits, m, address, dwords);
      r.Fetched? && CopyOf(Frame(address, r.words, 0), m, address, dwords)
  {
    var bytes := m.Bytes(address, 4 * dwords);
    var words := ReadDwords(limits, m, address, dwords).words;
    forall i | 0 <= i < dwords ensures m.Read32(address + 4 * i) == Some(words[i]) {
      DecodeWordsAt(bytes, i);
      assert bytes[4 * i..4 * i + 4] == m.Bytes(address + 4 * i, 4);
    }
  }

  /** A buffer is opened exactly when the stack has room for it, it is not open already, and
      it is a readable, aligned, non-empty buffer within the limit. */
  lemma OpensExactly(limits: Limits, frames: seq<Frame>, m: Memory, address: u64, dwords: u32)
    ensures var r := OpenFrame(limits, frames, m, address, dwords);
      if |frames| > limits.maxIndirectDepth || Reentered(frames, address, dwords) then
        r == Refused(ResourceLimit, address, INDIRECT_BUFFER)
      else if !WellPlaced(limits, address, dwords) then r == Refused(InvalidArgument, address, 0)
      else if !m.CanRead(address, 4 * dwords) then r == Refused(MemoryFault, address, 0)
      else r.Opened? && CopyOf(r.frame, m, address, dwords)
  {
    if WellPlaced(limits, address, dwords) && m.CanRead(address, 4 * dwords) {
      FetchCopies(limits, m, address, dwords);
    }
  }

  ghost predicate Startable(limits: Limits, m: Memory, b: Buffer) {
    && WellPlaced(limits, b.address, b.dwords) && limits.maxActions != 0 && limits.maxProcessedDwords != 0
    && m.CanRead(b.address, 4 * b.dwords)
  }

  /** Why a buffer cannot be started: an argument or a limit is bad, or memory is. */
  ghost function StartError(limits: Limits, b: Buffer): Status {
    if WellPlaced(limits, b.address, b.dwords) && limits.maxActions != 0 && limits.maxProcessedDwords != 0
    then MemoryFault else InvalidArgument
  }

  /** A new cursor can run exactly when its buffer can be opened at the bottom of a stack and
      its limits allow anything at all. */
  lemma BeginsExactly(limits: Limits, m: Memory, b: Buffer)
    ensures var c := Begin(limits, m, b.address, b.dwords);
      && (c.terminal <==> !Startable(limits, m, b))
      && (c.terminal ==> c.result == Result(StartError(limits, b), b.address, 0) && c.frames == [])
      && (!c.terminal ==> |c.frames| == 1 && CopyOf(c.frames[0], m, b.address, b.dwords))
  {
    hide CopyOf, OpenFrame;
    OpensExactly(limits, [], m, b.address, b.dwords);
  }

  // ------------------------------------------------------------------ admission

  ghost predicate Allows(limits: QueueLimits) {
    limits.maxPendingSubmissions > 0 && limits.maxPendingRootDwords > 0 && limits.maxDrainPasses > 0
  }

  /** One buffer is admitted exactly when the limits leave room for it, it can be started and
      an id is left; otherwise the first of these that fails gives the reason. */
  lemma EnqueueExactly(st: QueueState, m: Memory, lane: Lane, b: Buffer, limits: QueueLimits)
    ensures var (_, a) := Enqueue(st, m, lane, b, limits);
      if !Allows(limits) || st.pendingSubmissions + 1 > limits.maxPendingSubmissions ||
         (b.dwords > 0 && st.pendingRootDwords + b.dwords > limits.maxPendingRootDwords) then a == Rejected(Limit)
      else if !Startable(limits.command, m, b) then
        a == Rejected(if StartError(limits.command, b) == MemoryFault then Fault else BadArgument)
      else if st.nextId == 0 then a == Rejected(Limit)
      else a == Accepted(st.nextId)
  {
    hide Begin;
    BeginsExactly(limits.command, m, b);
  }

  lemma {:induction false} OpensAllExactly(m: Memory, buffers: seq<Buffer>, limits: Limits)
    ensures var r := OpenAll(m, buffers, limits);
      && (r.AllOpen? <==> forall i :: 0 <= i < |buffers| ==> Startable(limits, m, buffers[i]))
      && (r.FirstBad? ==> exists k :: FirstRefused(limits, m, buffers, k) && r.status == StartError(limits, buffers[k]))
  {
    hide Begin, Startable, StartError;
    if buffers != [] {
      var n := |buffers| - 1;
      OpensAllExactly(m, buffers[..n], limits);
      BeginsExactly(limits, m, buffers[n]);
      var before, r := OpenAll(m, buffers[..n], limits), OpenAll(m, buffers, limits);
      if before.FirstBad? {
        var k :| FirstRefused(limits, m, buffers[..n], k) && before.status == StartError(limits, buffers[..n][k]);
        assert FirstRefused(limits, m, buffers, k);
      } else if r.FirstBad? {
        assert FirstRefused(limits, m, buffers, n);
      }
    }
  }

  ghost predicate FirstRefused(limits: Limits, m: Memory, buffers: seq<Buffer>, k: int) {
    && 0 <= k < |buffers| && !Startable(limits, m, buffers[k])
    && forall i :: 0 <= i < k ==> Startable(limits, m, buffers[i])
  }

  /** A batch is admitted exactly when it is not empty, fits the limits as a whole, has an id
      for each buffer and every buffer can be started. */
  lemma BatchExactly(st: QueueState, m: Memory, lane: Lane, buffers: seq<Buffer>, limits: QueueLimits)
    ensures var (_, a) := EnqueueBatch(st, m, lane, buffers, limits);
      var total := BufferDwords(buffers);
      if buffers == [] then a == Rejected(BadArgument)
      else if !Allows(limits) || st.pendingSubmissions + |buffers| > limits.maxPendingSubmissions ||
              st.pendingRootDwords + total > limits.maxPendingRootDwords ||
              st.nextId == 0 || st.nextId + |buffers| > TWO64 then a == Rejected(Limit)
      else if forall i :: 0 <= i < |buffers| ==> Startable(limits.command, m, buffers[i]) then
        a == Accepted(st.nextId)
      else
        exists k :: FirstRefused(limits.command, m, buffers, k) &&
          a == Rejected(if StartError(limits.command, buffers[k]) == MemoryFault then Fault else BadArgument)
  {
    hide Startable, OpenAll, BufferDwords;
    OpensAllExactly(m, buffers, limits.command);
  }

  /** The charge of a batch is the sum over its buffers, however it is cut in two. */
  lemma {:induction false} BatchCharge(a: seq<Buffer>, b: seq<Buffer>)
    ensures BufferDwords(a + b) == BufferDwords(a) + BufferDwords(b)
    ensures |a| == 1 ==> BufferDwords(a) == a[0].dwords
    decreases |b|
  {
    if b == [] {
      assert a + b == a;
    } else {
      var n := |b| - 1;
      assert (a + b)[..|a + b| - 1] == a + b[..n];
      BatchCharge(a, b[..n]);
    }
  }
}
