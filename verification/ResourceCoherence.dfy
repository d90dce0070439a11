/** Which GPU resources the CPU has written since their last upload. */
module ResourceCoherence {
  import opened Words

  datatype Token = Token(mapping: nat, exhausted: bool)

  datatype Snapshot = Snapshot(generation: nat, exhausted: bool)

  datatype Record = Record(
    address: u64, size: u64, token: Token, generation: nat, precise: bool, needsUpload: bool, gpuPending: bool)

  datatype State = State(records: map<u64, Record>, next: u64)

  predicate ValidRange(address: u64, size: u64) { size != 0 && size <= TWO64 - 1 - address }

  predicate Overlap(a: int, n: int, b: int, k: int) { a < b + k && b < a + n }

  predicate Within(x: int, a: int, n: int) { a <= x < a + n }

  /** For ranges that do not wrap, the test finds exactly the shared bytes. */
  lemma OverlapShares(a: u64, n: u64, b: u64, k: u64)
    requires ValidRange(a, n) && ValidRange(b, k)
    ensures Overlap(a, n, b, k) <==> exists x: int :: Within(x, a, n) && Within(x, b, k)
  {
    if Overlap(a, n, b, k) {
      var x := if a < b then b else a;
      assert Within(x, a, n) && Within(x, b, k);
    }
  }

  // ------------------------------------------------------------- operations

  /** The memory's answers come with each call: its generation and the range's mapping token. */
  function Register(s: State, address: u64, size: u64, now: Snapshot, token: Option<Token>): (State, Option<u64>) {
    if !ValidRange(address, size) || token.None? || token.value.exhausted || s.next == 0 || s.next in s.records then (s, None)
    else
      (State(s.records[s.next := Record(address, size, token.value, now.generation, !now.exhausted, true, false)],
        (s.next + 1) % TWO64), Some(s.next))
  }

  function Unregister(s: State, id: u64): (State, bool) { (s.(records := s.records - {id}), id in s.records) }

  predicate Current(r: Record, token: Option<Token>) { token.Some? && !token.value.exhausted && token.value == r.token }

  predicate Usable(s: State, id: u64, token: Option<Token>) { id in s.records && Current(s.records[id], token) }

  function Acknowledge(s: State, id: u64, generation: nat, token: Option<Token>): (State, bool) {
    if !Usable(s, id, token) then (s, false)
    else
      var r := s.records[id];
      if !r.needsUpload || !r.precise || r.generation != generation then (s, false)
      else (s.(records := s.records[id := r.(needsUpload := false)]), true)
  }

  function SetGpuPending(s: State, id: u64, pending: bool, token: Option<Token>): (State, bool) {
    if !Usable(s, id, token) then (s, false)
    else (s.(records := s.records[id := s.records[id].(gpuPending := pending)]), true)
  }

  datatype Write = Write(address: u64, size: u64, generation: nat, exhausted: bool)

  predicate Hits(w: Write, address: u64, size: u64) { ValidRange(w.address, w.size) && Overlap(address, size, w.address, w.size) }

  function Touch(r: Record, w: Write): Record {
    if !Hits(w, r.address, r.size) then r
    else
      var newer := w.generation > r.generation;
      var precise := r.precise && !w.exhausted;
      r.(generation := if newer then w.generation else r.generation,
         precise := precise,
         needsUpload := r.needsUpload || newer || w.exhausted || !precise)
  }

  function OnWrite(s: State, w: Write): State { s.(records := map id | id in s.records :: Touch(s.records[id], w)) }

  // ------------------------------------------------------------- whole runs

  datatype Event =
    | Registered(address: u64, size: u64, now: Snapshot, token: Option<Token>)
    | Unregistered(id: u64)
    | Acknowledged(id: u64, generation: nat, token: Option<Token>)
    | GpuMarked(id: u64, pending: bool, token: Option<Token>)
    | Wrote(write: Write)

  function Step(s: State, e: Event): State {
    match e
    case Registered(address, size, now, token) => Register(s, address, size, now, token).0
    case Unregistered(id) => Unregister(s, id).0
    case Acknowledged(id, generation, token) => Acknowledge(s, id, generation, token).0
    case GpuMarked(id, pending, token) => SetGpuPending(s, id, pending, token).0
    case Wrote(write) => OnWrite(s, write)
  }

  const EMPTY := State(map[], 1)

  /** The state after the events, delivered in this order whatever their generations. */
  function After(es: seq<Event>): State {
    if es == [] then EMPTY else Step(After(es[..|es| - 1]), es[|es| - 1])
  }

  /** Identifiers are handed out once. */
  predicate IdsFresh(s: State) { forall id | id in s.records :: id != 0 && (s.next == 0 || id < s.next) }

  lemma {:induction false} IdsAlwaysFresh(es: seq<Event>)
    ensures IdsFresh(After(es))
  {
    if es != [] {
      IdsAlwaysFresh(es[..|es| - 1]);
    }
  }

  // ----------------------------------------------- no CPU write is lost

  predicate HitAt(es: seq<Event>, k: nat, address: u64, size: u64) {
    k < |es| && es[k].Wrote? && Hits(es[k].write, address, size)
  }

  /** The greatest of the generation at registration and those of overlapping writes since. */
  function Highest(es: seq<Event>, born: nat, address: u64, size: u64): nat
    requires born < |es| && es[born].Registered?
    decreases |es|
  {
    if |es| == born + 1 then es[born].now.generation
    else
      var before, e := Highest(es[..|es| - 1], born, address, size), es[|es| - 1];
      if e.Wrote? && Hits(e.write, address, size) && e.write.generation > before then e.write.generation else before
  }

  /** It is the start value or a delivered one, and no delivered one is above it. */
  lemma {:induction false} HighestIsMaximum(es: seq<Event>, born: nat, address: u64, size: u64)
    requires born < |es| && es[born].Registered?
    ensures es[born].now.generation <= Highest(es, born, address, size)
    ensures forall k | born < k && HitAt(es, k, address, size) :: es[k].write.generation <= Highest(es, born, address, size)
    ensures Highest(es, born, address, size) == es[born].now.generation
      || exists k :: born < k && HitAt(es, k, address, size) && es[k].write.generation == Highest(es, born, address, size)
    decreases |es|
  {
    if |es| > born + 1 {
      var fewer := es[..|es| - 1];
      HighestIsMaximum(fewer, born, address, size);
      forall k | born < k && HitAt(es, k, address, size)
        ensures es[k].write.generation <= Highest(es, born, address, size)
      {
        if k < |fewer| {
          assert HitAt(fewer, k, address, size);
        }
      }
      if Highest(es, born, address, size) != Highest(fewer, born, address, size) {
        assert HitAt(es, |es| - 1, address, size);
      } else if Highest(fewer, born, address, size) != es[born].now.generation {
        var k :| born < k && HitAt(fewer, k, address, size) && fewer[k].write.generation == Highest(fewer, born, address, size);
        assert HitAt(es, k, address, size);
      }
    }
  }

  /** The event that made record `id`, which has not been removed since. */
  ghost predicate Born(es: seq<Event>, born: nat, id: u64) {
    && born < |es| && es[born].Registered?
    && Register(After(es[..born]), es[born].address, es[born].size, es[born].now, es[born].token).1 == Some(id)
    && forall k | born < k < |es| :: es[k] != Unregistered(id)
  }

  ghost predicate LostPrecision(es: seq<Event>, born: nat, address: u64, size: u64)
    requires born < |es| && es[born].Registered?
  {
    es[born].now.exhausted || exists k :: born < k && HitAt(es, k, address, size) && es[k].write.exhausted
  }

  /** A successful acknowledgement of `generation` for the record. */
  ghost predicate AcknowledgedAt(es: seq<Event>, born: nat, id: u64, generation: nat, a: nat) {
    && born < a < |es| && es[a].Acknowledged? && es[a].id == id && es[a].generation == generation
    && Acknowledge(After(es[..a]), id, generation, es[a].token).1
  }

  /** What a record says of the events since it was made. */
  ghost predicate Faithful(es: seq<Event>, born: nat, id: u64, r: Record)
    requires born < |es| && es[born].Registered?
  {
    && r.address == es[born].address && r.size == es[born].size
    && r.generation == Highest(es, born, r.address, r.size)
    && (!r.precise <==> LostPrecision(es, born, r.address, r.size))
    && (forall g: nat, a: nat :: AcknowledgedAt(es, born, id, g, a) ==> g <= r.generation)
    && (!r.needsUpload <==> r.precise && exists a :: AcknowledgedAt(es, born, id, r.generation, a))
  }

  lemma BornEarlier(es: seq<Event>, born: nat, id: u64)
    requires es != [] && Born(es[..|es| - 1], born, id) && es[|es| - 1] != Unregistered(id)
    ensures Born(es, born, id)
  {
    assert es[..|es| - 1][..born] == es[..born];
  }

  /** How one event may change a record that exists before and after it. */
  predicate Changed(s: State, e: Event, id: u64, r: Record, r': Record) {
    && r'.address == r.address && r'.size == r.size
    && (e.Wrote? ==> r' == Touch(r, e.write))
    && (!e.Wrote? ==> r'.generation == r.generation && r'.precise == r.precise)
    && (!e.Wrote? && r'.needsUpload != r.needsUpload ==>
      e.Acknowledged? && e.id == id && e.generation == r.generation && r.precise && !r'.needsUpload
      && Acknowledge(s, id, e.generation, e.token).1)
    && (e.Acknowledged? && e.id == id && Acknowledge(s, id, e.generation, e.token).1 ==>
      e.generation == r.generation && !r'.needsUpload)
  }

  lemma StepChanges(s: State, e: Event, id: u64)
    requires IdsFresh(s) && id in s.records && id in Step(s, e).records
    ensures Changed(s, e, id, s.records[id], Step(s, e).records[id])
  {
  }

  lemma FaithfulStep(es: seq<Event>, born: nat, id: u64, r: Record, r': Record)
    requires es != [] && Born(es[..|es| - 1], born, id) && Faithful(es[..|es| - 1], born, id, r)
    requires Changed(After(es[..|es| - 1]), es[|es| - 1], id, r, r')
    ensures Faithful(es, born, id, r')
  {
    hide After, Acknowledge, Overlap, ValidRange, LostPrecision;
    var fewer, last := es[..|es| - 1], |es| - 1;
    PrecisionStep(es, born, r.address, r.size);
    forall g, a: nat | a != last
      ensures AcknowledgedAt(es, born, id, g, a) <==> AcknowledgedAt(fewer, born, id, g, a)
    {
      if born < a < last { assert fewer[..a] == es[..a]; }
    }
    assert es[..last] == fewer;
    if !r'.needsUpload {
      if !r.needsUpload {
        var a: nat :| AcknowledgedAt(fewer, born, id, r.generation, a);
        assert AcknowledgedAt(es, born, id, r'.generation, a);
      } else {
        assert AcknowledgedAt(es, born, id, r'.generation, last);
      }
    }
  }

  lemma PrecisionStep(es: seq<Event>, born: nat, address: u64, size: u64)
    requires born < |es| - 1 && es[born].Registered?
    ensures LostPrecision(es, born, address, size)
      <==> LostPrecision(es[..|es| - 1], born, address, size) || (HitAt(es, |es| - 1, address, size) && es[|es| - 1].write.exhausted)
  {
    var fewer := es[..|es| - 1];
    if LostPrecision(fewer, born, address, size) && !es[born].now.exhausted {
      var k :| born < k && HitAt(fewer, k, address, size) && fewer[k].write.exhausted;
      assert HitAt(es, k, address, size);
    }
    if LostPrecision(es, born, address, size) && !es[born].now.exhausted {
      var k :| born < k && HitAt(es, k, address, size) && es[k].write.exhausted;
      assert k < |fewer| ==> HitAt(fewer, k, address, size);
    }
  }

  /**
   * Over every order of events, each record stands for one registration.  Its
   * generation is the greatest delivered to it, and it is clean exactly when it
   * has not lost precision and was acknowledged at that generation.
   */
  lemma {:induction false} NoWriteIsLost(es: seq<Event>, id: u64) returns (born: nat)
    requires id in After(es).records
    ensures Born(es, born, id) && Faithful(es, born, id, After(es).records[id])
  {
    hide Faithful, Changed;
    var fewer, e := es[..|es| - 1], es[|es| - 1];
    if id in After(fewer).records {
      born := NoWriteIsLost(fewer, id);
      BornEarlier(es, born, id);
      IdsAlwaysFresh(fewer);
      StepChanges(After(fewer), e, id);
      FaithfulStep(es, born, id, After(fewer).records[id], After(es).records[id]);
    } else {
      born := |es| - 1;
      NewbornFaithful(es, id);
    }
  }

  lemma NewbornFaithful(es: seq<Event>, id: u64)
    requires es != [] && id !in After(es[..|es| - 1]).records && id in After(es).records
    ensures Born(es, |es| - 1, id) && Faithful(es, |es| - 1, id, After(es).records[id])
  {
    hide Acknowledge, Hits;
    var s, e := After(es[..|es| - 1]), es[|es| - 1];
    NewRecord(s, e, id);
    assert After(es) == Step(s, e);
  }

  /** Only registration makes a record, and it makes a dirty one. */
  lemma NewRecord(s: State, e: Event, id: u64)
    requires id !in s.records && id in Step(s, e).records
    ensures e.Registered? && Register(s, e.address, e.size, e.now, e.token).1 == Some(id) && e.token.Some?
    ensures Step(s, e).records[id] ==
      Record(e.address, e.size, e.token.value, e.now.generation, !e.now.exhausted, true, false)
  {
  }

  /** A range is valid exactly when it is not empty and its end is an address. */
  lemma RangeExactly(address: u64, size: u64)
    ensures ValidRange(address, size) <==> size > 0 && address + size < TWO64
  {
  }

  /** A resource is registered exactly when its range is valid and mapped and an unused id is
      left; it starts dirty, at the generation and with the precision of the moment. */
  lemma RegisterExactly(s: State, address: u64, size: u64, now: Snapshot, token: Option<Token>)
    ensures var (n, id) := Register(s, address, size, now, token);
      && (id.Some? <==> size > 0 && address + size < TWO64 && token.Some? && !token.value.exhausted
                        && s.next != 0 && s.next !in s.records)
      && (id.None? ==> n == s)
      && (id.Some? ==>
            && id.value == s.next && n.next == (if s.next == TWO64 - 1 then 0 else s.next + 1)
            && n.records.Keys == s.records.Keys + {s.next}
            && (forall k :: k in s.records ==> n.records[k] == s.records[k])
            && n.records[s.next] == Record(address, size, token.value, now.generation, !now.exhausted, true, false))
  {
  }

  /** A pending mark is set exactly on a current record and changes nothing else. */
  lemma MarkExactly(s: State, id: u64, pending: bool, token: Option<Token>)
    ensures var (n, ok) := SetGpuPending(s, id, pending, token);
      && (ok <==> id in s.records && token == Some(s.records[id].token) && !s.records[id].token.exhausted)
      && (!ok ==> n == s)
      && (ok ==> n == s.(records := s.records[id := s.records[id].(gpuPending := pending)]))
  {
  }

  /** An acknowledgement is accepted exactly for a current, precise, dirty record at its own
      generation, and then cleans that record and no other. */
  lemma AcknowledgeExactly(s: State, id: u64, generation: nat, token: Option<Token>)
    ensures var (n, ok) := Acknowledge(s, id, generation, token);
      && (ok <==> id in s.records && token == Some(s.records[id].token) && !s.records[id].token.exhausted
                  && s.records[id].precise && s.records[id].needsUpload && s.records[id].generation == generation)
      && (!ok ==> n == s)
      && (ok ==> n == s.(records := s.records[id := s.records[id].(needsUpload := false)]))
  {
  }

  /** A newer write that hits a precise record can be acknowledged, at its own generation and at
      no other. */
  lemma WriteThenAcknowledge(s: State, id: u64, w: Write, generation: nat)
    requires id in s.records && !s.records[id].token.exhausted && s.records[id].precise
    requires Hits(w, s.records[id].address, s.records[id].size) && w.generation > s.records[id].generation
    requires !w.exhausted
    ensures Acknowledge(OnWrite(s, w), id, generation, Some(s.records[id].token)).1 <==> generation == w.generation
  {
    hide Hits;
  }

  /** Lost precision is permanent: no later event makes the record clean. */
  lemma {:induction false} NeverCleanAgain(es: seq<Event>, more: seq<Event>, id: u64)
    requires id in After(es).records && !After(es).records[id].precise
    requires id in After(es + more).records && (forall k | 0 <= k < |more| :: more[k] != Unregistered(id))
    ensures !After(es + more).records[id].precise && After(es + more).records[id].needsUpload
    decreases |more|
  {
    if more == [] {
      assert es + more == es;
      var born := NoWriteIsLost(es, id);
    } else {
      var fewer, e := more[..|more| - 1], more[|more| - 1];
      assert (es + more)[..|es + more| - 1] == es + fewer && e == (es + more)[|es + more| - 1];
      StaysRegistered(es, fewer, id);
      NeverCleanAgain(es, fewer, id);
      IdsAlwaysFresh(es + fewer);
      StepChanges(After(es + fewer), e, id);
      var born := NoWriteIsLost(es + more, id);
    }
  }

  lemma {:induction false} StaysRegistered(es: seq<Event>, more: seq<Event>, id: u64)
    requires id in After(es).records && (forall k | 0 <= k < |more| :: more[k] != Unregistered(id))
    ensures id in After(es + more).records
    decreases |more|
  {
    if more == [] {
      assert es + more == es;
    } else {
      var fewer := more[..|more| - 1];
      assert (es + more)[..|es + more| - 1] == es + fewer && more[|more| - 1] == (es + more)[|es + more| - 1];
      StaysRegistered(es, fewer, id);
    }
  }

  // -------------------------------------------------------------- the class

  datatype Report = Report(
    mapped: bool, mappingChanged: bool, needsUpload: bool, gpuPending: bool, precise: bool, generation: nat)

  class Coherence {
    var records: map<u64, Record>
    var nextId: u64

    function Contents(): State
      reads this
    {
      State(records, nextId)
    }

    constructor ()
      ensures Contents() == EMPTY
    {
      records, nextId := map[], 1;
    }

    method RegisterResource(address: u64, size: u64, now: Snapshot, token: Option<Token>) returns (id: Option<u64>)
      modifies this
      ensures (Contents(), id) == Register(old(Contents()), address, size, now, token)
    {
      if !ValidRange(address, size) || token.None? || token.value.exhausted || nextId == 0 || nextId in records {
        return None;
      }
      id := Some(nextId);
      records := records[nextId := Record(address, size, token.value, now.generation, !now.exhausted, true, false)];
      nextId := (nextId + 1) % TWO64;
    }

    method UnregisterResource(id: u64) returns (ok: bool)
      modifies this`records
      ensures (Contents(), ok) == Unregister(old(Contents()), id)
    {
      ok := id in records;
      records := records - {id};
    }

    method Query(id: u64, token: Option<Token>) returns (r: Option<Report>)
      ensures r.Some? <==> id in records
      ensures r.Some? ==> var rec := records[id];
        && (r.value.mappingChanged <==> !Current(rec, token)) && (r.value.mapped <==> token.Some?)
        && r.value.needsUpload == rec.needsUpload && r.value.gpuPending == rec.gpuPending
        && r.value.precise == rec.precise && r.value.generation == rec.generation
    {
      if id !in records {
        return None;
      }
      var rec := records[id];
      r := Some(Report(token.Some?, token.None? || token.value.exhausted || token.value != rec.token,
        rec.needsUpload, rec.gpuPending, rec.precise, rec.generation));
    }

    method AcknowledgeCpuUpload(id: u64, generation: nat, token: Option<Token>) returns (ok: bool)
      modifies this`records
      ensures (Contents(), ok) == Acknowledge(old(Contents()), id, generation, token)
    {
      if id !in records || !Current(records[id], token) {
        return false;
      }
      var rec := records[id];
      if !rec.needsUpload || !rec.precise || rec.generation != generation {
        return false;
      }
      records := records[id := rec.(needsUpload := false)];
      ok := true;
    }

    method MarkGpuWrite(id: u64, pending: bool, token: Option<Token>) returns (ok: bool)
      modifies this`records
      ensures (Contents(), ok) == SetGpuPending(old(Contents()), id, pending, token)
    {
      if id !in records || !Current(records[id], token) {
        return false;
      }
      records := records[id := records[id].(gpuPending := pending)];
      ok := true;
    }

    /** Fails closed on a bad range; otherwise finds exactly the overlapping pending writers. */
    method HasGpuWritePendingOverlap(address: u64, size: u64) returns (found: bool)
      ensures found <==> (!ValidRange(address, size)
        || exists id :: id in records && records[id].gpuPending && Overlap(address, size, records[id].address, records[id].size))
    {
      if !ValidRange(address, size) {
        return true;
      }
      var left := records.Keys;
      while left != {}
        invariant left <= records.Keys
        invariant forall id | id in records && id !in left :: !(records[id].gpuPending && Overlap(address, size, records[id].address, records[id].size))
      {
        var id :| id in left;
        if records[id].gpuPending && Overlap(address, size, records[id].address, records[id].size) {
          return true;
        }
        left := left - {id};
      }
      found := false;
    }

    /** The order in which records are visited does not matter. */
    method OnGuestMemoryWrite(w: Write)
      modifies this`records
      ensures Contents() == OnWrite(old(Contents()), w)
    {
      if !ValidRange(w.address, w.size) {
        assert OnWrite(Contents(), w).records == records;
        return;
      }
      var left := records.Keys;
      while left != {}
        invariant left <= old(records).Keys == records.Keys
        invariant forall id | id in left :: records[id] == old(records)[id]
        invariant forall id | id in records && id !in left :: records[id] == Touch(old(records)[id], w)
      {
        var id :| id in left;
        var rec := records[id];
        if Overlap(rec.address, rec.size, w.address, w.size) {
          var newer := w.generation > rec.generation;
          if newer {
            rec := rec.(generation := w.generation);
          }
          if w.exhausted {
            rec := rec.(precise := false);
          }
          if newer || w.exhausted || !rec.precise {
            rec := rec.(needsUpload := true);
          }
        }
        records := records[id := rec];
        left := left - {id};
      }
      assert records == OnWrite(State(old(records), nextId), w).records;
    }
  }
}
