/** Properties of the phase matcher after every sequence of operations:
    soundness, conservation, saturation at a checkpoint, and the exact meaning
    of "retransmit". */
module PhaseRuns {
  import opened Collections
  import opened Events
  import opened Phases
  import opened PhaseSteps

  /** A call of a public method of `PhaseMatcher`. */
  datatype Op =
    | AddEvent(e: Event)
    | TryMatchEverything
    | FindRepeatedConnections
    | EvictRetransmits(b: int)
    | EvictBatch(b: int)

  // -- retransmits -------------------------------------------------------------------------

  function SeenStep(before: set<Tuple>, op: Op, b: int): set<Tuple> {
    if op.AddEvent? && !IsRst(op.e.packet) && op.e.batchId == b then before + {TupleOf(op.e)}
    else if op == EvictRetransmits(b) then {}
    else before
  }

  /** Content of the retransmit cache for batch `b`. */
  function Seen(ops: seq<Op>, b: int): set<Tuple> {
    if ops == [] then {} else SeenStep(Seen(ops[..|ops| - 1], b), ops[|ops| - 1], b)
  }

  /** `is_retransmit` */
  predicate IsRetransmit(ops: seq<Op>, e: Event) {
    TupleOf(e) in Seen(ops, e.batchId) || (e.batchId > 0 && TupleOf(e) in Seen(ops, e.batchId - 1))
  }

  function RetransmitsStep(ops: seq<Op>, before: seq<Event>, op: Op, b: int): seq<Event> {
    if op.EvictRetransmits? then []
    else if op.AddEvent? && op.e.batchId == b && !IsRst(op.e.packet) && IsRetransmit(ops, op.e) then before + [op.e]
    else before
  }

  /** Events put aside as retransmits of batch `b`; every eviction forgets all of them. */
  function Retransmits(ops: seq<Op>, b: int): seq<Event> {
    if ops == [] then []
    else
      var n := |ops| - 1;
      RetransmitsStep(ops[..n], Retransmits(ops[..n], b), ops[n], b)
  }

  predicate Accepted(ops: seq<Op>, e: Event) {
    !IsRst(e.packet) && !IsRetransmit(ops, e)
  }

  /** Call `i` recorded `t` for batch `b`, and no later call cleared that batch. */
  predicate Records(ops: seq<Op>, i: nat, t: Tuple, b: int)
    requires i < |ops|
  {
    ops[i].AddEvent? && !IsRst(ops[i].e.packet) && ops[i].e.batchId == b && TupleOf(ops[i].e) == t &&
    EvictRetransmits(b) !in ops[i + 1..]
  }

  /** A record stays one until its batch is cleared. */
  lemma RecordsLater(ops: seq<Op>, i: nat, t: Tuple, b: int)
    requires i < |ops| - 1
    ensures Records(ops, i, t, b) <==> Records(ops[..|ops| - 1], i, t, b) && ops[|ops| - 1] != EvictRetransmits(b)
  {
    var n := |ops| - 1;
    assert ops[i + 1..] == ops[..n][i + 1..] + [ops[n]];
  }

  lemma {:induction false} SeenIsRecorded(ops: seq<Op>, t: Tuple, b: int) returns (i: nat)
    requires t in Seen(ops, b)
    ensures i < |ops| && Records(ops, i, t, b)
  {
    i := |ops| - 1;
    if !Records(ops, i, t, b) {
      var last := i;
      i := SeenIsRecorded(ops[..last], t, b);
      RecordsLater(ops, i, t, b);
    }
  }

  lemma {:induction false} RecordIsSeen(ops: seq<Op>, i: nat, t: Tuple, b: int)
    requires i < |ops| && Records(ops, i, t, b)
    ensures t in Seen(ops, b)
  {
    if i < |ops| - 1 {
      RecordsLater(ops, i, t, b);
      RecordIsSeen(ops[..|ops| - 1], i, t, b);
    }
  }

  /** A packet with these addresses, ports and sequence number is on record for batch `b`. */
  ghost predicate OnRecord(ops: seq<Op>, t: Tuple, b: int) {
    exists i :: 0 <= i < |ops| && Records(ops, i, t, b)
  }

  /** An event is a retransmit exactly if an earlier non-RST packet of the same or
      the previous batch had its addresses, ports and sequence number, and that
      batch's cache was not evicted in between. */
  lemma RetransmitExactly(ops: seq<Op>, e: Event)
    ensures IsRetransmit(ops, e) <==>
            OnRecord(ops, TupleOf(e), e.batchId) || (e.batchId > 0 && OnRecord(ops, TupleOf(e), e.batchId - 1))
  {
    SeenExactly(ops, TupleOf(e), e.batchId);
    SeenExactly(ops, TupleOf(e), e.batchId - 1);
  }

  lemma SeenExactly(ops: seq<Op>, t: Tuple, b: int)
    ensures t in Seen(ops, b) <==> OnRecord(ops, t, b)
  {
    if t in Seen(ops, b) {
      var i := SeenIsRecorded(ops, t, b);
      assert Records(ops, i, t, b);
    }
    if i :| 0 <= i < |ops| && Records(ops, i, t, b) {
      RecordIsSeen(ops, i, t, b);
    }
  }

  // -- the lists of one key after a run ---------------------------------------------------------

  function Step(ops: seq<Op>, c: Cell, op: Op, k: Key, timeout: int): Cell {
    match op
    case AddEvent(e) => if Accepted(ops, e) && KeyOf(e) == k then Add(c, e, timeout) else c
    case TryMatchEverything => MatchEverything(c, timeout)
    case FindRepeatedConnections => FindRepeated(c, timeout)
    case EvictRetransmits(_) => c
    case EvictBatch(b) => Evict(c, b)
  }

  function CellOf(ops: seq<Op>, k: Key, timeout: int): Cell {
    if ops == [] then EMPTY_CELL
    else
      var before := ops[..|ops| - 1];
      Step(before, CellOf(before, k, timeout), ops[|ops| - 1], k, timeout)
  }

  /** In every reachable state every list holds what it should, and every match is sound. */
  lemma {:induction false} RunIsSound(ops: seq<Op>, k: Key, timeout: int)
    ensures Sound(CellOf(ops, k, timeout), k, timeout)
  {
    if ops != [] {
      var before := ops[..|ops| - 1];
      var c := CellOf(before, k, timeout);
      RunIsSound(before, k, timeout);
      match ops[|ops| - 1]
      case AddEvent(e) =>
        if Accepted(before, e) && KeyOf(e) == k {
          AddSound(c, e, timeout);
        }
      case TryMatchEverything => MatchEverythingSound(c, k, timeout);
      case FindRepeatedConnections => FindRepeatedSound(c, k, timeout);
      case EvictRetransmits(_) =>
      case EvictBatch(b) => EvictSound(c, b, k, timeout);
    }
  }

  lemma CellOfSnoc(ops: seq<Op>, op: Op, k: Key, timeout: int)
    ensures CellOf(ops + [op], k, timeout) == Step(ops, CellOf(ops, k, timeout), op, k, timeout)
  {
    assert (ops + [op])[..|ops|] == ops;
  }

  lemma RetransmitsSnoc(ops: seq<Op>, op: Op, b: int)
    ensures Retransmits(ops + [op], b) == RetransmitsStep(ops, Retransmits(ops, b), op, b)
  {
    assert (ops + [op])[..|ops|] == ops;
  }

  lemma SeenSnoc(ops: seq<Op>, op: Op, b: int)
    ensures Seen(ops + [op], b) == SeenStep(Seen(ops, b), op, b)
  {
    assert (ops + [op])[..|ops|] == ops;
  }

  // -- soundness ---------------------------------------------------------------------------------

  /** Every two-phase record pairs an irregular with a regular SYN of the same
      addresses and destination port, the regular one inside the window of the
      irregular one's probe confirmation, and every ACK belongs to its SYN. */
  lemma TwoPhaseRecordsAreSound(ops: seq<Op>, k: Key, timeout: int, r: Record)
    requires r in CellOf(ops, k, timeout).twoPhase || r in CellOf(ops, k, timeout).twoPhaseNoAck
    ensures r.isyn.Some? && r.rsyn.Some?
    ensures KeyOf(r.isyn.value) == KeyOf(r.rsyn.value) == k
    ensures IsIrregularSyn(r.isyn.value.packet)
    ensures IsSyn(r.rsyn.value.packet) && !IsIrregularSyn(r.rsyn.value.packet)
    ensures WithinTimeout(r.isyn.value.confirmation, SynTs(r.rsyn.value), timeout)
    ensures r.iack.Some? ==> IsMatchingAck(r.isyn.value, r.iack.value)
    ensures r.rack.Some? ==> IsMatchingAck(r.rsyn.value, r.rack.value)
    ensures r in CellOf(ops, k, timeout).twoPhase ==> r.rack.Some?
  {
    RunIsSound(ops, k, timeout);
  }

  /** The request a shard makes for a SYN: ports swapped, and the acknowledgement
      number of section 3.4 of RFC 9293. */
  predicate ProbedByShard(syn: Event) {
    syn.request.Some? &&
    syn.request.value.dport == syn.packet.payload.sport &&
    syn.request.value.anum == (syn.packet.payload.snum + |syn.packet.payload.payload| / 2 + 1) % 0x1_0000_0000
  }

  /** With shard-made probes an ACK is accepted for a SYN exactly if it comes from
      the SYN's port and its sequence number is the first one after the SYN's
      payload (logged as hex, two digits a byte). */
  lemma MatchingAckMeansNextSequenceNumber(syn: Event, ack: Event)
    requires ProbedByShard(syn)
    ensures IsMatchingAck(syn, ack) <==>
            ack.packet.payload.sport == syn.packet.payload.sport &&
            ack.packet.payload.snum == (syn.packet.payload.snum + |syn.packet.payload.payload| / 2 + 1) % 0x1_0000_0000
  {
  }

  // -- conservation --------------------------------------------------------------------------------

  /** How often `x` was handed over and not filtered. */
  function Given(ops: seq<Op>, x: Event): nat {
    if ops == [] then 0
    else
      var before := ops[..|ops| - 1];
      Given(before, x) +
      if ops[|ops| - 1] == AddEvent(x) && Accepted(before, x) && Relevant(x) then 1 else 0
  }

  /** How often `x` appears in the rows returned by evictions. */
  function Written(ops: seq<Op>, x: Event, timeout: int): nat {
    if ops == [] then 0
    else
      var before := ops[..|ops| - 1];
      Written(before, x, timeout) +
      match ops[|ops| - 1]
      case EvictBatch(b) => RowsOcc(EvictRows(CellOf(before, KeyOf(x), timeout), b), x)
      case _ => 0
  }

  /** How often an eviction dropped `x` unwritten: a stale ACK, or part of a repeated connection. */
  function Dropped(ops: seq<Op>, x: Event, timeout: int): nat {
    if ops == [] then 0
    else
      var before := ops[..|ops| - 1];
      Dropped(before, x, timeout) +
      match ops[|ops| - 1]
      case EvictBatch(b) =>
        var c := CellOf(before, KeyOf(x), timeout);
        Occ(Filter(c.acks, InBatch(b)), x) + RecordsOcc(c.repeated, x)
      case _ => 0
  }

  /** Conservation: after any run, what was accepted is in the lists of its key, or was
      written, or was dropped, and in no other place. */
  lemma {:induction false} Conservation(ops: seq<Op>, x: Event, timeout: int)
    ensures CellOcc(CellOf(ops, KeyOf(x), timeout), x) + Written(ops, x, timeout) + Dropped(ops, x, timeout)
            == Given(ops, x)
  {
    if ops != [] {
      var before := ops[..|ops| - 1];
      var k := KeyOf(x);
      var c := CellOf(before, k, timeout);
      Conservation(before, x, timeout);
      RunIsSound(before, k, timeout);
      match ops[|ops| - 1]
      case AddEvent(e) =>
        if Accepted(before, e) && KeyOf(e) == k {
          AddOcc(c, e, x, timeout);
        }
      case TryMatchEverything => MatchEverythingOcc(c, x, k, timeout);
      case FindRepeatedConnections => FindRepeatedOcc(c, x, timeout);
      case EvictRetransmits(_) =>
      case EvictBatch(b) => EvictConserves(c, b, x);
    }
  }

  lemma {:induction false} OccZero(es: seq<Event>, x: Event)
    requires x !in es
    ensures Occ(es, x) == 0
  {
    if es != [] {
      OccZero(es[..|es| - 1], x);
    }
  }

  lemma {:induction false} RecordsOccZero(rs: seq<Record>, x: Event)
    requires forall r :: r in rs ==> RecordOcc(r, x) == 0
    ensures RecordsOcc(rs, x) == 0
  {
    if rs != [] {
      assert rs[|rs| - 1] in rs;
      RecordsOccZero(rs[..|rs| - 1], x);
    }
  }

  /** The lists of another key never hold `x`. */
  lemma OtherKeysHoldNothing(ops: seq<Op>, k: Key, x: Event, timeout: int)
    requires k != KeyOf(x)
    ensures CellOcc(CellOf(ops, k, timeout), x) == 0
  {
    var c := CellOf(ops, k, timeout);
    RunIsSound(ops, k, timeout);
    OccZero(c.irregularSyns, x);
    OccZero(c.regularSyns, x);
    OccZero(c.acks, x);
    RecordsOccZero(c.irregularAcked, x);
    RecordsOccZero(c.regularAcked, x);
    RecordsOccZero(c.twoPhaseNoAck, x);
    RecordsOccZero(c.twoPhase, x);
    RecordsOccZero(c.repeated, x);
  }

  lemma {:induction false} GivenOnce(ops: seq<Op>, x: Event)
    requires EvictRetransmits(x.batchId) !in ops
    ensures Given(ops, x) <= 1
    ensures Given(ops, x) == 1 ==> TupleOf(x) in Seen(ops, x.batchId)
  {
    if ops != [] {
      assert ops[|ops| - 1] in ops;
      GivenOnce(ops[..|ops| - 1], x);
    }
  }

  /** An accepted event occupies exactly one slot of exactly one list, or was written once,
      or was dropped once, however often it was handed over, until its batch's
      retransmit cache is evicted. */
  lemma ExactlyOnePlace(ops: seq<Op>, x: Event, timeout: int)
    requires EvictRetransmits(x.batchId) !in ops
    requires Given(ops, x) > 0
    ensures CellOcc(CellOf(ops, KeyOf(x), timeout), x) + Written(ops, x, timeout) + Dropped(ops, x, timeout) == 1
  {
    GivenOnce(ops, x);
    Conservation(ops, x, timeout);
  }

  // -- eviction --------------------------------------------------------------------------------------------

  /** An eviction removes exactly what is headed by a packet of the batch, and every repeated
      connection. */
  lemma EvictExactly(c: Cell, b: int, e: Event, r: Record)
    ensures var d := Evict(c, b);
            (e in d.irregularSyns <==> e in c.irregularSyns && e.batchId != b) &&
            (e in d.regularSyns <==> e in c.regularSyns && e.batchId != b) &&
            (e in d.acks <==> e in c.acks && e.batchId != b) &&
            (r in d.irregularAcked <==> r in c.irregularAcked && HeadNotInBatch(HeadIsyn, b)(r)) &&
            (r in d.regularAcked <==> r in c.regularAcked && HeadNotInBatch(HeadRsyn, b)(r)) &&
            (r in d.twoPhaseNoAck <==> r in c.twoPhaseNoAck && HeadNotInBatch(HeadIsyn, b)(r)) &&
            (r in d.twoPhase <==> r in c.twoPhase && HeadNotInBatch(HeadIsyn, b)(r)) && d.repeated == []
  {
    FilterMembers(c.irregularSyns, NotInBatch(b));
    FilterMembers(c.regularSyns, NotInBatch(b));
    FilterMembers(c.acks, NotInBatch(b));
    FilterMembers(c.irregularAcked, HeadNotInBatch(HeadIsyn, b));
    FilterMembers(c.regularAcked, HeadNotInBatch(HeadRsyn, b));
    FilterMembers(c.twoPhaseNoAck, HeadNotInBatch(HeadIsyn, b));
    FilterMembers(c.twoPhase, HeadNotInBatch(HeadIsyn, b));
  }

  /** The packet whose batch decides when a row is written. */
  function RowHead(row: Row): Option<Event> {
    if row.isyn.Some? then row.isyn else row.rsyn
  }

  predicate OfBatch(rows: seq<Row>, b: int) {
    forall i :: 0 <= i < |rows| ==> RowHead(rows[i]).Some? && RowHead(rows[i]).value.batchId == b
  }

  lemma EventRowsOfBatch(es: seq<Event>, tag: string, b: int)
    requires tag == "isyn" || tag == "rsyn"
    ensures OfBatch(Rows(Filter(es, InBatch(b)), EventRow(tag)), b)
  {
    FilterMembers(es, InBatch(b));
  }

  lemma RecordRowsOfBatch(rs: seq<Record>, h: Head, tag: string, b: int)
    requires h.HeadRsyn? ==> forall i :: 0 <= i < |rs| ==> rs[i].isyn.None?
    ensures OfBatch(Rows(Filter(rs, HeadInBatch(h, b)), RecordRow(h, tag)), b)
  {
    var f := Filter(rs, HeadInBatch(h, b));
    FilterMembers(rs, HeadInBatch(h, b));
    forall i | 0 <= i < |f|
      ensures RowHead(RecordRow(h, tag)(f[i])).Some? && RowHead(RecordRow(h, tag)(f[i])).value.batchId == b
    {
      assert f[i] in rs && HeadInBatch(h, b)(f[i]);
      if h.HeadRsyn? {
        var j :| 0 <= j < |rs| && rs[j] == f[i];
      }
    }
  }

  lemma OfBatchConcat(s: seq<Row>, t: seq<Row>, b: int)
    requires OfBatch(s, b) && OfBatch(t, b)
    ensures OfBatch(s + t, b)
  {
  }

  lemma EvictRowsAreOfBatch(c: Cell, b: int)
    requires forall i :: 0 <= i < |c.regularAcked| ==> c.regularAcked[i].isyn.None?
    ensures OfBatch(EvictRows(c, b), b)
  {
    EventRowsOfBatch(c.irregularSyns, "isyn", b);
    EventRowsOfBatch(c.regularSyns, "rsyn", b);
    RecordRowsOfBatch(c.irregularAcked, HeadIsyn, "isyn (acked)", b);
    RecordRowsOfBatch(c.regularAcked, HeadRsyn, "rsyn (acked)", b);
    RecordRowsOfBatch(c.twoPhaseNoAck, HeadIsyn, "two-phase (no ack)", b);
    RecordRowsOfBatch(c.twoPhase, HeadIsyn, "two-phase", b);
    var r0 := Rows(Filter(c.irregularSyns, InBatch(b)), EventRow("isyn"));
    var r1 := Rows(Filter(c.regularSyns, InBatch(b)), EventRow("rsyn"));
    var r2 := Rows(Filter(c.irregularAcked, HeadInBatch(HeadIsyn, b)), RecordRow(HeadIsyn, "isyn (acked)"));
    var r3 := Rows(Filter(c.regularAcked, HeadInBatch(HeadRsyn, b)), RecordRow(HeadRsyn, "rsyn (acked)"));
    var r4 := Rows(Filter(c.twoPhaseNoAck, HeadInBatch(HeadIsyn, b)), RecordRow(HeadIsyn, "two-phase (no ack)"));
    var r5 := Rows(Filter(c.twoPhase, HeadInBatch(HeadIsyn, b)), RecordRow(HeadIsyn, "two-phase"));
    OfBatchConcat(r0, r1, b);
    OfBatchConcat(r0 + r1, r2, b);
    OfBatchConcat(r0 + r1 + r2, r3, b);
    OfBatchConcat(r0 + r1 + r2 + r3, r4, b);
    OfBatchConcat(r0 + r1 + r2 + r3 + r4, r5, b);
  }

  /** In every reachable state the rows written for a batch are headed by packets of that batch. */
  lemma WrittenRowsAreOfBatch(ops: seq<Op>, k: Key, timeout: int, b: int)
    ensures OfBatch(EvictRows(CellOf(ops, k, timeout), b), b)
  {
    var c := CellOf(ops, k, timeout);
    RunIsSound(ops, k, timeout);
    forall i | 0 <= i < |c.regularAcked| ensures c.regularAcked[i].isyn.None? {
      assert c.regularAcked[i] in c.regularAcked;
    }
    EvictRowsAreOfBatch(c, b);
  }

  // -- saturation ---------------------------------------------------------------------------------------

  /** `ack` matches nothing an ACK could still be attached to. */
  predicate Unmatched(c: Cell, ack: Event) {
    (forall syn :: syn in c.regularSyns ==> !IsMatchingAck(syn, ack)) &&
    (forall syn :: syn in c.irregularSyns ==> !IsMatchingAck(syn, ack)) &&
    (forall r :: r in c.twoPhaseNoAck ==> r.rsyn.Some? ==> !IsMatchingAck(r.rsyn.value, ack))
  }

  lemma MatchAckNone(c: Cell, ack: Event)
    ensures MatchAck(c, ack).None? <==> Unmatched(c, ack)
  {
    var h := First(c.regularSyns, Ackable(ack));
    var i := First(c.irregularSyns, Ackable(ack));
    var j := First(c.twoPhaseNoAck, RsynAckable(ack));
    if h < |c.regularSyns| {
      assert c.regularSyns[h] in c.regularSyns && Ackable(ack)(c.regularSyns[h]);
    }
    if i < |c.irregularSyns| {
      assert c.irregularSyns[i] in c.irregularSyns && Ackable(ack)(c.irregularSyns[i]);
    }
    if j < |c.twoPhaseNoAck| {
      assert c.twoPhaseNoAck[j] in c.twoPhaseNoAck && RsynAckable(ack)(c.twoPhaseNoAck[j]);
    }
    assert forall syn :: syn in c.regularSyns && IsMatchingAck(syn, ack) ==> Ackable(ack)(syn);
    assert forall syn :: syn in c.irregularSyns && IsMatchingAck(syn, ack) ==> Ackable(ack)(syn);
    assert forall r :: r in c.twoPhaseNoAck && r.rsyn.Some? && IsMatchingAck(r.rsyn.value, ack) ==> RsynAckable(ack)(r);
  }

  lemma {:induction false} MatchAcksSaturates(c: Cell, acks: seq<Event>)
    ensures forall a :: a in MatchAcks(c, acks).1 ==> Unmatched(MatchAcks(c, acks).0, a)
  {
    if acks != [] {
      var n := |acks| - 1;
      MatchAcksSaturates(c, acks[..n]);
      MatchAckNone(MatchAcks(c, acks[..n]).0, acks[n]);
    }
  }

  predicate Saturated(c: Cell) {
    forall a :: a in c.acks ==> Unmatched(c, a)
  }

  lemma AcksPassSaturates(c: Cell)
    ensures Saturated(AcksPass(c))
  {
    MatchAcksSaturates(c, c.acks);
  }

  /** Matching phases offers an ACK nothing new. */
  lemma RsynsPassKeepsUnmatched(c: Cell, a: Event, timeout: int)
    requires Unmatched(c, a)
    ensures Unmatched(RsynsPass(c, timeout), a)
  {
  }

  lemma RsynsPassKeepsSaturated(c: Cell, timeout: int)
    requires Saturated(c)
    ensures Saturated(RsynsPass(c, timeout))
  {
    forall a | a in c.acks ensures Unmatched(RsynsPass(c, timeout), a) {
      RsynsPassKeepsUnmatched(c, a, timeout);
    }
  }

  lemma RsynsAckedPassKeepsSaturated(c: Cell, timeout: int)
    requires Saturated(c)
    ensures Saturated(RsynsAckedPass(c, timeout))
  {
  }

  /** After `try_match_everything` no ACK that is left matches a regular SYN, an irregular
      SYN, or the regular SYN of an unacknowledged two-phase record of its key. */
  lemma MatchEverythingSaturates(c: Cell, timeout: int)
    ensures Saturated(MatchEverything(c, timeout))
  {
    AcksPassSaturates(c);
    RsynsPassKeepsSaturated(AcksPass(c), timeout);
    RsynsAckedPassKeepsSaturated(RsynsPass(AcksPass(c), timeout), timeout);
  }

  /** `rseq` falls into the window of a record of `rs`. */
  predicate Repeats(rs: seq<Record>, rseq: Record, timeout: int) {
    rseq.rsyn.Some? && exists r :: r in rs && IsynOpen(SynTs(rseq.rsyn.value), timeout)(r)
  }

  lemma {:induction false} MatchRepeatsExactly(c: Cell, rseqs: seq<Record>, timeout: int)
    ensures var (d, keep) := MatchRepeats(c, rseqs, timeout);
            d == c.(repeated := d.repeated) && c.repeated <= d.repeated &&
            |d.repeated| - |c.repeated| + |keep| == |rseqs| &&
            forall r :: r in keep <==> r in rseqs && !Repeats(c.twoPhaseNoAck, r, timeout) && !Repeats(c.twoPhase, r, timeout)
  {
    if rseqs != [] {
      var n := |rseqs| - 1;
      var r := rseqs[n];
      assert r in rseqs;
      assert rseqs == rseqs[..n] + [r];
      MatchRepeatsExactly(c, rseqs[..n], timeout);
    }
  }

  /** After `find_repeated_connections` exactly the acknowledged regular SYNs outside
      the window of every two-phase record of their key remain; nothing else of the
      key changes except the list of repeated connections. */
  lemma FindRepeatedSaturates(c: Cell, timeout: int, r: Record)
    requires r.rsyn.Some?
    ensures var d := FindRepeated(c, timeout);
            r in d.regularAcked <==>
            r in c.regularAcked && !Repeats(d.twoPhaseNoAck, r, timeout) && !Repeats(d.twoPhase, r, timeout)
    ensures FindRepeated(c, timeout) ==
            c.(regularAcked := FindRepeated(c, timeout).regularAcked, repeated := FindRepeated(c, timeout).repeated)
  {
    MatchRepeatsExactly(c, c.regularAcked, timeout);
  }

  lemma CheckpointCell(ops: seq<Op>, k: Key, timeout: int)
    ensures CellOf(ops + [TryMatchEverything] + [FindRepeatedConnections], k, timeout) ==
            FindRepeated(MatchEverything(CellOf(ops, k, timeout), timeout), timeout)
  {
    CellOfSnoc(ops, TryMatchEverything, k, timeout);
    CellOfSnoc(ops + [TryMatchEverything], FindRepeatedConnections, k, timeout);
  }

  /** Both checkpoint steps in a row, in any reachable state: ACKs and acknowledged regular SYNs
      have found what there is for them, except first phases; see `PhaseCheckpoints`. */
  lemma CheckpointSaturates(ops: seq<Op>, k: Key, timeout: int)
    ensures var c := CellOf(ops + [TryMatchEverything] + [FindRepeatedConnections], k, timeout);
            Saturated(c) &&
            forall r :: r in c.regularAcked ==>
              r.rsyn.Some? && !Repeats(c.twoPhaseNoAck, r, timeout) && !Repeats(c.twoPhase, r, timeout)
  {
    CheckpointCell(ops, k, timeout);
    CellOfSnoc(ops, TryMatchEverything, k, timeout);
    MatchEverythingSaturates(CellOf(ops, k, timeout), timeout);
    var c := CellOf(ops + [TryMatchEverything], k, timeout);
    RunIsSound(ops + [TryMatchEverything], k, timeout);
    MatchRepeatsExactly(c, c.regularAcked, timeout);
  }

  // -- which list an arriving event joins ---------------------------------------------------------------

  /** `i` is the oldest entry satisfying `p`. */
  predicate Oldest<T>(s: seq<T>, p: T -> bool, i: nat) {
    i < |s| && p(s[i]) && forall j :: 0 <= j < i ==> !p(s[j])
  }

  lemma OldestIsFirst<T>(s: seq<T>, p: T -> bool, i: nat)
    requires Oldest(s, p, i)
    ensures First(s, p) == i < |s|
  {
    FirstUnique(s, p, i);
  }

  lemma NoOldest<T>(s: seq<T>, p: T -> bool)
    requires NoneOf(s, p)
    ensures First(s, p) == |s|
  {
    FirstUnique(s, p, |s|);
  }

  predicate NoneOf<T>(s: seq<T>, p: T -> bool) {
    forall i :: 0 <= i < |s| ==> !p(s[i])
  }

  /** An ACK makes the oldest regular SYN it matches an acknowledged one; only without any the
      oldest irregular SYN it matches; only without those it completes the oldest two-phase
      record whose regular SYN it matches; and else it waits.  Nothing else changes. */
  lemma AckPreference(c: Cell, ack: Event, timeout: int, i: nat)
    requires IsAck(ack.packet)
    ensures Oldest(c.regularSyns, Ackable(ack), i) ==>
              Add(c, ack, timeout) ==
              c.(regularSyns := c.regularSyns[..i] + c.regularSyns[i + 1..],
                 regularAcked := c.regularAcked + [Record(None, None, Some(c.regularSyns[i]), Some(ack), None)])
    ensures NoneOf(c.regularSyns, Ackable(ack)) && Oldest(c.irregularSyns, Ackable(ack), i) ==>
              Add(c, ack, timeout) ==
              c.(irregularSyns := c.irregularSyns[..i] + c.irregularSyns[i + 1..],
                 irregularAcked := c.irregularAcked + [Record(Some(c.irregularSyns[i]), Some(ack), None, None, None)])
    ensures NoneOf(c.regularSyns, Ackable(ack)) && NoneOf(c.irregularSyns, Ackable(ack)) &&
            Oldest(c.twoPhaseNoAck, RsynAckable(ack), i) ==>
              Add(c, ack, timeout) ==
              c.(twoPhaseNoAck := c.twoPhaseNoAck[..i] + c.twoPhaseNoAck[i + 1..],
                 twoPhase := c.twoPhase + [c.twoPhaseNoAck[i].(rack := Some(ack))])
    ensures Unmatched(c, ack) ==> Add(c, ack, timeout) == c.(acks := c.acks + [ack])
  {
    if Oldest(c.regularSyns, Ackable(ack), i) {
      OldestIsFirst(c.regularSyns, Ackable(ack), i);
    }
    if NoneOf(c.regularSyns, Ackable(ack)) {
      NoOldest(c.regularSyns, Ackable(ack));
      if Oldest(c.irregularSyns, Ackable(ack), i) {
        OldestIsFirst(c.irregularSyns, Ackable(ack), i);
      } else if NoneOf(c.irregularSyns, Ackable(ack)) && Oldest(c.twoPhaseNoAck, RsynAckable(ack), i) {
        NoOldest(c.irregularSyns, Ackable(ack));
        OldestIsFirst(c.twoPhaseNoAck, RsynAckable(ack), i);
      }
    }
    MatchAckNone(c, ack);
  }

  /** A regular SYN joins the oldest irregular SYN whose window it falls into as a two-phase
      record; only without any the oldest acknowledged one, whose ACK is kept; and else it
      waits.  Nothing else changes. */
  lemma RsynPreference(c: Cell, rsyn: Event, timeout: int, i: nat)
    requires IsSyn(rsyn.packet) && !IsIrregularSyn(rsyn.packet)
    ensures Oldest(c.irregularSyns, Open(SynTs(rsyn), timeout), i) ==>
              Add(c, rsyn, timeout) ==
              c.(irregularSyns := c.irregularSyns[..i] + c.irregularSyns[i + 1..],
                 twoPhaseNoAck := c.twoPhaseNoAck + [Record(Some(c.irregularSyns[i]), None, Some(rsyn), None, None)])
    ensures NoneOf(c.irregularSyns, Open(SynTs(rsyn), timeout)) && Oldest(c.irregularAcked, IsynOpen(SynTs(rsyn), timeout), i) ==>
              Add(c, rsyn, timeout) ==
              c.(irregularAcked := c.irregularAcked[..i] + c.irregularAcked[i + 1..],
                 twoPhaseNoAck := c.twoPhaseNoAck + [c.irregularAcked[i].(rsyn := Some(rsyn), rack := None)])
    ensures NoneOf(c.irregularSyns, Open(SynTs(rsyn), timeout)) && NoneOf(c.irregularAcked, IsynOpen(SynTs(rsyn), timeout)) ==>
              Add(c, rsyn, timeout) == c.(regularSyns := c.regularSyns + [rsyn])
  {
    if Oldest(c.irregularSyns, Open(SynTs(rsyn), timeout), i) {
      OldestIsFirst(c.irregularSyns, Open(SynTs(rsyn), timeout), i);
    }
    if NoneOf(c.irregularSyns, Open(SynTs(rsyn), timeout)) {
      NoOldest(c.irregularSyns, Open(SynTs(rsyn), timeout));
      if Oldest(c.irregularAcked, IsynOpen(SynTs(rsyn), timeout), i) {
        OldestIsFirst(c.irregularAcked, IsynOpen(SynTs(rsyn), timeout), i);
      } else if NoneOf(c.irregularAcked, IsynOpen(SynTs(rsyn), timeout)) {
        NoOldest(c.irregularAcked, IsynOpen(SynTs(rsyn), timeout));
      }
    }
  }
}
