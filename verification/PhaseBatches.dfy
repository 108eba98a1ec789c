/** A batch that owes no rows owes none for ever, unless more of its events arrive. */
module PhaseBatches {
  import opened Collections
  import opened Events
  import opened Phases
  import opened PhaseRuns

  predicate NoEventOf(es: seq<Event>, b: int) {
    forall e :: e in es ==> e.batchId != b
  }

  predicate NoRecordOf(rs: seq<Record>, h: Head, b: int) {
    forall r :: r in rs ==> !HeadInBatch(h, b)(r)
  }

  /** No packet of batch `b` heads anything an eviction would write. */
  predicate Headless(c: Cell, b: int) {
    NoEventOf(c.irregularSyns, b) && NoEventOf(c.regularSyns, b) &&
    NoRecordOf(c.irregularAcked, HeadIsyn, b) && NoRecordOf(c.regularAcked, HeadRsyn, b) &&
    NoRecordOf(c.twoPhaseNoAck, HeadIsyn, b) && NoRecordOf(c.twoPhase, HeadIsyn, b)
  }

  lemma NoEventRows(es: seq<Event>, b: int)
    ensures Filter(es, InBatch(b)) == [] <==> NoEventOf(es, b)
  {
    FilterMembers(es, InBatch(b));
    if NoEventOf(es, b) {
      FilterNone(es, InBatch(b));
    }
  }

  lemma NoRecordRows(rs: seq<Record>, h: Head, b: int)
    ensures Filter(rs, HeadInBatch(h, b)) == [] <==> NoRecordOf(rs, h, b)
  {
    FilterMembers(rs, HeadInBatch(h, b));
    if NoRecordOf(rs, h, b) {
      FilterNone(rs, HeadInBatch(h, b));
    }
  }

  lemma OwesNothingExactly(c: Cell, b: int)
    ensures EvictRows(c, b) == [] <==> Headless(c, b)
  {
    NoEventRows(c.irregularSyns, b);
    NoEventRows(c.regularSyns, b);
    NoRecordRows(c.irregularAcked, HeadIsyn, b);
    NoRecordRows(c.regularAcked, HeadRsyn, b);
    NoRecordRows(c.twoPhaseNoAck, HeadIsyn, b);
    NoRecordRows(c.twoPhase, HeadIsyn, b);
    assert |EvictRows(c, b)| ==
           |Filter(c.irregularSyns, InBatch(b))| + |Filter(c.regularSyns, InBatch(b))| +
           |Filter(c.irregularAcked, HeadInBatch(HeadIsyn, b))| + |Filter(c.regularAcked, HeadInBatch(HeadRsyn, b))| +
           |Filter(c.twoPhaseNoAck, HeadInBatch(HeadIsyn, b))| + |Filter(c.twoPhase, HeadInBatch(HeadIsyn, b))|;
  }

  // -- no operation brings one back --------------------------------------------------------------

  lemma MatchAckHeadless(c: Cell, ack: Event, b: int)
    requires Headless(c, b)
    ensures MatchAck(c, ack).Some? ==> Headless(MatchAck(c, ack).value, b)
  {
    var h, i := First(c.regularSyns, Ackable(ack)), First(c.irregularSyns, Ackable(ack));
    var j := First(c.twoPhaseNoAck, RsynAckable(ack));
    if h < |c.regularSyns| {
      assert c.regularSyns[h] in c.regularSyns;
    } else if i < |c.irregularSyns| {
      assert c.irregularSyns[i] in c.irregularSyns;
    } else if j < |c.twoPhaseNoAck| {
      assert c.twoPhaseNoAck[j] in c.twoPhaseNoAck && !HeadInBatch(HeadIsyn, b)(c.twoPhaseNoAck[j]);
    }
  }

  lemma MatchRsynHeadless(c: Cell, rsyn: Event, timeout: int, b: int)
    requires Headless(c, b)
    ensures MatchRsyn(c, rsyn, timeout).Some? ==> Headless(MatchRsyn(c, rsyn, timeout).value, b)
  {
    var i := First(c.irregularSyns, Open(SynTs(rsyn), timeout));
    var j := First(c.irregularAcked, IsynOpen(SynTs(rsyn), timeout));
    if i < |c.irregularSyns| {
      assert c.irregularSyns[i] in c.irregularSyns;
    } else if j < |c.irregularAcked| {
      assert c.irregularAcked[j] in c.irregularAcked && !HeadInBatch(HeadIsyn, b)(c.irregularAcked[j]);
    }
  }

  lemma MatchRsynAckedHeadless(c: Cell, p2: Record, timeout: int, b: int)
    requires Headless(c, b)
    ensures MatchRsynAcked(c, p2, timeout).Some? ==> Headless(MatchRsynAcked(c, p2, timeout).value, b)
  {
    if p2.rsyn.Some? {
      var ts := SynTs(p2.rsyn.value);
      var i, j := First(c.irregularSyns, Open(ts, timeout)), First(c.irregularAcked, IsynOpen(ts, timeout));
      if i < |c.irregularSyns| {
        assert c.irregularSyns[i] in c.irregularSyns;
      } else if j < |c.irregularAcked| {
        assert c.irregularAcked[j] in c.irregularAcked && !HeadInBatch(HeadIsyn, b)(c.irregularAcked[j]);
      }
    }
  }

  lemma AddHeadless(c: Cell, e: Event, timeout: int, b: int)
    requires Headless(c, b) && e.batchId != b
    ensures Headless(Add(c, e, timeout), b)
  {
    MatchRsynHeadless(c, e, timeout, b);
    MatchAckHeadless(c, e, b);
  }

  lemma {:induction false} MatchAcksHeadless(c: Cell, acks: seq<Event>, b: int)
    requires Headless(c, b)
    ensures Headless(MatchAcks(c, acks).0, b)
  {
    if acks != [] {
      var n := |acks| - 1;
      MatchAcksHeadless(c, acks[..n], b);
      MatchAckHeadless(MatchAcks(c, acks[..n]).0, acks[n], b);
    }
  }

  lemma RsynsPassHeadless(c: Cell, timeout: int, b: int)
    requires Headless(c, b)
    ensures Headless(RsynsPass(c, timeout), b)
  {
    var i := First(c.regularSyns, HasFirstPhase(c, timeout));
    if i < |c.regularSyns| {
      MatchRsynHeadless(c, c.regularSyns[i], timeout, b);
    }
  }

  lemma RsynsAckedPassHeadless(c: Cell, timeout: int, b: int)
    requires Headless(c, b)
    ensures Headless(RsynsAckedPass(c, timeout), b)
  {
    var i := First(c.regularAcked, HasFirstPhaseAcked(c, timeout));
    if i < |c.regularAcked| {
      MatchRsynAckedHeadless(c, c.regularAcked[i], timeout, b);
    }
  }

  lemma MatchEverythingHeadless(c: Cell, timeout: int, b: int)
    requires Headless(c, b)
    ensures Headless(MatchEverything(c, timeout), b)
  {
    MatchAcksHeadless(c, c.acks, b);
    RsynsPassHeadless(AcksPass(c), timeout, b);
    RsynsAckedPassHeadless(RsynsPass(AcksPass(c), timeout), timeout, b);
  }

  lemma FindRepeatedHeadless(c: Cell, timeout: int, b: int)
    requires Headless(c, b)
    ensures Headless(FindRepeated(c, timeout), b)
  {
    MatchRepeatsExactly(c, c.regularAcked, timeout);
  }

  lemma EvictHeadless(c: Cell, other: int, b: int)
    requires Headless(c, b)
    ensures Headless(Evict(c, other), b)
  {
    FilterMembers(c.irregularSyns, NotInBatch(other));
    FilterMembers(c.regularSyns, NotInBatch(other));
    FilterMembers(c.irregularAcked, HeadNotInBatch(HeadIsyn, other));
    FilterMembers(c.regularAcked, HeadNotInBatch(HeadRsyn, other));
    FilterMembers(c.twoPhaseNoAck, HeadNotInBatch(HeadIsyn, other));
    FilterMembers(c.twoPhase, HeadNotInBatch(HeadIsyn, other));
  }

  lemma StepHeadless(ops: seq<Op>, c: Cell, op: Op, k: Key, timeout: int, b: int)
    requires Headless(c, b) && (op.AddEvent? ==> op.e.batchId != b)
    ensures Headless(Step(ops, c, op, k, timeout), b)
  {
    match op
    case AddEvent(e) => AddHeadless(c, e, timeout, b);
    case TryMatchEverything => MatchEverythingHeadless(c, timeout, b);
    case FindRepeatedConnections => FindRepeatedHeadless(c, timeout, b);
    case EvictRetransmits(_) =>
    case EvictBatch(other) => EvictHeadless(c, other, b);
  }

  // -- runs ----------------------------------------------------------------------------------------

  /** No event of batch `b` is handed over. */
  predicate NoneAdded(ops: seq<Op>, b: int) {
    forall i :: 0 <= i < |ops| && ops[i].AddEvent? ==> ops[i].e.batchId != b
  }

  lemma NextOwesNothing(ops: seq<Op>, op: Op, k: Key, timeout: int, b: int)
    requires EvictRows(CellOf(ops, k, timeout), b) == [] && (op.AddEvent? ==> op.e.batchId != b)
    ensures EvictRows(CellOf(ops + [op], k, timeout), b) == []
  {
    CellOfSnoc(ops, op, k, timeout);
    OwesNothingExactly(CellOf(ops, k, timeout), b);
    StepHeadless(ops, CellOf(ops, k, timeout), op, k, timeout, b);
    OwesNothingExactly(CellOf(ops + [op], k, timeout), b);
  }

  /** A key that owes nothing for a batch owes nothing in any continuation without its events. */
  lemma {:induction false} OwesNothingForEver(ops: seq<Op>, more: seq<Op>, k: Key, timeout: int, b: int)
    requires EvictRows(CellOf(ops, k, timeout), b) == [] && NoneAdded(more, b)
    ensures EvictRows(CellOf(ops + more, k, timeout), b) == []
  {
    if more == [] {
      assert ops + more == ops;
    } else {
      var n := |more| - 1;
      OwesNothingForEver(ops, more[..n], k, timeout, b);
      assert ops + more == ops + more[..n] + [more[n]];
      NextOwesNothing(ops + more[..n], more[n], k, timeout, b);
    }
  }
}
