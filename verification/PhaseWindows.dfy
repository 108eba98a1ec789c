/** What the window, the keys and the sequence numbers of the phase matcher mean, in plain fields
    of the packets. */
module PhaseWindows {
  import opened Collections
  import opened Events
  import opened Phases
  import opened PhaseSteps
  import opened PhaseRuns

  // -- the window -----------------------------------------------------------------------------

  /** The regular SYN comes at most one second before the irregular SYN's probe was confirmed, and
      less than `timeout` seconds after, counting whole seconds. */
  predicate InWindow(isyn: Event, rsyn: Event, timeout: int) {
    isyn.confirmation.Some? &&
    var confirmed, came := isyn.confirmation.value.timestamp / 1_000_000, rsyn.packet.timestamp / 1_000_000;
    confirmed - 1 <= came < confirmed + if timeout > 0 then timeout else 0
  }

  lemma WindowMeans(isyn: Event, rsyn: Event, timeout: int)
    ensures WithinTimeout(isyn.confirmation, SynTs(rsyn), timeout) <==> InWindow(isyn, rsyn, timeout)
  {
  }

  /** One ACK carries the source port of its SYN and the number the probe acknowledged. */
  predicate Acknowledges(ack: Event, syn: Event) {
    syn.request.Some? && ack.packet.payload.sport == syn.packet.payload.sport &&
    syn.request.value.dport == syn.packet.payload.sport && ack.packet.payload.snum == syn.request.value.anum
  }

  lemma MatchingMeans(syn: Event, ack: Event)
    ensures IsMatchingAck(syn, ack) <==> Acknowledges(ack, syn)
  {
  }

  /** A key is shared exactly by events with the same addresses and destination port. */
  lemma KeyMeans(e: Event, f: Event)
    ensures KeyOf(e) == KeyOf(f) <==>
            e.packet.saddr == f.packet.saddr && e.packet.daddr == f.packet.daddr && e.packet.payload.dport == f.packet.payload.dport
  {
  }

  /** In every reachable state both SYNs of a two-phase record share addresses and destination port,
      the regular one is in the window of the irregular one, and each ACK acknowledges its SYN. */
  lemma TwoPhaseRecordsInWindow(ops: seq<Op>, k: Key, timeout: int, r: Record)
    requires r in CellOf(ops, k, timeout).twoPhase || r in CellOf(ops, k, timeout).twoPhaseNoAck
    ensures r.isyn.Some? && r.rsyn.Some? && InWindow(r.isyn.value, r.rsyn.value, timeout)
    ensures r.isyn.value.packet.saddr == r.rsyn.value.packet.saddr && r.isyn.value.packet.daddr == r.rsyn.value.packet.daddr
    ensures r.isyn.value.packet.payload.dport == r.rsyn.value.packet.payload.dport
    ensures r.iack.Some? ==> Acknowledges(r.iack.value, r.isyn.value)
    ensures r.rack.Some? ==> Acknowledges(r.rack.value, r.rsyn.value)
  {
    TwoPhaseRecordsAreSound(ops, k, timeout, r);
    WindowMeans(r.isyn.value, r.rsyn.value, timeout);
  }

  /** `rsyn` is in the window of a first phase that waits. */
  predicate HasOpenFirstPhase(c: Cell, rsyn: Event, timeout: int) {
    (exists e :: e in c.irregularSyns && InWindow(e, rsyn, timeout)) ||
    (exists r :: r in c.irregularAcked && r.isyn.Some? && InWindow(r.isyn.value, rsyn, timeout))
  }

  lemma NoneOpen(c: Cell, rsyn: Event, timeout: int)
    ensures First(c.irregularSyns, Open(SynTs(rsyn), timeout)) == |c.irregularSyns| &&
            First(c.irregularAcked, IsynOpen(SynTs(rsyn), timeout)) == |c.irregularAcked| <==>
            !HasOpenFirstPhase(c, rsyn, timeout)
  {
    var i := First(c.irregularSyns, Open(SynTs(rsyn), timeout));
    var j := First(c.irregularAcked, IsynOpen(SynTs(rsyn), timeout));
    forall e: Event ensures Open(SynTs(rsyn), timeout)(e) == InWindow(e, rsyn, timeout) {
      WindowMeans(e, rsyn, timeout);
    }
    forall r: Record ensures IsynOpen(SynTs(rsyn), timeout)(r) == (r.isyn.Some? && InWindow(r.isyn.value, rsyn, timeout)) {
      if r.isyn.Some? {
        WindowMeans(r.isyn.value, rsyn, timeout);
      }
    }
    if i < |c.irregularSyns| {
      assert c.irregularSyns[i] in c.irregularSyns;
    }
    if j < |c.irregularAcked| {
      assert c.irregularAcked[j] in c.irregularAcked;
    }
  }

  /** A regular SYN that arrives waits exactly if it is in no such window; otherwise it becomes the
      second phase of one whose window it is in. */
  lemma RegularSynWaitsExactly(c: Cell, rsyn: Event, timeout: int)
    requires IsSyn(rsyn.packet) && !IsIrregularSyn(rsyn.packet)
    ensures var d := Add(c, rsyn, timeout);
            if HasOpenFirstPhase(c, rsyn, timeout) then
              d.regularSyns == c.regularSyns && |d.twoPhaseNoAck| == |c.twoPhaseNoAck| + 1 &&
              var r := d.twoPhaseNoAck[|c.twoPhaseNoAck|];
              r.rsyn == Some(rsyn) && r.isyn.Some? && InWindow(r.isyn.value, rsyn, timeout)
            else d == c.(regularSyns := c.regularSyns + [rsyn])
  {
    NoneOpen(c, rsyn, timeout);
    var i := First(c.irregularSyns, Open(SynTs(rsyn), timeout));
    var j := First(c.irregularAcked, IsynOpen(SynTs(rsyn), timeout));
    if i < |c.irregularSyns| {
      WindowMeans(c.irregularSyns[i], rsyn, timeout);
    } else if j < |c.irregularAcked| {
      WindowMeans(c.irregularAcked[j].isyn.value, rsyn, timeout);
    }
  }

  // -- repeated connections -----------------------------------------------------------------------

  predicate RepeatsIn(rs: seq<Record>, rsyn: Event, timeout: int) {
    exists r :: r in rs && r.isyn.Some? && InWindow(r.isyn.value, rsyn, timeout)
  }

  lemma RepeatsMeans(rs: seq<Record>, rseq: Record, timeout: int)
    requires rseq.rsyn.Some?
    ensures Repeats(rs, rseq, timeout) <==> RepeatsIn(rs, rseq.rsyn.value, timeout)
  {
    forall r: Record
      ensures IsynOpen(SynTs(rseq.rsyn.value), timeout)(r) == (r.isyn.Some? && InWindow(r.isyn.value, rseq.rsyn.value, timeout))
    {
      if r.isyn.Some? {
        WindowMeans(r.isyn.value, rseq.rsyn.value, timeout);
      }
    }
  }

  /** An acknowledged regular SYN stays exactly if it is in the window of no two-phase record. */
  lemma RepeatedStaysExactly(c: Cell, timeout: int, r: Record)
    requires r.rsyn.Some?
    ensures r in FindRepeated(c, timeout).regularAcked <==>
            r in c.regularAcked && !RepeatsIn(c.twoPhaseNoAck, r.rsyn.value, timeout) && !RepeatsIn(c.twoPhase, r.rsyn.value, timeout)
  {
    FindRepeatedSaturates(c, timeout, r);
    RepeatsMeans(c.twoPhaseNoAck, r, timeout);
    RepeatsMeans(c.twoPhase, r, timeout);
  }

  /** The record a repeated connection belongs to: its regular SYN is in the window, and the note
      identifies the irregular SYN. */
  predicate Notes(x: Record, r: Record, timeout: int) {
    r.isyn.Some? && x.rsyn.Some? && InWindow(r.isyn.value, x.rsyn.value, timeout) &&
    var p := r.isyn.value.packet;
    x.ident == Some(Ident(p.timestamp / 1_000_000, p.payload.sport, p.ipid, p.payload.anum))
  }

  predicate NotesOne(x: Record, c: Cell, timeout: int) {
    (exists r :: r in c.twoPhaseNoAck && Notes(x, r, timeout)) || (exists r :: r in c.twoPhase && Notes(x, r, timeout))
  }

  lemma RepeatNotes(c: Cell, rs: seq<Record>, rseq: Record, timeout: int)
    requires Repeat(c, rs, rseq, timeout).Some?
    ensures rseq.rsyn.Some?
    ensures var x := Repeat(c, rs, rseq, timeout).value.repeated;
            |x| == |c.repeated| + 1 && c.repeated <= x && exists r :: r in rs && Notes(x[|c.repeated|], r, timeout)
  {
    var i := First(rs, IsynOpen(SynTs(rseq.rsyn.value), timeout));
    WindowMeans(rs[i].isyn.value, rseq.rsyn.value, timeout);
    assert rs[i] in rs;
    assert Notes(Repeat(c, rs, rseq, timeout).value.repeated[|c.repeated|], rs[i], timeout);
  }

  /** Every connection moved to the repeated ones belongs to a two-phase record of its key. */
  lemma {:induction false} MovedNoteOne(c: Cell, rseqs: seq<Record>, timeout: int)
    ensures var d := MatchRepeats(c, rseqs, timeout).0;
            c.repeated <= d.repeated && d == c.(repeated := d.repeated) &&
            forall i :: |c.repeated| <= i < |d.repeated| ==> NotesOne(d.repeated[i], c, timeout)
  {
    if rseqs != [] {
      var n := |rseqs| - 1;
      MovedNoteOne(c, rseqs[..n], timeout);
      var d := MatchRepeats(c, rseqs[..n], timeout).0;
      if Repeat(d, d.twoPhaseNoAck, rseqs[n], timeout).Some? {
        RepeatNotes(d, d.twoPhaseNoAck, rseqs[n], timeout);
      } else if Repeat(d, d.twoPhase, rseqs[n], timeout).Some? {
        RepeatNotes(d, d.twoPhase, rseqs[n], timeout);
      }
    }
  }

  lemma RepeatedNoteOne(c: Cell, timeout: int, i: nat)
    requires |c.repeated| <= i < |FindRepeated(c, timeout).repeated|
    ensures NotesOne(FindRepeated(c, timeout).repeated[i], c, timeout)
  {
    MovedNoteOne(c, c.regularAcked, timeout);
  }

  // -- retransmits ----------------------------------------------------------------------------------

  /** Two packets with the same addresses, ports and sequence number. */
  predicate SamePacket(e: Event, f: Event) {
    e.packet.saddr == f.packet.saddr && e.packet.daddr == f.packet.daddr &&
    e.packet.payload.sport == f.packet.payload.sport && e.packet.payload.dport == f.packet.payload.dport &&
    e.packet.payload.snum == f.packet.payload.snum
  }

  /** Call `i` handed over a packet without RST of batch `b` like `e`, and `b` was not cleared since. */
  predicate Preceded(ops: seq<Op>, i: nat, e: Event, b: int)
    requires i < |ops|
  {
    ops[i].AddEvent? && Rst !in ops[i].e.packet.payload.flags && ops[i].e.batchId == b && SamePacket(ops[i].e, e) &&
    EvictRetransmits(b) !in ops[i + 1..]
  }

  ghost predicate CameBefore(ops: seq<Op>, e: Event, b: int) {
    exists i :: 0 <= i < |ops| && Preceded(ops, i, e, b)
  }

  lemma RecordMeans(ops: seq<Op>, e: Event, b: int)
    ensures OnRecord(ops, TupleOf(e), b) <==> CameBefore(ops, e, b)
  {
    forall i | 0 <= i < |ops| ensures Records(ops, i, TupleOf(e), b) <==> Preceded(ops, i, e, b) {
    }
  }

  /** An event is a retransmit exactly if a packet like it of its own or the previous batch came
      before. */
  lemma RetransmitMeans(ops: seq<Op>, e: Event)
    ensures IsRetransmit(ops, e) <==>
            CameBefore(ops, e, e.batchId) || (e.batchId > 0 && CameBefore(ops, e, e.batchId - 1))
  {
    RetransmitExactly(ops, e);
    RecordMeans(ops, e, e.batchId);
    RecordMeans(ops, e, e.batchId - 1);
  }
}
