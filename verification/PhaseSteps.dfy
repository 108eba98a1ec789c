/** What a single operation of the phase matcher keeps: every match is sound, and
    no event is lost or duplicated. */
module PhaseSteps {
  import opened Collections
  import opened Events
  import opened Phases

  // -- what each list may hold --------------------------------------------------------

  predicate IsynOk(e: Event, k: Key) {
    KeyOf(e) == k && IsIrregularSyn(e.packet) && !IsRst(e.packet)
  }

  predicate RsynOk(e: Event, k: Key) {
    KeyOf(e) == k && IsSyn(e.packet) && !IsIrregularSyn(e.packet) && !IsRst(e.packet)
  }

  predicate AckOk(e: Event, k: Key) {
    KeyOf(e) == k && IsAck(e.packet) && !IsRst(e.packet)
  }

  predicate FirstPhaseOk(r: Record, k: Key) {
    r.isyn.Some? && IsynOk(r.isyn.value, k) &&
    (r.iack.Some? ==> AckOk(r.iack.value, k) && IsMatchingAck(r.isyn.value, r.iack.value))
  }

  predicate SecondPhaseOk(r: Record, k: Key) {
    r.rsyn.Some? && RsynOk(r.rsyn.value, k) &&
    (r.rack.Some? ==> AckOk(r.rack.value, k) && IsMatchingAck(r.rsyn.value, r.rack.value))
  }

  predicate IrregularAckedOk(r: Record, k: Key) {
    FirstPhaseOk(r, k) && r.iack.Some? && r.rsyn.None? && r.rack.None? && r.ident.None?
  }

  predicate RegularAckedOk(r: Record, k: Key) {
    SecondPhaseOk(r, k) && r.rack.Some? && r.isyn.None? && r.iack.None? && r.ident.None?
  }

  /** Both phases, with the regular SYN inside the window the probe confirmation opens. */
  predicate BothPhasesOk(r: Record, k: Key, timeout: int) {
    FirstPhaseOk(r, k) && SecondPhaseOk(r, k) && r.ident.None? &&
    WithinTimeout(r.isyn.value.confirmation, SynTs(r.rsyn.value), timeout)
  }

  predicate RepeatedOk(r: Record, k: Key) {
    r.ident.Some? && RegularAckedOk(r.(ident := None), k)
  }

  predicate Sound(c: Cell, k: Key, timeout: int) {
    (forall e :: e in c.irregularSyns ==> IsynOk(e, k)) &&
    (forall e :: e in c.regularSyns ==> RsynOk(e, k)) &&
    (forall e :: e in c.acks ==> AckOk(e, k)) &&
    (forall r :: r in c.irregularAcked ==> IrregularAckedOk(r, k)) &&
    (forall r :: r in c.regularAcked ==> RegularAckedOk(r, k)) &&
    (forall r :: r in c.twoPhaseNoAck ==> BothPhasesOk(r, k, timeout) && r.rack.None?) &&
    (forall r :: r in c.twoPhase ==> BothPhasesOk(r, k, timeout) && r.rack.Some?) &&
    (forall r :: r in c.repeated ==> RepeatedOk(r, k))
  }

  // -- how often each list holds an event -------------------------------------------------

  function Occ(s: seq<Event>, x: Event): nat {
    if s == [] then 0 else Occ(s[..|s| - 1], x) + One(s[|s| - 1], x)
  }

  function One(e: Event, x: Event): nat { if e == x then 1 else 0 }

  function Maybe(e: Option<Event>, x: Event): nat { if e == Some(x) then 1 else 0 }

  function RecordOcc(r: Record, x: Event): nat {
    Maybe(r.isyn, x) + Maybe(r.iack, x) + Maybe(r.rsyn, x) + Maybe(r.rack, x)
  }

  function RecordsOcc(rs: seq<Record>, x: Event): nat {
    if rs == [] then 0 else RecordsOcc(rs[..|rs| - 1], x) + RecordOcc(rs[|rs| - 1], x)
  }

  /** Number of slots of one key's lists that hold event `x`. */
  function CellOcc(c: Cell, x: Event): nat {
    Occ(c.irregularSyns, x) + Occ(c.regularSyns, x) + Occ(c.acks, x) +
    RecordsOcc(c.irregularAcked, x) + RecordsOcc(c.regularAcked, x) +
    RecordsOcc(c.twoPhaseNoAck, x) + RecordsOcc(c.twoPhase, x) + RecordsOcc(c.repeated, x)
  }

  lemma OccSnoc(s: seq<Event>, e: Event, x: Event)
    ensures Occ(s + [e], x) == Occ(s, x) + One(e, x)
  {
    assert (s + [e])[..|s|] == s;
  }

  lemma {:induction false} OccConcat(s: seq<Event>, t: seq<Event>, x: Event)
    ensures Occ(s + t, x) == Occ(s, x) + Occ(t, x)
  {
    if t == [] {
      assert s + t == s;
    } else {
      assert s + t == (s + t[..|t| - 1]) + [t[|t| - 1]];
      OccSnoc(s + t[..|t| - 1], t[|t| - 1], x);
      OccConcat(s, t[..|t| - 1], x);
    }
  }

  lemma OccDelete(s: seq<Event>, i: nat, x: Event)
    requires i < |s|
    ensures Occ(s, x) == Occ(Delete(s, i), x) + One(s[i], x)
  {
    assert s == (s[..i] + [s[i]]) + s[i + 1..];
    OccConcat(s[..i] + [s[i]], s[i + 1..], x);
    OccSnoc(s[..i], s[i], x);
    OccConcat(s[..i], s[i + 1..], x);
  }

  lemma RecordsOccSnoc(rs: seq<Record>, r: Record, x: Event)
    ensures RecordsOcc(rs + [r], x) == RecordsOcc(rs, x) + RecordOcc(r, x)
  {
    assert (rs + [r])[..|rs|] == rs;
  }

  lemma {:induction false} RecordsOccConcat(s: seq<Record>, t: seq<Record>, x: Event)
    ensures RecordsOcc(s + t, x) == RecordsOcc(s, x) + RecordsOcc(t, x)
  {
    if t == [] {
      assert s + t == s;
    } else {
      assert s + t == (s + t[..|t| - 1]) + [t[|t| - 1]];
      RecordsOccSnoc(s + t[..|t| - 1], t[|t| - 1], x);
      RecordsOccConcat(s, t[..|t| - 1], x);
    }
  }

  lemma RecordsOccDelete(rs: seq<Record>, i: nat, x: Event)
    requires i < |rs|
    ensures RecordsOcc(rs, x) == RecordsOcc(Delete(rs, i), x) + RecordOcc(rs[i], x)
  {
    assert rs == (rs[..i] + [rs[i]]) + rs[i + 1..];
    RecordsOccConcat(rs[..i] + [rs[i]], rs[i + 1..], x);
    RecordsOccSnoc(rs[..i], rs[i], x);
    RecordsOccConcat(rs[..i], rs[i + 1..], x);
  }

  // -- every match is sound ---------------------------------------------------------------

  lemma RsynToIsynSound(c: Cell, rsyn: Event, k: Key, timeout: int)
    requires Sound(c, k, timeout) && RsynOk(rsyn, k)
    ensures RsynToIsyn(c, rsyn, timeout).Some? ==> Sound(RsynToIsyn(c, rsyn, timeout).value, k, timeout)
  {
  }

  lemma RsynToIsynAckedSound(c: Cell, rsyn: Event, k: Key, timeout: int)
    requires Sound(c, k, timeout) && RsynOk(rsyn, k)
    ensures RsynToIsynAcked(c, rsyn, timeout).Some? ==> Sound(RsynToIsynAcked(c, rsyn, timeout).value, k, timeout)
  {
    var i := First(c.irregularAcked, IsynOpen(SynTs(rsyn), timeout));
    assert i < |c.irregularAcked| ==> IrregularAckedOk(c.irregularAcked[i], k);
  }

  lemma RsynAckedToIsynSound(c: Cell, p2: Record, k: Key, timeout: int)
    requires Sound(c, k, timeout) && RegularAckedOk(p2, k)
    ensures RsynAckedToIsyn(c, p2, timeout).Some? ==> Sound(RsynAckedToIsyn(c, p2, timeout).value, k, timeout)
  {
  }

  lemma RsynAckedToIsynAckedSound(c: Cell, p2: Record, k: Key, timeout: int)
    requires Sound(c, k, timeout) && RegularAckedOk(p2, k)
    ensures RsynAckedToIsynAcked(c, p2, timeout).Some? ==> Sound(RsynAckedToIsynAcked(c, p2, timeout).value, k, timeout)
  {
    var i := First(c.irregularAcked, IsynOpen(SynTs(p2.rsyn.value), timeout));
    assert i < |c.irregularAcked| ==> IrregularAckedOk(c.irregularAcked[i], k);
  }

  lemma AckToRsynSound(c: Cell, ack: Event, k: Key, timeout: int)
    requires Sound(c, k, timeout) && AckOk(ack, k)
    ensures AckToRsyn(c, ack).Some? ==> Sound(AckToRsyn(c, ack).value, k, timeout)
  {
  }

  lemma AckToIsynSound(c: Cell, ack: Event, k: Key, timeout: int)
    requires Sound(c, k, timeout) && AckOk(ack, k)
    ensures AckToIsyn(c, ack).Some? ==> Sound(AckToIsyn(c, ack).value, k, timeout)
  {
  }

  lemma AckToTwoPhaseSound(c: Cell, ack: Event, k: Key, timeout: int)
    requires Sound(c, k, timeout) && AckOk(ack, k)
    ensures AckToTwoPhase(c, ack).Some? ==> Sound(AckToTwoPhase(c, ack).value, k, timeout)
  {
    var i := First(c.twoPhaseNoAck, RsynAckable(ack));
    assert i < |c.twoPhaseNoAck| ==> BothPhasesOk(c.twoPhaseNoAck[i], k, timeout);
  }

  lemma MatchAckSound(c: Cell, ack: Event, k: Key, timeout: int)
    requires Sound(c, k, timeout) && AckOk(ack, k)
    ensures MatchAck(c, ack).Some? ==> Sound(MatchAck(c, ack).value, k, timeout)
  {
    AckToRsynSound(c, ack, k, timeout);
    AckToIsynSound(c, ack, k, timeout);
    AckToTwoPhaseSound(c, ack, k, timeout);
  }

  lemma MatchRsynSound(c: Cell, rsyn: Event, k: Key, timeout: int)
    requires Sound(c, k, timeout) && RsynOk(rsyn, k)
    ensures MatchRsyn(c, rsyn, timeout).Some? ==> Sound(MatchRsyn(c, rsyn, timeout).value, k, timeout)
  {
    RsynToIsynSound(c, rsyn, k, timeout);
    RsynToIsynAckedSound(c, rsyn, k, timeout);
  }

  lemma MatchRsynAckedSound(c: Cell, p2: Record, k: Key, timeout: int)
    requires Sound(c, k, timeout) && RegularAckedOk(p2, k)
    ensures MatchRsynAcked(c, p2, timeout).Some? ==> Sound(MatchRsynAcked(c, p2, timeout).value, k, timeout)
  {
    RsynAckedToIsynSound(c, p2, k, timeout);
    RsynAckedToIsynAckedSound(c, p2, k, timeout);
  }

  lemma MatchRepeatSound(c: Cell, rseq: Record, k: Key, timeout: int)
    requires Sound(c, k, timeout) && RegularAckedOk(rseq, k)
    ensures MatchRepeat(c, rseq, timeout).Some? ==> Sound(MatchRepeat(c, rseq, timeout).value, k, timeout)
  {
    assert rseq.(ident := None) == rseq;
  }

  lemma AddSound(c: Cell, e: Event, timeout: int)
    requires Sound(c, KeyOf(e), timeout) && !IsRst(e.packet)
    ensures Sound(Add(c, e, timeout), KeyOf(e), timeout)
  {
    if IsSyn(e.packet) && !IsIrregularSyn(e.packet) {
      MatchRsynSound(c, e, KeyOf(e), timeout);
    } else if IsAck(e.packet) {
      MatchAckSound(c, e, KeyOf(e), timeout);
    }
  }

  lemma {:induction false} MatchAcksSound(c: Cell, acks: seq<Event>, k: Key, timeout: int)
    requires Sound(c, k, timeout) && forall a :: a in acks ==> AckOk(a, k)
    ensures Sound(MatchAcks(c, acks).0, k, timeout)
    ensures forall a :: a in MatchAcks(c, acks).1 ==> a in acks
  {
    if acks != [] {
      var n := |acks| - 1;
      MatchAcksSound(c, acks[..n], k, timeout);
      MatchAckSound(MatchAcks(c, acks[..n]).0, acks[n], k, timeout);
    }
  }

  lemma AcksPassSound(c: Cell, k: Key, timeout: int)
    requires Sound(c, k, timeout)
    ensures Sound(AcksPass(c), k, timeout)
  {
    MatchAcksSound(c, c.acks, k, timeout);
  }

  lemma RsynsPassSound(c: Cell, k: Key, timeout: int)
    requires Sound(c, k, timeout)
    ensures Sound(RsynsPass(c, timeout), k, timeout)
  {
    var i := First(c.regularSyns, HasFirstPhase(c, timeout));
    if i < |c.regularSyns| {
      MatchRsynSound(c, c.regularSyns[i], k, timeout);
    }
  }

  lemma RsynsAckedPassSound(c: Cell, k: Key, timeout: int)
    requires Sound(c, k, timeout)
    ensures Sound(RsynsAckedPass(c, timeout), k, timeout)
  {
    var i := First(c.regularAcked, HasFirstPhaseAcked(c, timeout));
    if i < |c.regularAcked| {
      assert RegularAckedOk(c.regularAcked[i], k);
      MatchRsynAckedSound(c, c.regularAcked[i], k, timeout);
    }
  }

  lemma MatchEverythingSound(c: Cell, k: Key, timeout: int)
    requires Sound(c, k, timeout)
    ensures Sound(MatchEverything(c, timeout), k, timeout)
  {
    AcksPassSound(c, k, timeout);
    RsynsPassSound(AcksPass(c), k, timeout);
    RsynsAckedPassSound(RsynsPass(AcksPass(c), timeout), k, timeout);
  }

  lemma {:induction false} MatchRepeatsSound(c: Cell, rseqs: seq<Record>, k: Key, timeout: int)
    requires Sound(c, k, timeout) && forall r :: r in rseqs ==> RegularAckedOk(r, k)
    ensures Sound(MatchRepeats(c, rseqs, timeout).0, k, timeout)
    ensures forall r :: r in MatchRepeats(c, rseqs, timeout).1 ==> r in rseqs
  {
    if rseqs != [] {
      var n := |rseqs| - 1;
      assert RegularAckedOk(rseqs[n], k);
      MatchRepeatsSound(c, rseqs[..n], k, timeout);
      MatchRepeatSound(MatchRepeats(c, rseqs[..n], timeout).0, rseqs[n], k, timeout);
    }
  }

  lemma FindRepeatedSound(c: Cell, k: Key, timeout: int)
    requires Sound(c, k, timeout)
    ensures Sound(FindRepeated(c, timeout), k, timeout)
  {
    MatchRepeatsSound(c, c.regularAcked, k, timeout);
  }

  // -- every operation accounts for its events ------------------------------------------------

  /** The slots a match fills were empty. */
  predicate Vacant(c: Cell) {
    (forall r :: r in c.irregularAcked ==> r.rsyn.None? && r.rack.None?) &&
    (forall r :: r in c.twoPhaseNoAck ==> r.rack.None?)
  }

  lemma AckToRsynOcc(c: Cell, ack: Event, x: Event)
    ensures AckToRsyn(c, ack).Some? ==> CellOcc(AckToRsyn(c, ack).value, x) == CellOcc(c, x) + One(ack, x)
  {
    var i := First(c.regularSyns, Ackable(ack));
    if i < |c.regularSyns| {
      OccDelete(c.regularSyns, i, x);
      RecordsOccSnoc(c.regularAcked, Record(None, None, Some(c.regularSyns[i]), Some(ack), None), x);
    }
  }

  lemma AckToIsynOcc(c: Cell, ack: Event, x: Event)
    ensures AckToIsyn(c, ack).Some? ==> CellOcc(AckToIsyn(c, ack).value, x) == CellOcc(c, x) + One(ack, x)
  {
    var i := First(c.irregularSyns, Ackable(ack));
    if i < |c.irregularSyns| {
      OccDelete(c.irregularSyns, i, x);
      RecordsOccSnoc(c.irregularAcked, Record(Some(c.irregularSyns[i]), Some(ack), None, None, None), x);
    }
  }

  lemma AckToTwoPhaseOcc(c: Cell, ack: Event, x: Event)
    requires Vacant(c)
    ensures AckToTwoPhase(c, ack).Some? ==> CellOcc(AckToTwoPhase(c, ack).value, x) == CellOcc(c, x) + One(ack, x)
  {
    var i := First(c.twoPhaseNoAck, RsynAckable(ack));
    if i < |c.twoPhaseNoAck| {
      assert c.twoPhaseNoAck[i] in c.twoPhaseNoAck;
      RecordsOccDelete(c.twoPhaseNoAck, i, x);
      RecordsOccSnoc(c.twoPhase, c.twoPhaseNoAck[i].(rack := Some(ack)), x);
    }
  }

  lemma MatchAckOcc(c: Cell, ack: Event, x: Event)
    requires Vacant(c)
    ensures MatchAck(c, ack).Some? ==> CellOcc(MatchAck(c, ack).value, x) == CellOcc(c, x) + One(ack, x)
  {
    AckToRsynOcc(c, ack, x);
    AckToIsynOcc(c, ack, x);
    AckToTwoPhaseOcc(c, ack, x);
  }

  lemma MatchRsynOcc(c: Cell, rsyn: Event, x: Event, timeout: int)
    requires Vacant(c)
    ensures MatchRsyn(c, rsyn, timeout).Some? ==>
              CellOcc(MatchRsyn(c, rsyn, timeout).value, x) == CellOcc(c, x) + One(rsyn, x)
  {
    var i := First(c.irregularSyns, Open(SynTs(rsyn), timeout));
    var j := First(c.irregularAcked, IsynOpen(SynTs(rsyn), timeout));
    if i < |c.irregularSyns| {
      OccDelete(c.irregularSyns, i, x);
      RecordsOccSnoc(c.twoPhaseNoAck, Record(Some(c.irregularSyns[i]), None, Some(rsyn), None, None), x);
    } else if j < |c.irregularAcked| {
      assert c.irregularAcked[j] in c.irregularAcked;
      RecordsOccDelete(c.irregularAcked, j, x);
      RecordsOccSnoc(c.twoPhaseNoAck, c.irregularAcked[j].(rsyn := Some(rsyn), rack := None), x);
    }
  }

  lemma MatchRsynAckedOcc(c: Cell, p2: Record, x: Event, timeout: int)
    requires Vacant(c) && p2.isyn.None? && p2.iack.None?
    ensures MatchRsynAcked(c, p2, timeout).Some? ==>
              CellOcc(MatchRsynAcked(c, p2, timeout).value, x) == CellOcc(c, x) + RecordOcc(p2, x)
  {
    if p2.rsyn.None? {
      return;
    }
    var ts := SynTs(p2.rsyn.value);
    var i := First(c.irregularSyns, Open(ts, timeout));
    var j := First(c.irregularAcked, IsynOpen(ts, timeout));
    if i < |c.irregularSyns| {
      OccDelete(c.irregularSyns, i, x);
      RecordsOccSnoc(c.twoPhase, p2.(isyn := Some(c.irregularSyns[i])), x);
    } else if j < |c.irregularAcked| {
      assert c.irregularAcked[j] in c.irregularAcked;
      RecordsOccDelete(c.irregularAcked, j, x);
      RecordsOccSnoc(c.twoPhase, c.irregularAcked[j].(rsyn := p2.rsyn, rack := p2.rack), x);
    }
  }

  lemma MatchRepeatOcc(c: Cell, rseq: Record, x: Event, timeout: int)
    ensures MatchRepeat(c, rseq, timeout).Some? ==>
              CellOcc(MatchRepeat(c, rseq, timeout).value, x) == CellOcc(c, x) + RecordOcc(rseq, x)
  {
    if MatchRepeat(c, rseq, timeout).Some? {
      var r := MatchRepeat(c, rseq, timeout).value.repeated[|c.repeated|];
      RecordsOccSnoc(c.repeated, r, x);
    }
  }

  /** The events phase matching is about. */
  predicate Relevant(e: Event) {
    IsSyn(e.packet) || IsAck(e.packet)
  }

  /** Adding a SYN or ACK adds exactly that event, wherever it ends up. */
  lemma AddOcc(c: Cell, e: Event, x: Event, timeout: int)
    requires Vacant(c)
    ensures CellOcc(Add(c, e, timeout), x) == CellOcc(c, x) + if Relevant(e) then One(e, x) else 0
  {
    if IsIrregularSyn(e.packet) {
      OccSnoc(c.irregularSyns, e, x);
    } else if IsSyn(e.packet) {
      OccSnoc(c.regularSyns, e, x);
      MatchRsynOcc(c, e, x, timeout);
    } else if IsAck(e.packet) {
      OccSnoc(c.acks, e, x);
      MatchAckOcc(c, e, x);
    }
  }

  lemma MatchAckVacant(c: Cell, ack: Event)
    requires Vacant(c)
    ensures MatchAck(c, ack).Some? ==> Vacant(MatchAck(c, ack).value) && MatchAck(c, ack).value.acks == c.acks
  {
  }

  lemma {:induction false} MatchAcksVacant(c: Cell, acks: seq<Event>)
    requires Vacant(c)
    ensures Vacant(MatchAcks(c, acks).0) && MatchAcks(c, acks).0.acks == c.acks
  {
    if acks != [] {
      var n := |acks| - 1;
      MatchAcksVacant(c, acks[..n]);
      MatchAckVacant(MatchAcks(c, acks[..n]).0, acks[n]);
    }
  }

  lemma {:induction false} MatchAcksOcc(c: Cell, acks: seq<Event>, x: Event)
    requires Vacant(c)
    ensures CellOcc(MatchAcks(c, acks).0, x) + Occ(MatchAcks(c, acks).1, x) == CellOcc(c, x) + Occ(acks, x)
  {
    if acks != [] {
      var n := |acks| - 1;
      MatchAcksOcc(c, acks[..n], x);
      MatchAcksVacant(c, acks[..n]);
      var (d, remaining) := MatchAcks(c, acks[..n]);
      MatchAckOcc(d, acks[n], x);
      OccSnoc(remaining, acks[n], x);
    }
  }

  lemma AcksPassOcc(c: Cell, x: Event)
    requires Vacant(c)
    ensures CellOcc(AcksPass(c), x) == CellOcc(c, x)
  {
    MatchAcksOcc(c, c.acks, x);
    MatchAcksVacant(c, c.acks);
  }

  lemma RsynsPassOcc(c: Cell, x: Event, k: Key, timeout: int)
    requires Sound(c, k, timeout)
    ensures CellOcc(RsynsPass(c, timeout), x) == CellOcc(c, x)
  {
    var i := First(c.regularSyns, HasFirstPhase(c, timeout));
    if i < |c.regularSyns| {
      MatchRsynOcc(c, c.regularSyns[i], x, timeout);
      OccDelete(c.regularSyns, i, x);
    }
  }

  lemma RsynsAckedPassOcc(c: Cell, x: Event, k: Key, timeout: int)
    requires Sound(c, k, timeout)
    ensures CellOcc(RsynsAckedPass(c, timeout), x) == CellOcc(c, x)
  {
    var i := First(c.regularAcked, HasFirstPhaseAcked(c, timeout));
    if i < |c.regularAcked| {
      assert RegularAckedOk(c.regularAcked[i], k);
      MatchRsynAckedOcc(c, c.regularAcked[i], x, timeout);
      RecordsOccDelete(c.regularAcked, i, x);
    }
  }

  /** `try_match_everything` moves events between lists; it loses and invents none. */
  lemma MatchEverythingOcc(c: Cell, x: Event, k: Key, timeout: int)
    requires Sound(c, k, timeout)
    ensures CellOcc(MatchEverything(c, timeout), x) == CellOcc(c, x)
  {
    AcksPassOcc(c, x);
    AcksPassSound(c, k, timeout);
    RsynsPassOcc(AcksPass(c), x, k, timeout);
    RsynsPassSound(AcksPass(c), k, timeout);
    RsynsAckedPassOcc(RsynsPass(AcksPass(c), timeout), x, k, timeout);
  }

  lemma {:induction false} MatchRepeatsKeepsLists(c: Cell, rseqs: seq<Record>, timeout: int)
    ensures MatchRepeats(c, rseqs, timeout).0 == c.(repeated := MatchRepeats(c, rseqs, timeout).0.repeated)
  {
    if rseqs != [] {
      MatchRepeatsKeepsLists(c, rseqs[..|rseqs| - 1], timeout);
    }
  }

  lemma {:induction false} MatchRepeatsOcc(c: Cell, rseqs: seq<Record>, x: Event, timeout: int)
    ensures var (d, keep) := MatchRepeats(c, rseqs, timeout);
            CellOcc(d, x) + RecordsOcc(keep, x) == CellOcc(c, x) + RecordsOcc(rseqs, x)
  {
    if rseqs != [] {
      var n := |rseqs| - 1;
      MatchRepeatsOcc(c, rseqs[..n], x, timeout);
      var (d, keep) := MatchRepeats(c, rseqs[..n], timeout);
      MatchRepeatOcc(d, rseqs[n], x, timeout);
      RecordsOccSnoc(keep, rseqs[n], x);
    }
  }

  /** So does `find_repeated_connections`. */
  lemma FindRepeatedOcc(c: Cell, x: Event, timeout: int)
    ensures CellOcc(FindRepeated(c, timeout), x) == CellOcc(c, x)
  {
    MatchRepeatsOcc(c, c.regularAcked, x, timeout);
    MatchRepeatsKeepsLists(c, c.regularAcked, timeout);
  }

  // -- eviction -------------------------------------------------------------------------------

  function RowOcc(r: Row, x: Event): nat {
    Maybe(r.isyn, x) + Maybe(r.iack, x) + Maybe(r.rsyn, x) + Maybe(r.rack, x) + Maybe(r.ack, x)
  }

  function RowsOcc(rows: seq<Row>, x: Event): nat {
    if rows == [] then 0 else RowsOcc(rows[..|rows| - 1], x) + RowOcc(rows[|rows| - 1], x)
  }

  lemma {:induction false} RowsOccConcat(s: seq<Row>, t: seq<Row>, x: Event)
    ensures RowsOcc(s + t, x) == RowsOcc(s, x) + RowsOcc(t, x)
  {
    if t == [] {
      assert s + t == s;
    } else {
      assert (s + t)[..|s + t| - 1] == s + t[..|t| - 1];
      RowsOccConcat(s, t[..|t| - 1], x);
    }
  }

  lemma {:induction false} EventRowsOcc(es: seq<Event>, tag: string, x: Event)
    ensures RowsOcc(Rows(es, EventRow(tag)), x) == Occ(es, x)
  {
    if es != [] {
      var n := |es| - 1;
      EventRowsOcc(es[..n], tag, x);
      assert Rows(es, EventRow(tag))[..n] == Rows(es[..n], EventRow(tag));
    }
  }

  lemma {:induction false} RecordRowsOcc(rs: seq<Record>, h: Head, tag: string, x: Event)
    ensures RowsOcc(Rows(rs, RecordRow(h, tag)), x) == RecordsOcc(rs, x)
  {
    if rs != [] {
      var n := |rs| - 1;
      RecordRowsOcc(rs[..n], h, tag, x);
      assert Rows(rs, RecordRow(h, tag))[..n] == Rows(rs[..n], RecordRow(h, tag));
    }
  }

  lemma {:induction false} EventsSplit(es: seq<Event>, b: int, x: Event)
    ensures Occ(es, x) == Occ(Filter(es, InBatch(b)), x) + Occ(Filter(es, NotInBatch(b)), x)
  {
    if es != [] {
      var n := |es| - 1;
      EventsSplit(es[..n], b, x);
      OccSnoc(Filter(es[..n], InBatch(b)), es[n], x);
      OccSnoc(Filter(es[..n], NotInBatch(b)), es[n], x);
    }
  }

  lemma {:induction false} RecordsSplit(rs: seq<Record>, h: Head, b: int, x: Event)
    ensures RecordsOcc(rs, x) ==
            RecordsOcc(Filter(rs, HeadInBatch(h, b)), x) + RecordsOcc(Filter(rs, HeadNotInBatch(h, b)), x)
  {
    if rs != [] {
      var n := |rs| - 1;
      RecordsSplit(rs[..n], h, b, x);
      RecordsOccSnoc(Filter(rs[..n], HeadInBatch(h, b)), rs[n], x);
      RecordsOccSnoc(Filter(rs[..n], HeadNotInBatch(h, b)), rs[n], x);
    }
  }

  lemma RowsOccOfEviction(c: Cell, b: int, x: Event)
    ensures RowsOcc(EvictRows(c, b), x) ==
            Occ(Filter(c.irregularSyns, InBatch(b)), x) + Occ(Filter(c.regularSyns, InBatch(b)), x) +
            RecordsOcc(Filter(c.irregularAcked, HeadInBatch(HeadIsyn, b)), x) +
            RecordsOcc(Filter(c.regularAcked, HeadInBatch(HeadRsyn, b)), x) +
            RecordsOcc(Filter(c.twoPhaseNoAck, HeadInBatch(HeadIsyn, b)), x) +
            RecordsOcc(Filter(c.twoPhase, HeadInBatch(HeadIsyn, b)), x)
  {
    var f0 := Filter(c.irregularSyns, InBatch(b));
    var f1 := Filter(c.regularSyns, InBatch(b));
    var f2 := Filter(c.irregularAcked, HeadInBatch(HeadIsyn, b));
    var f3 := Filter(c.regularAcked, HeadInBatch(HeadRsyn, b));
    var f4 := Filter(c.twoPhaseNoAck, HeadInBatch(HeadIsyn, b));
    var f5 := Filter(c.twoPhase, HeadInBatch(HeadIsyn, b));
    var r0, r1 := Rows(f0, EventRow("isyn")), Rows(f1, EventRow("rsyn"));
    var r2, r3 := Rows(f2, RecordRow(HeadIsyn, "isyn (acked)")), Rows(f3, RecordRow(HeadRsyn, "rsyn (acked)"));
    var r4, r5 := Rows(f4, RecordRow(HeadIsyn, "two-phase (no ack)")), Rows(f5, RecordRow(HeadIsyn, "two-phase"));
    assert EvictRows(c, b) == r0 + r1 + r2 + r3 + r4 + r5;
    RowsOccConcat(r0 + r1 + r2 + r3 + r4, r5, x);
    RowsOccConcat(r0 + r1 + r2 + r3, r4, x);
    RowsOccConcat(r0 + r1 + r2, r3, x);
    RowsOccConcat(r0 + r1, r2, x);
    RowsOccConcat(r0, r1, x);
    EventRowsOcc(f0, "isyn", x);
    EventRowsOcc(f1, "rsyn", x);
    RecordRowsOcc(f2, HeadIsyn, "isyn (acked)", x);
    RecordRowsOcc(f3, HeadRsyn, "rsyn (acked)", x);
    RecordRowsOcc(f4, HeadIsyn, "two-phase (no ack)", x);
    RecordRowsOcc(f5, HeadIsyn, "two-phase", x);
  }

  lemma EvictSound(c: Cell, b: int, k: Key, timeout: int)
    requires Sound(c, k, timeout)
    ensures Sound(Evict(c, b), k, timeout)
  {
    FilterMembers(c.irregularSyns, NotInBatch(b));
    FilterMembers(c.regularSyns, NotInBatch(b));
    FilterMembers(c.acks, NotInBatch(b));
    FilterMembers(c.irregularAcked, HeadNotInBatch(HeadIsyn, b));
    FilterMembers(c.regularAcked, HeadNotInBatch(HeadRsyn, b));
    FilterMembers(c.twoPhaseNoAck, HeadNotInBatch(HeadIsyn, b));
    FilterMembers(c.twoPhase, HeadNotInBatch(HeadIsyn, b));
  }

  /** Eviction splits the contents: rows written, stale ACKs and repeated connections
      on one side, what stays on the other. */
  lemma EvictConserves(c: Cell, b: int, x: Event)
    ensures CellOcc(c, x) == CellOcc(Evict(c, b), x) + RowsOcc(EvictRows(c, b), x) +
                             Occ(Filter(c.acks, InBatch(b)), x) + RecordsOcc(c.repeated, x)
  {
    RowsOccOfEviction(c, b, x);
    EventsSplit(c.irregularSyns, b, x);
    EventsSplit(c.regularSyns, b, x);
    EventsSplit(c.acks, b, x);
    RecordsSplit(c.irregularAcked, HeadIsyn, b, x);
    RecordsSplit(c.regularAcked, HeadRsyn, b, x);
    RecordsSplit(c.twoPhaseNoAck, HeadIsyn, b, x);
    RecordsSplit(c.twoPhase, HeadIsyn, b, x);
  }
}
