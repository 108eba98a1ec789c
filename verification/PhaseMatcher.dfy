/** The phase matcher of `assemble`: events of one key are matched into
    handshakes and two-phase records, and batches are evicted for writing. */
module PhaseMatching {
  import opened Collections
  import opened Events
  import opened Phases
  import opened PhaseSteps
  import opened PhaseRuns
  import opened PhaseRows

  lemma RowsForExtended(rows: seq<Row>, taken: seq<Row>, key: Key, k: Key)
    requires forall r :: r in taken ==> RowKey(r) == Some(key)
    ensures RowsFor(rows + taken, k) == if k == key then RowsFor(rows, k) + taken else RowsFor(rows, k)
  {
    FilterConcat(rows, taken, RowHasKey(k));
    if k == key {
      FilterAll(taken, RowHasKey(k));
    } else {
      FilterNone(taken, RowHasKey(k));
    }
  }

  lemma {:induction false} FilterLength<V>(s: seq<V>, p: V -> bool)
    requires |Filter(s, p)| == |s|
    ensures Filter(s, p) == s
  {
    if s != [] {
      assert s == s[..|s| - 1] + [s[|s| - 1]];
      FilterLength(s[..|s| - 1], p);
    }
  }

  lemma RowsSnoc<V>(vs: seq<V>, v: V, row: V -> Row)
    ensures Rows(vs + [v], row) == Rows(vs, row) + [row(v)]
  {
    assert (vs + [v])[..|vs|] == vs;
  }

  /** The inner loop of `filter_list` and `filter_dict_elems`: one list. */
  method FilterOne<V>(evs: seq<V>, leaves: V -> bool, ghost stays: V -> bool, row: V -> Row)
    returns (keep: seq<V>, taken: seq<Row>)
    requires forall i :: 0 <= i < |evs| ==> stays(evs[i]) == !leaves(evs[i])
    ensures keep == Filter(evs, stays)
    ensures taken == Rows(Filter(evs, leaves), row)
    ensures |keep| + |taken| == |evs|
  {
    keep, taken := [], [];
    for i := 0 to |evs|
      invariant keep == Filter(evs[..i], stays)
      invariant taken == Rows(Filter(evs[..i], leaves), row)
      invariant |keep| + |taken| == i
    {
      assert evs[..i + 1] == evs[..i] + [evs[i]];
      FilterSnoc(evs[..i], evs[i], stays);
      FilterSnoc(evs[..i], evs[i], leaves);
      if leaves(evs[i]) {
        RowsSnoc(Filter(evs[..i], leaves), evs[i], row);
        taken := taken + [row(evs[i])];
      } else {
        keep := keep + [evs[i]];
      }
    }
    assert evs[..|evs|] == evs;
  }

  lemma TakenHaveKey<V>(d: map<Key, seq<V>>, key: Key, leaves: V -> bool, row: V -> Row, r: Row)
    requires key in d && forall i :: 0 <= i < |d[key]| && leaves(d[key][i]) ==> RowKey(row(d[key][i])) == Some(key)
    requires r in Rows(Filter(d[key], leaves), row)
    ensures RowKey(r) == Some(key)
  {
    var taken := Filter(d[key], leaves);
    FilterMembers(d[key], leaves);
    var i :| 0 <= i < |taken| && Rows(taken, row)[i] == r;
    assert taken[i] in d[key];
  }

  /** The list of `k` is filtered in `e` and its rows are in `removed`, unless it is still to do. */
  ghost predicate FilteredAt<V>(d: map<Key, seq<V>>, e: map<Key, seq<V>>, removed: seq<Row>, todo: set<Key>,
                                leaves: V -> bool, stays: V -> bool, row: V -> Row, k: Key)
  {
    if k in todo then k in d && k in e && e[k] == d[k] && RowsFor(removed, k) == []
    else
      Get(e, k) == Filter(Get(d, k), stays) && RowsFor(removed, k) == Rows(Filter(Get(d, k), leaves), row)
  }

  lemma FilteredStep<V>(d: map<Key, seq<V>>, e: map<Key, seq<V>>, f: map<Key, seq<V>>, removed: seq<Row>, todo: set<Key>,
                        key: Key, taken: seq<Row>, leaves: V -> bool, stays: V -> bool, row: V -> Row, k: Key)
    requires FilteredAt(d, e, removed, todo, leaves, stays, row, k)
    requires key in todo && key in d && key in e
    requires f == if Filter(d[key], stays) == [] then e - {key} else e[key := Filter(d[key], stays)]
    requires taken == Rows(Filter(d[key], leaves), row)
    requires forall r :: r in taken ==> RowKey(r) == Some(key)
    ensures FilteredAt(d, f, removed + taken, todo - {key}, leaves, stays, row, k)
  {
    RowsForExtended(removed, taken, key, k);
    if k == key {
      assert [] + taken == taken;
    }
  }

  ghost predicate Filtered<V>(d: map<Key, seq<V>>, e: map<Key, seq<V>>, removed: seq<Row>, todo: set<Key>,
                              leaves: V -> bool, stays: V -> bool, row: V -> Row)
  {
    (forall k :: FilteredAt(d, e, removed, todo, leaves, stays, row, k)) && Total(e) + |removed| == Total(d) &&
    forall r :: r in removed ==> RowKey(r).Some?
  }

  lemma FilteredStart<V>(d: map<Key, seq<V>>, leaves: V -> bool, stays: V -> bool, row: V -> Row)
    ensures Filtered(d, d, [], d.Keys, leaves, stays, row)
  {
  }

  /** One turn of the outer loop. */
  method FilterKey<V>(ghost d: map<Key, seq<V>>, ghost e: map<Key, seq<V>>, ghost removed: seq<Row>, ghost todo: set<Key>,
                      key: Key, evs: seq<V>, leaves: V -> bool, ghost stays: V -> bool, row: V -> Row)
    returns (keep: seq<V>, taken: seq<Row>)
    requires forall k, i :: k in d && 0 <= i < |d[k]| ==>
               stays(d[k][i]) == !leaves(d[k][i]) && (leaves(d[k][i]) ==> RowKey(row(d[k][i])) == Some(k))
    requires Filtered(d, e, removed, todo, leaves, stays, row)
    requires key in todo && key in e && evs == e[key]
    ensures Filtered(d, if keep == [] then e - {key} else e[key := keep], removed + taken, todo - {key}, leaves, stays, row)
    ensures |keep| == |evs| ==> keep == evs
  {
    assert FilteredAt(d, e, removed, todo, leaves, stays, row, key);
    keep, taken := FilterOne(evs, leaves, stays, row);
    forall r | r in taken ensures RowKey(r) == Some(key) {
      TakenHaveKey(d, key, leaves, row, r);
    }
    ghost var f := if keep == [] then e - {key} else e[key := keep];
    forall k ensures FilteredAt(d, f, removed + taken, todo - {key}, leaves, stays, row, k) {
      FilteredStep(d, e, f, removed, todo, key, taken, leaves, stays, row, k);
    }
    TotalDelete(e, key);
    TotalUpdate(e, key, keep);
    if |keep| == |evs| {
      FilterLength(evs, stays);
    }
  }

  /** `filter_list` and `filter_dict_elems`: takes the elements satisfying `leaves` out of
      every list, drops lists that become empty, and returns a row for each element taken. */
  method FilterDict<V>(d: map<Key, seq<V>>, leaves: V -> bool, ghost stays: V -> bool, row: V -> Row)
    returns (rest: map<Key, seq<V>>, removed: seq<Row>)
    requires forall k, i :: k in d && 0 <= i < |d[k]| ==>
               stays(d[k][i]) == !leaves(d[k][i]) && (leaves(d[k][i]) ==> RowKey(row(d[k][i])) == Some(k))
    ensures Filtered(d, rest, removed, {}, leaves, stays, row)
  {
    rest, removed := d, [];
    var todo, keysToDelete: set<Key> := d.Keys, {};
    FilteredStart(d, leaves, stays, row);
    assert d - keysToDelete == d;
    while todo != {}
      invariant keysToDelete !! todo && keysToDelete <= rest.Keys && todo <= rest.Keys
      invariant Filtered(d, rest - keysToDelete, removed, todo, leaves, stays, row)
    {
      var key :| key in todo;
      ghost var e := rest - keysToDelete;
      var keep, taken := FilterKey(d, e, removed, todo, key, rest[key], leaves, stays, row);
      if |keep| == 0 {
        assert rest - (keysToDelete + {key}) == e - {key};
        keysToDelete := keysToDelete + {key};
      } else if |rest[key]| != |keep| {
        assert rest[key := keep] - keysToDelete == e[key := keep];
        rest := rest[key := keep];
      } else {
        assert e[key := keep] == e;
      }
      removed, todo := removed + taken, todo - {key};
    }
    rest := DeleteKeys(rest, keysToDelete);
  }

  /** The loop over `keys_to_delete`. */
  method DeleteKeys<V>(d: map<Key, seq<V>>, keysToDelete: set<Key>) returns (rest: map<Key, seq<V>>)
    requires keysToDelete <= d.Keys
    ensures rest == d - keysToDelete
  {
    rest := d;
    var todo := keysToDelete;
    while todo != {}
      invariant todo <= rest.Keys && rest - todo == d - keysToDelete
    {
      var key :| key in todo;
      rest, todo := rest - {key}, todo - {key};
    }
    assert rest == rest - todo;
  }

  /** One block of `evict` over a dictionary of events, with its count check. */
  method EvictEvents(d: map<Key, seq<Event>>, b: int, tag: string) returns (rest: map<Key, seq<Event>>, tmp: seq<Row>)
    requires forall k, i :: k in d && 0 <= i < |d[k]| ==> KeyOf(d[k][i]) == k
    ensures Filtered(d, rest, tmp, {}, InBatch(b), NotInBatch(b), EventRow(tag))
  {
    var before := Count(d);
    rest, tmp := FilterDict(d, InBatch(b), NotInBatch(b), EventRow(tag));
    var after := Count(rest);
    assert after + |tmp| == before;
  }

  ghost predicate FilteredRecordsAt(d: map<Key, seq<Record>>, e: map<Key, seq<Record>>, removed: seq<Row>,
                                    h: Head, b: int, tag: string, k: Key)
  {
    FilteredAt(d, e, removed, {}, HeadInBatch(h, b), HeadNotInBatch(h, b), RecordRow(h, tag), k)
  }

  ghost predicate FilteredRecords(d: map<Key, seq<Record>>, e: map<Key, seq<Record>>, removed: seq<Row>,
                                  h: Head, b: int, tag: string)
  {
    (forall k :: FilteredRecordsAt(d, e, removed, h, b, tag, k)) && forall r :: r in removed ==> RowKey(r).Some?
  }

  /** The packet that decides the batch is there, so reading it cannot fail. */
  ghost predicate HeadKnown(r: Record, h: Head, k: Key) {
    HeadOf(r, h).Some? && KeyOf(HeadOf(r, h).value) == k && (h.HeadRsyn? ==> r.isyn.None?)
  }

  ghost predicate Headed(d: map<Key, seq<Record>>, h: Head) {
    forall k, i :: k in d && 0 <= i < |d[k]| ==> HeadKnown(d[k][i], h, k)
  }

  lemma HeadedList(d: map<Key, seq<Record>>, h: Head, k: Key)
    requires Headed(d, h) && k in d
    ensures forall r :: r in d[k] ==> HeadOf(r, h).Some?
  {
    forall r | r in d[k] ensures HeadOf(r, h).Some? {
      var i :| 0 <= i < |d[k]| && d[k][i] == r;
      assert HeadKnown(d[k][i], h, k);
    }
  }

  lemma RowsForParts(t0: seq<Row>, t1: seq<Row>, t2: seq<Row>, t3: seq<Row>, t4: seq<Row>, t5: seq<Row>, k: Key)
    ensures RowsFor(t0 + t1 + t2 + t3 + t4 + t5, k) ==
            RowsFor(t0, k) + RowsFor(t1, k) + RowsFor(t2, k) + RowsFor(t3, k) + RowsFor(t4, k) + RowsFor(t5, k)
  {
    var p := RowHasKey(k);
    FilterConcat(t0, t1, p);
    FilterConcat(t0 + t1, t2, p);
    FilterConcat(t0 + t1 + t2, t3, p);
    FilterConcat(t0 + t1 + t2 + t3, t4, p);
    FilterConcat(t0 + t1 + t2 + t3 + t4, t5, p);
  }

  /** One block of `evict` over a dictionary of records, with its count check. */
  method EvictRecords(d: map<Key, seq<Record>>, b: int, h: Head, tag: string) returns (rest: map<Key, seq<Record>>, tmp: seq<Row>)
    requires Headed(d, h)
    ensures FilteredRecords(d, rest, tmp, h, b, tag)
  {
    var before := Count(d);
    rest, tmp := FilterDict(d, HeadInBatch(h, b), HeadNotInBatch(h, b), RecordRow(h, tag));
    var after := Count(rest);
    assert after + |tmp| == before;
  }

  class PhaseMatcher {
    // Single events.
    var irregularSyns: map<Key, seq<Event>>
    var regularSyns: map<Key, seq<Event>>
    var acks: map<Key, seq<Event>>
    // Records with `isyn` and `iack`, and with `rsyn` and `rack`.
    var irregularAcked: map<Key, seq<Record>>
    var regularAcked: map<Key, seq<Record>>
    // Records with both phases; in `twoPhase` the regular one is acknowledged.
    var twoPhaseNoAck: map<Key, seq<Record>>
    var twoPhase: map<Key, seq<Record>>
    var repeatedConnectionAttempts: map<Key, seq<Record>>
    var retransmitCache: map<int, set<Tuple>>
    var retransmits: map<int, seq<Event>>
    const phaseTimeout: int
    /** Every public call so far. */
    ghost var history: seq<Op>

    /** The lists of one key. */
    ghost function CellAt(k: Key): Cell
      reads `irregularSyns, `regularSyns, `acks, `irregularAcked, `regularAcked, `twoPhaseNoAck, `twoPhase,
            `repeatedConnectionAttempts
    {
      Cell(Get(irregularSyns, k), Get(regularSyns, k), Get(acks, k), Get(irregularAcked, k), Get(regularAcked, k),
           Get(twoPhaseNoAck, k), Get(twoPhase, k), Get(repeatedConnectionAttempts, k))
    }

    ghost function CacheAt(b: int): set<Tuple>
      reads `retransmitCache
    {
      if b in retransmitCache then retransmitCache[b] else {}
    }

    /** The fields hold what the calls so far amount to. */
    ghost predicate Valid()
      reads this
    {
      ListsValid() && RetransmitsValid()
    }

    ghost predicate ListsValid()
      reads this
    {
      forall k :: CellAt(k) == CellOf(history, k, phaseTimeout)
    }

    ghost predicate RetransmitsValid()
      reads this
    {
      (forall b :: CacheAt(b) == Seen(history, b)) &&
      (forall b :: Get(retransmits, b) == Retransmits(history, b))
    }

    constructor (timeout: int)
      ensures Valid() && history == [] && phaseTimeout == timeout
    {
      irregularSyns, regularSyns, acks := map[], map[], map[];
      irregularAcked, regularAcked := map[], map[];
      twoPhaseNoAck, twoPhase, repeatedConnectionAttempts := map[], map[], map[];
      retransmitCache, retransmits := map[], map[];
      phaseTimeout := timeout;
      history := [];
    }

    // -- matching ------------------------------------------------------------------------

    method TryMatchRsynToIsyn(rsyn: Event, key: Key) returns (matched: bool)
      modifies `irregularSyns, `twoPhaseNoAck
      ensures matched == RsynToIsyn(old(CellAt(key)), rsyn, phaseTimeout).Some?
      ensures CellAt(key) == if matched then RsynToIsyn(old(CellAt(key)), rsyn, phaseTimeout).value else old(CellAt(key))
      ensures forall k :: k != key ==> CellAt(k) == old(CellAt(k))
    {
      if key !in irregularSyns {
        return false;
      }
      var tsSyn := SynTs(rsyn);
      var repertory := irregularSyns[key];
      var i := 0;
      while i < |repertory| && !WithinTimeout(repertory[i].confirmation, tsSyn, phaseTimeout)
        invariant i <= |repertory|
        invariant forall j :: 0 <= j < i ==> !Open(tsSyn, phaseTimeout)(repertory[j])
      {
        i := i + 1;
      }
      FirstUnique(repertory, Open(tsSyn, phaseTimeout), i);
      if i == |repertory| {
        return false;
      }
      var d := Record(Some(repertory[i]), None, Some(rsyn), None, None);
      twoPhaseNoAck := twoPhaseNoAck[key := Get(twoPhaseNoAck, key) + [d]];
      var before := |irregularSyns[key]|;
      irregularSyns := irregularSyns[key := Delete(repertory, i)];
      assert before == |irregularSyns[key]| + 1;
      return true;
    }

    method TryMatchRsynToIsynAcked(rsyn: Event, key: Key) returns (matched: bool)
      modifies `irregularAcked, `twoPhaseNoAck
      ensures matched == RsynToIsynAcked(old(CellAt(key)), rsyn, phaseTimeout).Some?
      ensures CellAt(key) == if matched then RsynToIsynAcked(old(CellAt(key)), rsyn, phaseTimeout).value else old(CellAt(key))
      ensures forall k :: k != key ==> CellAt(k) == old(CellAt(k))
    {
      if key !in irregularAcked {
        return false;
      }
      var tsSyn := SynTs(rsyn);
      var repertory := irregularAcked[key];
      var i := FindOpenPhase(repertory, tsSyn);
      if i == |repertory| {
        return false;
      }
      var p1 := repertory[i].(rsyn := Some(rsyn), rack := None);
      twoPhaseNoAck := twoPhaseNoAck[key := Get(twoPhaseNoAck, key) + [p1]];
      var before := |irregularAcked[key]|;
      irregularAcked := irregularAcked[key := Delete(repertory, i)];
      assert before == |irregularAcked[key]| + 1;
      return true;
    }

    /** The search loop shared by everything that looks for a first phase among records. */
    method FindOpenPhase(repertory: seq<Record>, tsSyn: nat) returns (i: nat)
      ensures i == First(repertory, IsynOpen(tsSyn, phaseTimeout))
    {
      i := 0;
      while i < |repertory| && !(repertory[i].isyn.Some? && WithinTimeout(repertory[i].isyn.value.confirmation, tsSyn, phaseTimeout))
        invariant i <= |repertory|
        invariant forall j :: 0 <= j < i ==> !IsynOpen(tsSyn, phaseTimeout)(repertory[j])
      {
        i := i + 1;
      }
      FirstUnique(repertory, IsynOpen(tsSyn, phaseTimeout), i);
    }

    method TryMatchRsynAckedToIsyn(p2: Record, key: Key) returns (matched: bool)
      requires p2.rsyn.Some?
      modifies `irregularSyns, `twoPhase
      ensures matched == RsynAckedToIsyn(old(CellAt(key)), p2, phaseTimeout).Some?
      ensures CellAt(key) == if matched then RsynAckedToIsyn(old(CellAt(key)), p2, phaseTimeout).value else old(CellAt(key))
      ensures forall k :: k != key ==> CellAt(k) == old(CellAt(k))
    {
      if key !in irregularSyns {
        return false;
      }
      var tsSyn := SynTs(p2.rsyn.value);
      var repertory := irregularSyns[key];
      var i := 0;
      while i < |repertory| && !WithinTimeout(repertory[i].confirmation, tsSyn, phaseTimeout)
        invariant i <= |repertory|
        invariant forall j :: 0 <= j < i ==> !Open(tsSyn, phaseTimeout)(repertory[j])
      {
        i := i + 1;
      }
      FirstUnique(repertory, Open(tsSyn, phaseTimeout), i);
      if i == |repertory| {
        return false;
      }
      twoPhase := twoPhase[key := Get(twoPhase, key) + [p2.(isyn := Some(repertory[i]))]];
      var before := |irregularSyns[key]|;
      irregularSyns := irregularSyns[key := Delete(repertory, i)];
      assert before == |irregularSyns[key]| + 1;
      return true;
    }

    method TryMatchRsynAckedToIsynAcked(p2: Record, key: Key) returns (matched: bool)
      requires p2.rsyn.Some?
      modifies `irregularAcked, `twoPhase
      ensures matched == RsynAckedToIsynAcked(old(CellAt(key)), p2, phaseTimeout).Some?
      ensures CellAt(key) == if matched then RsynAckedToIsynAcked(old(CellAt(key)), p2, phaseTimeout).value else old(CellAt(key))
      ensures forall k :: k != key ==> CellAt(k) == old(CellAt(k))
    {
      if key !in irregularAcked {
        return false;
      }
      var tsSyn := SynTs(p2.rsyn.value);
      var repertory := irregularAcked[key];
      var i := FindOpenPhase(repertory, tsSyn);
      if i == |repertory| {
        return false;
      }
      var p1 := repertory[i].(rsyn := p2.rsyn, rack := p2.rack);
      twoPhase := twoPhase[key := Get(twoPhase, key) + [p1]];
      var before := |irregularAcked[key]|;
      irregularAcked := irregularAcked[key := Delete(repertory, i)];
      assert before == |irregularAcked[key]| + 1;
      return true;
    }

    /** The search loop of `try_match_ack_to_isyn` and `try_match_ack_to_rsyn`. */
    method FindSyn(repertory: seq<Event>, ack: Event) returns (i: nat)
      ensures i == First(repertory, Ackable(ack))
    {
      i := 0;
      while i < |repertory| && !IsMatchingAck(repertory[i], ack)
        invariant i <= |repertory|
        invariant forall j :: 0 <= j < i ==> !Ackable(ack)(repertory[j])
      {
        i := i + 1;
      }
      FirstUnique(repertory, Ackable(ack), i);
    }

    method TryMatchAckToIsyn(ack: Event, key: Key) returns (matched: bool)
      modifies `irregularSyns, `irregularAcked
      ensures matched == AckToIsyn(old(CellAt(key)), ack).Some?
      ensures CellAt(key) == if matched then AckToIsyn(old(CellAt(key)), ack).value else old(CellAt(key))
      ensures forall k :: k != key ==> CellAt(k) == old(CellAt(k))
    {
      if key !in irregularSyns {
        return false;
      }
      var repertory := irregularSyns[key];
      var i := FindSyn(repertory, ack);
      if i == |repertory| {
        return false;
      }
      var d := Record(Some(repertory[i]), Some(ack), None, None, None);
      irregularAcked := irregularAcked[key := Get(irregularAcked, key) + [d]];
      var before := |irregularSyns[key]|;
      irregularSyns := irregularSyns[key := Delete(repertory, i)];
      assert before == |irregularSyns[key]| + 1;
      return true;
    }

    method TryMatchAckToRsyn(ack: Event, key: Key) returns (matched: bool)
      modifies `regularSyns, `regularAcked
      ensures matched == AckToRsyn(old(CellAt(key)), ack).Some?
      ensures CellAt(key) == if matched then AckToRsyn(old(CellAt(key)), ack).value else old(CellAt(key))
      ensures forall k :: k != key ==> CellAt(k) == old(CellAt(k))
    {
      if key !in regularSyns {
        return false;
      }
      var repertory := regularSyns[key];
      var i := FindSyn(repertory, ack);
      if i == |repertory| {
        return false;
      }
      var d := Record(None, None, Some(repertory[i]), Some(ack), None);
      regularAcked := regularAcked[key := Get(regularAcked, key) + [d]];
      var before := |regularSyns[key]|;
      regularSyns := regularSyns[key := Delete(repertory, i)];
      assert before == |regularSyns[key]| + 1;
      return true;
    }

    method TryMatchAckToTwoPhase(ack: Event, key: Key) returns (matched: bool)
      modifies `twoPhaseNoAck, `twoPhase
      ensures matched == AckToTwoPhase(old(CellAt(key)), ack).Some?
      ensures CellAt(key) == if matched then AckToTwoPhase(old(CellAt(key)), ack).value else old(CellAt(key))
      ensures forall k :: k != key ==> CellAt(k) == old(CellAt(k))
    {
      if key !in twoPhaseNoAck {
        return false;
      }
      var repertory := twoPhaseNoAck[key];
      var i := 0;
      while i < |repertory| && !(repertory[i].rsyn.Some? && IsMatchingAck(repertory[i].rsyn.value, ack))
        invariant i <= |repertory|
        invariant forall j :: 0 <= j < i ==> !RsynAckable(ack)(repertory[j])
      {
        i := i + 1;
      }
      FirstUnique(repertory, RsynAckable(ack), i);
      if i == |repertory| {
        return false;
      }
      twoPhase := twoPhase[key := Get(twoPhase, key) + [repertory[i].(rack := Some(ack))]];
      var before := |twoPhaseNoAck[key]|;
      twoPhaseNoAck := twoPhaseNoAck[key := Delete(repertory, i)];
      assert before == |twoPhaseNoAck[key]| + 1;
      return true;
    }

    /** The three-way cascade of an ACK. */
    method TryMatchAck(ack: Event, key: Key) returns (matched: bool)
      modifies `irregularSyns, `irregularAcked, `regularSyns, `regularAcked, `twoPhaseNoAck, `twoPhase
      ensures matched == MatchAck(old(CellAt(key)), ack).Some?
      ensures CellAt(key) == if matched then MatchAck(old(CellAt(key)), ack).value else old(CellAt(key))
      ensures forall k :: k != key ==> CellAt(k) == old(CellAt(k))
    {
      matched := TryMatchAckToRsyn(ack, key);
      if !matched {
        matched := TryMatchAckToIsyn(ack, key);
        if !matched {
          matched := TryMatchAckToTwoPhase(ack, key);
        }
      }
    }

    /** The two-way cascade of a regular SYN. */
    method TryMatchRsyn(rsyn: Event, key: Key) returns (matched: bool)
      modifies `irregularSyns, `irregularAcked, `twoPhaseNoAck
      ensures matched == MatchRsyn(old(CellAt(key)), rsyn, phaseTimeout).Some?
      ensures CellAt(key) == if matched then MatchRsyn(old(CellAt(key)), rsyn, phaseTimeout).value else old(CellAt(key))
      ensures forall k :: k != key ==> CellAt(k) == old(CellAt(k))
    {
      matched := TryMatchRsynToIsyn(rsyn, key);
      if !matched {
        matched := TryMatchRsynToIsynAcked(rsyn, key);
      }
    }

    /** The two-way cascade of an acknowledged regular SYN. */
    method TryMatchRsynAcked(p2: Record, key: Key) returns (matched: bool)
      requires p2.rsyn.Some?
      modifies `irregularSyns, `irregularAcked, `twoPhase
      ensures matched == MatchRsynAcked(old(CellAt(key)), p2, phaseTimeout).Some?
      ensures CellAt(key) == if matched then MatchRsynAcked(old(CellAt(key)), p2, phaseTimeout).value else old(CellAt(key))
      ensures forall k :: k != key ==> CellAt(k) == old(CellAt(k))
    {
      matched := TryMatchRsynAckedToIsyn(p2, key);
      if !matched {
        matched := TryMatchRsynAckedToIsynAcked(p2, key);
      }
    }

    // -- repeated connections -----------------------------------------------------------------

    method TryMatchRsynAckedToTpNoAck(rseq: Record, key: Key) returns (matched: bool)
      requires rseq.rsyn.Some?
      modifies `repeatedConnectionAttempts
      ensures matched == Repeat(old(CellAt(key)), old(CellAt(key)).twoPhaseNoAck, rseq, phaseTimeout).Some?
      ensures CellAt(key) == if matched then Repeat(old(CellAt(key)), old(CellAt(key)).twoPhaseNoAck, rseq, phaseTimeout).value
                             else old(CellAt(key))
      ensures forall k :: k != key ==> CellAt(k) == old(CellAt(k))
    {
      if key !in twoPhaseNoAck {
        return false;
      }
      matched := AppendRepeat(rseq, key, twoPhaseNoAck[key]);
    }

    method TryMatchRsynAckedToTp(rseq: Record, key: Key) returns (matched: bool)
      requires rseq.rsyn.Some?
      modifies `repeatedConnectionAttempts
      ensures matched == Repeat(old(CellAt(key)), old(CellAt(key)).twoPhase, rseq, phaseTimeout).Some?
      ensures CellAt(key) == if matched then Repeat(old(CellAt(key)), old(CellAt(key)).twoPhase, rseq, phaseTimeout).value
                             else old(CellAt(key))
      ensures forall k :: k != key ==> CellAt(k) == old(CellAt(k))
    {
      if key !in twoPhase {
        return false;
      }
      matched := AppendRepeat(rseq, key, twoPhase[key]);
    }

    method AppendRepeat(rseq: Record, key: Key, repertory: seq<Record>) returns (matched: bool)
      requires rseq.rsyn.Some?
      modifies `repeatedConnectionAttempts
      ensures matched == Repeat(old(CellAt(key)), repertory, rseq, phaseTimeout).Some?
      ensures CellAt(key) == if matched then Repeat(old(CellAt(key)), repertory, rseq, phaseTimeout).value else old(CellAt(key))
      ensures forall k :: k != key ==> CellAt(k) == old(CellAt(k))
    {
      var i := FindOpenPhase(repertory, SynTs(rseq.rsyn.value));
      if i == |repertory| {
        return false;
      }
      var r := rseq.(ident := Some(IdentOf(repertory[i].isyn.value)));
      repeatedConnectionAttempts :=
        repeatedConnectionAttempts[key := Get(repeatedConnectionAttempts, key) + [r]];
      return true;
    }

    // -- retransmits ----------------------------------------------------------------------------

    method CheckRetransmit(event: Event) returns (again: bool)
      requires forall b :: CacheAt(b) == Seen(history, b)
      requires !IsRst(event.packet)
      modifies `retransmitCache
      ensures again == IsRetransmit(history, event)
      ensures forall b :: CacheAt(b) == SeenStep(Seen(history, b), AddEvent(event), b)
    {
      var tup, batchId := TupleOf(event), event.batchId;
      assert CacheAt(batchId) == Seen(history, batchId);
      assert CacheAt(batchId - 1) == Seen(history, batchId - 1);
      if batchId in retransmitCache && tup in retransmitCache[batchId] {
        again := true;
      } else if batchId > 0 && batchId - 1 in retransmitCache && tup in retransmitCache[batchId - 1] {
        AddToCache(batchId, tup);
        again := true;
      } else {
        AddToCache(batchId, tup);
        again := false;
      }
    }

    method AddToCache(batchId: int, tup: Tuple)
      modifies `retransmitCache
      ensures CacheAt(batchId) == old(CacheAt(batchId)) + {tup}
      ensures forall b :: b != batchId ==> CacheAt(b) == old(CacheAt(b))
    {
      var batch := if batchId in retransmitCache then retransmitCache[batchId] else {};
      retransmitCache := retransmitCache[batchId := batch + {tup}];
    }

    method DropRetransmits(batchId: int)
      requires RetransmitsValid()
      modifies `retransmitCache, `retransmits
      ensures RetransmitsAdvanced(EvictRetransmits(batchId))
    {
      if batchId in retransmitCache {
        retransmitCache := retransmitCache - {batchId};
      }
      retransmits := map[];
      assert |retransmits| == 0;
      forall b ensures CacheAt(b) == SeenStep(Seen(history, b), EvictRetransmits(batchId), b) {
        assert old(CacheAt(b)) == Seen(history, b);
      }
    }

    /** `evict_retransmits` */
    method EvictRetransmitCache(batchId: int)
      requires Valid()
      modifies this
      ensures Valid() && history == old(history) + [EvictRetransmits(batchId)]
    {
      DropRetransmits(batchId);
      RecordCall(EvictRetransmits(batchId));
    }

    lemma AllSound()
      requires Valid()
      ensures forall k :: Sound(CellAt(k), k, phaseTimeout)
    {
      forall k ensures Sound(CellAt(k), k, phaseTimeout) {
        RunIsSound(history, k, phaseTimeout);
      }
    }

    // -- public operations --------------------------------------------------------------------

    /** `add_event` behind the RST and retransmit filters. */
    method MatchOrStore(event: Event)
      modifies `irregularSyns, `irregularAcked, `regularSyns, `regularAcked, `twoPhaseNoAck, `twoPhase, `acks
      ensures CellAt(KeyOf(event)) == Add(old(CellAt(KeyOf(event))), event, phaseTimeout)
      ensures forall k :: k != KeyOf(event) ==> CellAt(k) == old(CellAt(k))
    {
      var key := KeyOf(event);
      if IsIrregularSyn(event.packet) {
        irregularSyns := irregularSyns[key := Get(irregularSyns, key) + [event]];
      } else if IsSyn(event.packet) {
        var matched := TryMatchRsyn(event, key);
        if !matched {
          regularSyns := regularSyns[key := Get(regularSyns, key) + [event]];
        }
      } else if IsAck(event.packet) {
        var matched := TryMatchAck(event, key);
        if !matched {
          acks := acks[key := Get(acks, key) + [event]];
        }
      }
    }

    method SetAsideRetransmit(event: Event) returns (again: bool)
      requires RetransmitsValid() && !IsRst(event.packet)
      modifies `retransmitCache, `retransmits
      ensures again == IsRetransmit(history, event)
      ensures RetransmitsAdvanced(AddEvent(event))
    {
      again := CheckRetransmit(event);
      if again {
        retransmits := retransmits[event.batchId := Get(retransmits, event.batchId) + [event]];
      }
    }

    /** `add_event` */
    method HandleEvent(event: Event)
      requires Valid()
      modifies this
      ensures Valid() && history == old(history) + [AddEvent(event)]
    {
      if !IsRst(event.packet) {
        var again := SetAsideRetransmit(event);
        if !again {
          MatchOrStore(event);
        }
      }
      forall k ensures CellAt(k) == Step(history, CellOf(history, k, phaseTimeout), AddEvent(event), k, phaseTimeout) {
        assert old(CellAt(k)) == CellOf(history, k, phaseTimeout);
      }
      RecordCall(AddEvent(event));
    }

    /** The ACK loop of `try_match_everything` over the ACKs of one key. */
    method MatchAckList(key: Key, ackList: seq<Event>) returns (remaining: seq<Event>)
      modifies `irregularSyns, `irregularAcked, `regularSyns, `regularAcked, `twoPhaseNoAck, `twoPhase
      ensures MatchAcks(old(CellAt(key)), ackList) == (CellAt(key), remaining)
      ensures forall k :: k != key ==> CellAt(k) == old(CellAt(k))
    {
      remaining := [];
      for i := 0 to |ackList|
        invariant MatchAcks(old(CellAt(key)), ackList[..i]) == (CellAt(key), remaining)
        invariant forall k :: k != key ==> CellAt(k) == old(CellAt(k))
      {
        assert ackList[..i + 1][..i] == ackList[..i];
        var matched := TryMatchAck(ackList[i], key);
        if !matched {
          remaining := remaining + [ackList[i]];
        }
      }
      assert ackList[..|ackList|] == ackList;
    }

    method MatchAcksOf(key: Key)
      requires key in acks
      modifies `irregularSyns, `irregularAcked, `regularSyns, `regularAcked, `twoPhaseNoAck, `twoPhase, `acks
      ensures CellAt(key) == AcksPass(old(CellAt(key)))
      ensures forall k :: k != key ==> CellAt(k) == old(CellAt(k))
      ensures acks.Keys == old(acks.Keys)
    {
      var remaining := MatchAckList(key, acks[key]);
      acks := acks[key := remaining];
      assert |acks[key]| == |remaining|;
    }

    method MatchAllAcks()
      modifies `irregularSyns, `irregularAcked, `regularSyns, `regularAcked, `twoPhaseNoAck, `twoPhase, `acks
      ensures forall k :: CellAt(k) == AcksPass(old(CellAt(k)))
    {
      var todo := acks.Keys;
      while todo != {}
        invariant todo <= acks.Keys == old(acks.Keys)
        invariant forall k :: CellAt(k) == if k in acks.Keys - todo then AcksPass(old(CellAt(k))) else old(CellAt(k))
      {
        var key :| key in todo;
        MatchAcksOf(key);
        todo := todo - {key};
      }
    }

    /** The regular-SYN loop of `try_match_everything` for one key: stops at the first match. */
    method MatchRsynsOf(key: Key)
      requires key in regularSyns
      modifies `irregularSyns, `irregularAcked, `twoPhaseNoAck, `regularSyns
      ensures CellAt(key) == RsynsPass(old(CellAt(key)), phaseTimeout)
      ensures forall k :: k != key ==> CellAt(k) == old(CellAt(k))
      ensures regularSyns.Keys == old(regularSyns.Keys)
    {
      ghost var c := CellAt(key);
      var rsyns := regularSyns[key];
      var i := 0;
      while i < |rsyns|
        invariant i <= |rsyns| && CellAt(key) == c && regularSyns == old(regularSyns)
        invariant First(rsyns[..i], HasFirstPhase(c, phaseTimeout)) == i
        invariant forall k :: k != key ==> CellAt(k) == old(CellAt(k))
      {
        var matched := TryMatchRsyn(rsyns[i], key);
        FirstPrefix(rsyns, HasFirstPhase(c, phaseTimeout), i);
        if matched {
          regularSyns := regularSyns[key := Delete(rsyns, i)];
          return;
        }
        i := i + 1;
      }
      assert rsyns[..|rsyns|] == rsyns;
    }

    method MatchAllRsyns()
      modifies `irregularSyns, `irregularAcked, `twoPhaseNoAck, `regularSyns
      ensures forall k :: CellAt(k) == RsynsPass(old(CellAt(k)), phaseTimeout)
    {
      var todo := regularSyns.Keys;
      while todo != {}
        invariant todo <= regularSyns.Keys == old(regularSyns.Keys)
        invariant forall k :: CellAt(k) == if k in regularSyns.Keys - todo then RsynsPass(old(CellAt(k)), phaseTimeout)
                                           else old(CellAt(k))
      {
        var key :| key in todo;
        MatchRsynsOf(key);
        todo := todo - {key};
      }
    }

    /** The loop over acknowledged regular SYNs for one key: stops at the first match. */
    method MatchRsynsAckedOf(key: Key)
      requires key in regularAcked && forall r :: r in regularAcked[key] ==> r.rsyn.Some?
      modifies `irregularSyns, `irregularAcked, `twoPhase, `regularAcked
      ensures CellAt(key) == RsynsAckedPass(old(CellAt(key)), phaseTimeout)
      ensures forall k :: k != key ==> CellAt(k) == old(CellAt(k))
      ensures regularAcked.Keys == old(regularAcked.Keys)
    {
      ghost var c := CellAt(key);
      var rseqs := regularAcked[key];
      var i := 0;
      while i < |rseqs|
        invariant i <= |rseqs| && CellAt(key) == c && regularAcked == old(regularAcked)
        invariant First(rseqs[..i], HasFirstPhaseAcked(c, phaseTimeout)) == i
        invariant forall k :: k != key ==> CellAt(k) == old(CellAt(k))
      {
        assert rseqs[i] in rseqs;
        var matched := TryMatchRsynAcked(rseqs[i], key);
        FirstPrefix(rseqs, HasFirstPhaseAcked(c, phaseTimeout), i);
        if matched {
          regularAcked := regularAcked[key := Delete(rseqs, i)];
          return;
        }
        i := i + 1;
      }
      assert rseqs[..|rseqs|] == rseqs;
    }

    method MatchAllRsynsAcked()
      requires Headed(regularAcked, HeadRsyn)
      modifies `irregularSyns, `irregularAcked, `twoPhase, `regularAcked
      ensures forall k :: CellAt(k) == RsynsAckedPass(old(CellAt(k)), phaseTimeout)
    {
      var todo := regularAcked.Keys;
      while todo != {}
        invariant todo <= regularAcked.Keys == old(regularAcked.Keys)
        invariant forall k :: CellAt(k) == if k in regularAcked.Keys - todo then RsynsAckedPass(old(CellAt(k)), phaseTimeout)
                                           else old(CellAt(k))
      {
        var key :| key in todo;
        assert CellAt(key).regularAcked == old(CellAt(key)).regularAcked;
        HeadedList(old(regularAcked), HeadRsyn, key);
        label turn:
        MatchRsynsAckedOf(key);
        todo := todo - {key};
        forall k ensures CellAt(k) == if k in regularAcked.Keys - todo then RsynsAckedPass(old(CellAt(k)), phaseTimeout)
                                      else old(CellAt(k)) {
          assert k != key ==> CellAt(k) == old@turn(CellAt(k));
        }
      }
    }

    method MatchAllCells()
      requires forall k :: Sound(CellAt(k), k, phaseTimeout)
      modifies `irregularSyns, `irregularAcked, `regularSyns, `regularAcked, `twoPhaseNoAck, `twoPhase, `acks
      ensures forall k :: CellAt(k) == Phases.MatchEverything(old(CellAt(k)), phaseTimeout)
    {
      MatchAllAcks();
      MatchAllRsyns();
      forall k ensures Sound(CellAt(k), k, phaseTimeout) {
        AcksPassSound(old(CellAt(k)), k, phaseTimeout);
        RsynsPassSound(AcksPass(old(CellAt(k))), k, phaseTimeout);
      }
      RecordKeys();
      MatchAllRsynsAcked();
    }

    /** `try_match_everything` */
    method MatchEverything()
      requires Valid()
      modifies this
      ensures Valid() && history == old(history) + [TryMatchEverything]
    {
      AllSound();
      MatchAllCells();
      RecordCall(TryMatchEverything);
    }

    /** The inner loop of `find_repeated_connections`. */
    method RepeatsOf(key: Key, rseqs: seq<Record>) returns (keep: seq<Record>, deleting: nat)
      requires forall r :: r in rseqs ==> r.rsyn.Some?
      modifies `repeatedConnectionAttempts
      ensures MatchRepeats(old(CellAt(key)), rseqs, phaseTimeout) == (CellAt(key), keep)
      ensures forall k :: k != key ==> CellAt(k) == old(CellAt(k))
      ensures |keep| + deleting == |rseqs|
    {
      keep, deleting := [], 0;
      for i := 0 to |rseqs|
        invariant MatchRepeats(old(CellAt(key)), rseqs[..i], phaseTimeout) == (CellAt(key), keep)
        invariant forall k :: k != key ==> CellAt(k) == old(CellAt(k))
        invariant |keep| + deleting == i
      {
        assert rseqs[i] in rseqs;
        assert rseqs[..i + 1][..i] == rseqs[..i];
        var matched := TryMatchRsynAckedToTpNoAck(rseqs[i], key);
        if !matched {
          matched := TryMatchRsynAckedToTp(rseqs[i], key);
        }
        if matched {
          deleting := deleting + 1;
        } else {
          keep := keep + [rseqs[i]];
        }
      }
      assert rseqs[..|rseqs|] == rseqs;
    }

    /** Every key is still to do, emptied and waiting for deletion, or done. */
    ghost predicate RepeatsProgress(start: imap<Key, Cell>, todo: set<Key>, emptied: set<Key>)
      reads this
    {
      forall k :: k in start && CellAt(k) == RepeatsSoFar(start[k], k !in todo, k in emptied) &&
                  (k in emptied ==> Phases.FindRepeated(start[k], phaseTimeout).regularAcked == [])
    }

    lemma RepeatsStart(start: imap<Key, Cell>)
      requires forall k :: k in start && start[k] == CellAt(k)
      ensures RepeatsProgress(start, regularAcked.Keys, {})
    {
    }

    /** One turn of the outer loop: an emptied list stays until `DeleteEmptied`. */
    method RepeatKey(key: Key) returns (empty: bool, deleting: nat)
      requires key in regularAcked && forall r :: r in regularAcked[key] ==> r.rsyn.Some?
      modifies `regularAcked, `repeatedConnectionAttempts
      ensures CellAt(key) == RepeatsSoFar(old(CellAt(key)), true, empty)
      ensures empty ==> Phases.FindRepeated(old(CellAt(key)), phaseTimeout).regularAcked == []
      ensures forall k :: k != key ==> CellAt(k) == old(CellAt(k))
      ensures regularAcked == old(regularAcked)[key := Get(regularAcked, key)]
      ensures Total(regularAcked) + deleting == Total(old(regularAcked))
    {
      var rseqs := regularAcked[key];
      var keep;
      keep, deleting := RepeatsOf(key, rseqs);
      MatchRepeatsExactly(old(CellAt(key)), rseqs, phaseTimeout);
      empty := |keep| == 0;
      if empty {
        deleting := 0;
      } else {
        TotalUpdate(regularAcked, key, keep);
        regularAcked := regularAcked[key := keep];
        assert |keep| + deleting == |rseqs|;
      }
    }

    method RepeatNextKey(key: Key, ghost start: imap<Key, Cell>, ghost todo: set<Key>, ghost emptied: set<Key>)
      returns (empty: bool, deleting: nat)
      requires key in regularAcked && forall r :: r in regularAcked[key] ==> r.rsyn.Some?
      requires RepeatsProgress(start, todo, emptied) && key in todo && key !in emptied
      modifies `regularAcked, `repeatedConnectionAttempts
      ensures RepeatsProgress(start, todo - {key}, if empty then emptied + {key} else emptied)
      ensures regularAcked == old(regularAcked)[key := Get(regularAcked, key)]
      ensures Total(regularAcked) + deleting == Total(old(regularAcked))
    {
      empty, deleting := RepeatKey(key);
      ghost var next := if empty then emptied + {key} else emptied;
      forall k ensures k in start && CellAt(k) == RepeatsSoFar(start[k], k !in todo - {key}, k in next) &&
                       (k in next ==> Phases.FindRepeated(start[k], phaseTimeout).regularAcked == []) {
        assert old(CellAt(k)) == RepeatsSoFar(start[k], k !in todo, k in emptied);
      }
    }

    /** Loop invariant of `find_repeated_connections`; `orig` is `regularAcked` as it was. */
    ghost predicate RepeatsInvariant(start: imap<Key, Cell>, orig: map<Key, seq<Record>>, todo: set<Key>,
                                     emptied: set<Key>, total: nat)
      reads this
    {
      RepeatsProgress(start, todo, emptied) && Headed(orig, HeadRsyn) &&
      todo <= regularAcked.Keys && emptied <= regularAcked.Keys && emptied !! todo &&
      (forall k :: k in todo ==> k in orig && regularAcked[k] == orig[k]) &&
      Total(regularAcked) + total == Total(orig)
    }

    method RepeatTurn(todo: set<Key>, emptied: set<Key>, total: nat, ghost start: imap<Key, Cell>, ghost orig: map<Key, seq<Record>>)
      returns (todo': set<Key>, emptied': set<Key>, total': nat)
      requires RepeatsInvariant(start, orig, todo, emptied, total) && todo != {}
      modifies `regularAcked, `repeatedConnectionAttempts
      ensures RepeatsInvariant(start, orig, todo', emptied', total') && todo' < todo
    {
      var key :| key in todo;
      HeadedList(orig, HeadRsyn, key);
      var empty, deleting := RepeatNextKey(key, start, todo, emptied);
      todo', emptied', total' := todo - {key}, if empty then emptied + {key} else emptied, total + deleting;
    }

    method FindAllRepeated()
      requires Headed(regularAcked, HeadRsyn)
      modifies `regularAcked, `repeatedConnectionAttempts
      ensures forall k :: CellAt(k) == Phases.FindRepeated(old(CellAt(k)), phaseTimeout)
    {
      var before := Count(regularAcked);
      ghost var start := imap k: Key | true :: CellAt(k);
      RepeatsStart(start);
      var todo, nowEmptyKeys, totalDeleting := regularAcked.Keys, {}, 0;
      while todo != {}
        invariant RepeatsInvariant(start, old(regularAcked), todo, nowEmptyKeys, totalDeleting)
        decreases todo
      {
        todo, nowEmptyKeys, totalDeleting := RepeatTurn(todo, nowEmptyKeys, totalDeleting, start, old(regularAcked));
      }
      label swept:
      totalDeleting := DeleteEmptied(nowEmptyKeys, totalDeleting, before);
      var after := Count(regularAcked);
      assert after + totalDeleting == before;
      forall k ensures CellAt(k) == Phases.FindRepeated(old(CellAt(k)), phaseTimeout) {
        assert old@swept(CellAt(k)) == RepeatsSoFar(start[k], true, k in nowEmptyKeys);
        MatchRepeatsExactly(start[k], start[k].regularAcked, phaseTimeout);
      }
    }

    /** `find_repeated_connections` */
    method FindRepeated()
      requires Valid()
      modifies this
      ensures Valid() && history == old(history) + [FindRepeatedConnections]
    {
      AllSound();
      RecordKeys();
      FindAllRepeated();
      RecordCall(FindRepeatedConnections);
    }

    /** The lists of a key during `find_repeated_connections`. */
    ghost function RepeatsSoFar(c: Cell, done: bool, emptied: bool): Cell {
      if !done then c
      else if emptied then MatchRepeats(c, c.regularAcked, phaseTimeout).0
      else Phases.FindRepeated(c, phaseTimeout)
    }

    method DeleteEmptied(keys: set<Key>, sum: nat, ghost before: nat) returns (totalDeleting: nat)
      requires keys <= regularAcked.Keys
      requires Total(regularAcked) + sum == before
      modifies `regularAcked
      ensures regularAcked == old(regularAcked) - keys
      ensures Total(regularAcked) + totalDeleting == before
    {
      totalDeleting := sum;
      var todo := keys;
      while todo != {}
        invariant todo <= keys && regularAcked == old(regularAcked) - (keys - todo)
        invariant Total(regularAcked) + totalDeleting == before
      {
        var key :| key in todo;
        assert key in regularAcked;
        TotalDelete(regularAcked, key);
        totalDeleting := totalDeleting + |regularAcked[key]|;
        regularAcked, todo := regularAcked - {key}, todo - {key};
        assert old(regularAcked) - (keys - todo) == old(regularAcked) - (keys - (todo + {key})) - {key};
      }
      assert keys - todo == keys;
    }

    lemma EventKeys()
      requires forall k :: Sound(CellAt(k), k, phaseTimeout)
      ensures forall k, i :: k in irregularSyns && 0 <= i < |irregularSyns[k]| ==> KeyOf(irregularSyns[k][i]) == k
      ensures forall k, i :: k in regularSyns && 0 <= i < |regularSyns[k]| ==> KeyOf(regularSyns[k][i]) == k
      ensures forall k, i :: k in acks && 0 <= i < |acks[k]| ==> KeyOf(acks[k][i]) == k
    {
      forall k, i | k in irregularSyns && 0 <= i < |irregularSyns[k]| ensures KeyOf(irregularSyns[k][i]) == k {
        assert irregularSyns[k][i] in CellAt(k).irregularSyns;
      }
      forall k, i | k in regularSyns && 0 <= i < |regularSyns[k]| ensures KeyOf(regularSyns[k][i]) == k {
        assert regularSyns[k][i] in CellAt(k).regularSyns;
      }
      forall k, i | k in acks && 0 <= i < |acks[k]| ensures KeyOf(acks[k][i]) == k {
        assert acks[k][i] in CellAt(k).acks;
      }
    }

    lemma RecordKeys()
      requires forall k :: Sound(CellAt(k), k, phaseTimeout)
      ensures Headed(irregularAcked, HeadIsyn) && Headed(regularAcked, HeadRsyn)
      ensures Headed(twoPhaseNoAck, HeadIsyn) && Headed(twoPhase, HeadIsyn)
    {
      forall k, i | k in irregularAcked && 0 <= i < |irregularAcked[k]| ensures HeadKnown(irregularAcked[k][i], HeadIsyn, k) {
        assert irregularAcked[k][i] in CellAt(k).irregularAcked;
      }
      forall k, i | k in regularAcked && 0 <= i < |regularAcked[k]| ensures HeadKnown(regularAcked[k][i], HeadRsyn, k) {
        assert regularAcked[k][i] in CellAt(k).regularAcked;
      }
      forall k, i | k in twoPhaseNoAck && 0 <= i < |twoPhaseNoAck[k]| ensures HeadKnown(twoPhaseNoAck[k][i], HeadIsyn, k) {
        assert twoPhaseNoAck[k][i] in CellAt(k).twoPhaseNoAck;
      }
      forall k, i | k in twoPhase && 0 <= i < |twoPhase[k]| ensures HeadKnown(twoPhase[k][i], HeadIsyn, k) {
        assert twoPhase[k][i] in CellAt(k).twoPhase;
      }
    }

    method EvictEventLists(batchId: int) returns (tmp0: seq<Row>, tmp1: seq<Row>)
      requires forall k :: Sound(CellAt(k), k, phaseTimeout)
      modifies `irregularSyns, `regularSyns, `acks
      ensures Filtered(old(irregularSyns), irregularSyns, tmp0, {}, InBatch(batchId), NotInBatch(batchId), EventRow("isyn"))
      ensures Filtered(old(regularSyns), regularSyns, tmp1, {}, InBatch(batchId), NotInBatch(batchId), EventRow("rsyn"))
      ensures forall k :: Get(acks, k) == Filter(Get(old(acks), k), NotInBatch(batchId))
    {
      EventKeys();
      var dropped: seq<Row>;
      irregularSyns, tmp0 := EvictEvents(irregularSyns, batchId, "isyn");
      regularSyns, tmp1 := EvictEvents(regularSyns, batchId, "rsyn");
      acks, dropped := EvictEvents(acks, batchId, "ack");
      forall k ensures Get(acks, k) == Filter(Get(old(acks), k), NotInBatch(batchId)) {
        assert FilteredAt(old(acks), acks, dropped, {}, InBatch(batchId), NotInBatch(batchId), EventRow("ack"), k);
      }
    }

    method EvictRecordLists(batchId: int) returns (tmp2: seq<Row>, tmp3: seq<Row>, tmp4: seq<Row>, tmp5: seq<Row>)
      requires Headed(irregularAcked, HeadIsyn) && Headed(regularAcked, HeadRsyn)
      requires Headed(twoPhaseNoAck, HeadIsyn) && Headed(twoPhase, HeadIsyn)
      modifies `irregularAcked, `regularAcked, `twoPhaseNoAck, `twoPhase, `repeatedConnectionAttempts
      ensures FilteredRecords(old(irregularAcked), irregularAcked, tmp2, HeadIsyn, batchId, "isyn (acked)")
      ensures FilteredRecords(old(regularAcked), regularAcked, tmp3, HeadRsyn, batchId, "rsyn (acked)")
      ensures FilteredRecords(old(twoPhaseNoAck), twoPhaseNoAck, tmp4, HeadIsyn, batchId, "two-phase (no ack)")
      ensures FilteredRecords(old(twoPhase), twoPhase, tmp5, HeadIsyn, batchId, "two-phase")
      ensures repeatedConnectionAttempts == map[]
    {
      irregularAcked, tmp2 := EvictRecords(irregularAcked, batchId, HeadIsyn, "isyn (acked)");
      regularAcked, tmp3 := EvictRecords(regularAcked, batchId, HeadRsyn, "rsyn (acked)");
      twoPhaseNoAck, tmp4 := EvictRecords(twoPhaseNoAck, batchId, HeadIsyn, "two-phase (no ack)");
      twoPhase, tmp5 := EvictRecords(twoPhase, batchId, HeadIsyn, "two-phase");
      repeatedConnectionAttempts := map[];
      assert |repeatedConnectionAttempts| == 0;
    }

    /** The blocks of `evict`, one kind of list after the other. */
    method EvictLists(batchId: int) returns (elems: seq<Row>)
      requires forall k :: Sound(CellAt(k), k, phaseTimeout)
      modifies `irregularSyns, `irregularAcked, `regularSyns, `regularAcked, `twoPhaseNoAck, `twoPhase, `acks,
               `repeatedConnectionAttempts
      ensures forall k :: CellAt(k) == Phases.Evict(old(CellAt(k)), batchId)
      ensures forall k :: RowsFor(elems, k) == EvictRows(old(CellAt(k)), batchId)
      ensures forall row :: row in elems ==> RowKey(row).Some?
    {
      RecordKeys();
      var tmp0, tmp1 := EvictEventLists(batchId);
      var tmp2, tmp3, tmp4, tmp5 := EvictRecordLists(batchId);
      elems := tmp0 + tmp1 + tmp2 + tmp3 + tmp4 + tmp5;
      forall k ensures CellAt(k) == Phases.Evict(old(CellAt(k)), batchId) && RowsFor(elems, k) == EvictRows(old(CellAt(k)), batchId) {
        assert FilteredAt(old(irregularSyns), irregularSyns, tmp0, {}, InBatch(batchId), NotInBatch(batchId), EventRow("isyn"), k);
        assert FilteredAt(old(regularSyns), regularSyns, tmp1, {}, InBatch(batchId), NotInBatch(batchId), EventRow("rsyn"), k);
        assert FilteredRecordsAt(old(irregularAcked), irregularAcked, tmp2, HeadIsyn, batchId, "isyn (acked)", k);
        assert FilteredRecordsAt(old(regularAcked), regularAcked, tmp3, HeadRsyn, batchId, "rsyn (acked)", k);
        assert FilteredRecordsAt(old(twoPhaseNoAck), twoPhaseNoAck, tmp4, HeadIsyn, batchId, "two-phase (no ack)", k);
        assert FilteredRecordsAt(old(twoPhase), twoPhase, tmp5, HeadIsyn, batchId, "two-phase", k);
        RowsForParts(tmp0, tmp1, tmp2, tmp3, tmp4, tmp5, k);
      }
    }

    method EvictUnsorted(batchId: int) returns (elems: seq<Row>)
      requires Valid()
      modifies this
      ensures Valid() && history == old(history) + [EvictBatch(batchId)]
      ensures forall k :: RowsFor(elems, k) == EvictRows(old(CellAt(k)), batchId)
      ensures forall row :: row in elems ==> RowKey(row).Some?
    {
      AllSound();
      elems := EvictLists(batchId);
      EvictAdvances(batchId);
      RecordCall(EvictBatch(batchId));
    }

    twostate lemma EvictAdvances(batchId: int)
      requires old(Valid()) && history == old(history)
      requires retransmitCache == old(retransmitCache) && retransmits == old(retransmits)
      requires forall k :: CellAt(k) == Phases.Evict(old(CellAt(k)), batchId)
      ensures Advanced(EvictBatch(batchId))
    {
      EvictListsAdvance(batchId);
      assert old(RetransmitsValid());
    }

    twostate lemma EvictListsAdvance(batchId: int)
      requires old(ListsValid()) && history == old(history)
      requires forall k :: CellAt(k) == Phases.Evict(old(CellAt(k)), batchId)
      ensures ListsAdvanced(EvictBatch(batchId))
    {
      forall k ensures CellAt(k) == Step(history, CellOf(history, k, phaseTimeout), EvictBatch(batchId), k, phaseTimeout) {
        assert old(CellAt(k)) == CellOf(history, k, phaseTimeout);
      }
    }

    /** `evict`: returns the rows of batch `batchId`, sorted by time stamp. */
    method Evict(batchId: int) returns (elems: seq<Row>)
      requires Valid()
      modifies this
      ensures Valid() && history == old(history) + [EvictBatch(batchId)]
      ensures SortedByTs(elems)
      ensures forall k :: multiset(RowsFor(elems, k)) == multiset(EvictRows(CellOf(old(history), k, phaseTimeout), batchId))
      ensures forall row :: row in elems ==> RowKey(row).Some?
      ensures GoodRows(elems) && SortedByPackets(elems)
    {
      var unsorted := EvictUnsorted(batchId);
      SortByTsSorts(unsorted);
      elems := SortByTs(unsorted);
      forall k ensures multiset(RowsFor(elems, k)) == multiset(EvictRows(CellOf(old(history), k, phaseTimeout), batchId)) {
        FilterPermutation(elems, unsorted, RowHasKey(k));
        assert old(CellAt(k)) == CellOf(old(history), k, phaseTimeout);
      }
      forall row | row in elems ensures RowKey(row).Some? {
        assert row in multiset(elems);
        assert row in unsorted;
      }
      AllRowsAreGood(elems, old(history), batchId, phaseTimeout);
      SortedByTime(elems);
    }

    /** The fields hold what the calls so far and then `op` amount to. */
    ghost predicate Advanced(op: Op)
      reads this
    {
      ListsAdvanced(op) && RetransmitsAdvanced(op)
    }

    ghost predicate ListsAdvanced(op: Op)
      reads this
    {
      forall k :: CellAt(k) == Step(history, CellOf(history, k, phaseTimeout), op, k, phaseTimeout)
    }

    ghost predicate RetransmitsAdvanced(op: Op)
      reads this
    {
      (forall b :: CacheAt(b) == SeenStep(Seen(history, b), op, b)) &&
      (forall b :: Get(retransmits, b) == RetransmitsStep(history, Retransmits(history, b), op, b))
    }

    /** Notes a public call. */
    ghost method RecordCall(op: Op)
      requires Advanced(op)
      modifies `history
      ensures Valid() && history == old(history) + [op]
    {
      forall k ensures CellAt(k) == CellOf(history + [op], k, phaseTimeout) {
        CellOfSnoc(history, op, k, phaseTimeout);
      }
      forall b ensures CacheAt(b) == Seen(history + [op], b) && Get(retransmits, b) == Retransmits(history + [op], b) {
        SeenSnoc(history, op, b);
        RetransmitsSnoc(history, op, b);
      }
      history := history + [op];
    }
  }
}
