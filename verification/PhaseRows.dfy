/** What the rows of an eviction say: their time, their tag, and their packets. */
module PhaseRows {
  import opened Collections
  import opened Events
  import opened Phases
  import opened PhaseSteps
  import opened PhaseRuns
  import opened PhaseWindows

  /** The time of a row is the one of its irregular SYN, or else of its regular SYN, in seconds. */
  predicate Stamped(row: Row) {
    if row.isyn.Some? then row.ts == row.isyn.value.packet.timestamp / 1_000_000
    else row.rsyn.Some? && row.ts == row.rsyn.value.packet.timestamp / 1_000_000
  }

  /** The tag says which packets there are. */
  predicate Tagged(row: Row) {
    row.ack.None? && (row.isyn.Some? || row.rsyn.Some?) &&
    (row.tag == "isyn" <==> row.rsyn.None? && row.iack.None?) &&
    (row.tag == "isyn (acked)" <==> row.rsyn.None? && row.iack.Some?) &&
    (row.tag == "rsyn" <==> row.isyn.None? && row.rack.None?) &&
    (row.tag == "rsyn (acked)" <==> row.isyn.None? && row.rack.Some?) &&
    (row.tag == "two-phase (no ack)" <==> row.isyn.Some? && row.rsyn.Some? && row.rack.None?) &&
    (row.tag == "two-phase" <==> row.isyn.Some? && row.rsyn.Some? && row.rack.Some?)
  }

  /** Every packet of the row is of its kind, and every ACK acknowledges its SYN. */
  predicate Consistent(row: Row) {
    (row.isyn.Some? ==> IsIrregularSyn(row.isyn.value.packet)) &&
    (row.rsyn.Some? ==> IsSyn(row.rsyn.value.packet) && !IsIrregularSyn(row.rsyn.value.packet)) &&
    (row.iack.Some? ==> row.isyn.Some? && Acknowledges(row.iack.value, row.isyn.value)) &&
    (row.rack.Some? ==> row.rsyn.Some? && Acknowledges(row.rack.value, row.rsyn.value))
  }

  predicate GoodRow(row: Row) {
    Stamped(row) && Tagged(row) && Consistent(row)
  }

  predicate GoodRows(rows: seq<Row>) {
    forall i :: 0 <= i < |rows| ==> GoodRow(rows[i])
  }

  lemma EventRowIsGood(e: Event, tag: string, k: Key)
    requires (tag == "isyn" && IsynOk(e, k)) || (tag == "rsyn" && RsynOk(e, k))
    ensures GoodRow(EventRow(tag)(e))
  {
  }

  lemma EventRowsAreGood(es: seq<Event>, tag: string, b: int, k: Key)
    requires (tag == "isyn" && forall e :: e in es ==> IsynOk(e, k)) || (tag == "rsyn" && forall e :: e in es ==> RsynOk(e, k))
    ensures GoodRows(Rows(Filter(es, InBatch(b)), EventRow(tag)))
  {
    var f := Filter(es, InBatch(b));
    FilterMembers(es, InBatch(b));
    forall i | 0 <= i < |f| ensures GoodRow(EventRow(tag)(f[i])) {
      assert f[i] in es;
      EventRowIsGood(f[i], tag, k);
    }
  }

  /** The records of one list, as a reachable state holds them. */
  predicate RecordsFor(rs: seq<Record>, h: Head, tag: string, k: Key, timeout: int) {
    match h
    case HeadRsyn => tag == "rsyn (acked)" && forall r :: r in rs ==> RegularAckedOk(r, k)
    case HeadIsyn =>
      (tag == "isyn (acked)" && forall r :: r in rs ==> IrregularAckedOk(r, k)) ||
      (tag == "two-phase (no ack)" && forall r :: r in rs ==> BothPhasesOk(r, k, timeout) && r.rack.None?) ||
      (tag == "two-phase" && forall r :: r in rs ==> BothPhasesOk(r, k, timeout) && r.rack.Some?)
  }

  lemma RecordRowsAreGood(rs: seq<Record>, h: Head, tag: string, b: int, k: Key, timeout: int)
    requires RecordsFor(rs, h, tag, k, timeout)
    ensures GoodRows(Rows(Filter(rs, HeadInBatch(h, b)), RecordRow(h, tag)))
  {
    var f := Filter(rs, HeadInBatch(h, b));
    FilterMembers(rs, HeadInBatch(h, b));
    forall i | 0 <= i < |f| ensures GoodRow(RecordRow(h, tag)(f[i])) {
      assert f[i] in rs;
    }
  }

  lemma GoodConcat(s: seq<Row>, t: seq<Row>)
    requires GoodRows(s) && GoodRows(t)
    ensures GoodRows(s + t)
  {
  }

  lemma EvictRowsAreGood(c: Cell, b: int, k: Key, timeout: int)
    requires Sound(c, k, timeout)
    ensures GoodRows(EvictRows(c, b))
  {
    EventRowsAreGood(c.irregularSyns, "isyn", b, k);
    EventRowsAreGood(c.regularSyns, "rsyn", b, k);
    RecordRowsAreGood(c.irregularAcked, HeadIsyn, "isyn (acked)", b, k, timeout);
    RecordRowsAreGood(c.regularAcked, HeadRsyn, "rsyn (acked)", b, k, timeout);
    RecordRowsAreGood(c.twoPhaseNoAck, HeadIsyn, "two-phase (no ack)", b, k, timeout);
    RecordRowsAreGood(c.twoPhase, HeadIsyn, "two-phase", b, k, timeout);
    var r0 := Rows(Filter(c.irregularSyns, InBatch(b)), EventRow("isyn"));
    var r1 := Rows(Filter(c.regularSyns, InBatch(b)), EventRow("rsyn"));
    var r2 := Rows(Filter(c.irregularAcked, HeadInBatch(HeadIsyn, b)), RecordRow(HeadIsyn, "isyn (acked)"));
    var r3 := Rows(Filter(c.regularAcked, HeadInBatch(HeadRsyn, b)), RecordRow(HeadRsyn, "rsyn (acked)"));
    var r4 := Rows(Filter(c.twoPhaseNoAck, HeadInBatch(HeadIsyn, b)), RecordRow(HeadIsyn, "two-phase (no ack)"));
    var r5 := Rows(Filter(c.twoPhase, HeadInBatch(HeadIsyn, b)), RecordRow(HeadIsyn, "two-phase"));
    GoodConcat(r0, r1);
    GoodConcat(r0 + r1, r2);
    GoodConcat(r0 + r1 + r2, r3);
    GoodConcat(r0 + r1 + r2 + r3, r4);
    GoodConcat(r0 + r1 + r2 + r3 + r4, r5);
  }

  /** In every reachable state the rows owed for a batch have the time, the tag and the packets they
      should have. */
  lemma OwedRowsAreGood(ops: seq<Op>, k: Key, timeout: int, b: int)
    ensures GoodRows(EvictRows(CellOf(ops, k, timeout), b))
  {
    RunIsSound(ops, k, timeout);
    EvictRowsAreGood(CellOf(ops, k, timeout), b, k, timeout);
  }

  /** Rows of all keys that are, key by key, those owed. */
  lemma AllRowsAreGood(elems: seq<Row>, ops: seq<Op>, b: int, timeout: int)
    requires forall k :: multiset(RowsFor(elems, k)) == multiset(EvictRows(CellOf(ops, k, timeout), b))
    requires forall row :: row in elems ==> RowKey(row).Some?
    ensures GoodRows(elems)
  {
    forall i | 0 <= i < |elems| ensures GoodRow(elems[i]) {
      var k := RowKey(elems[i]).value;
      assert elems[i] in elems && RowHasKey(k)(elems[i]);
      FilterMembers(elems, RowHasKey(k));
      assert elems[i] in multiset(RowsFor(elems, k));
      assert elems[i] in EvictRows(CellOf(ops, k, timeout), b);
      OwedRowsAreGood(ops, k, timeout, b);
    }
  }

  /** The packet a row is sorted by. */
  function HeadTime(row: Row): nat {
    if row.isyn.Some? then row.isyn.value.packet.timestamp
    else if row.rsyn.Some? then row.rsyn.value.packet.timestamp
    else 0
  }

  /** Sorted by the seconds of their SYNs. */
  predicate SortedByPackets(rows: seq<Row>) {
    forall i, j :: 0 <= i < j < |rows| ==> HeadTime(rows[i]) / 1_000_000 <= HeadTime(rows[j]) / 1_000_000
  }

  lemma SortedByTime(rows: seq<Row>)
    requires SortedByTs(rows) && GoodRows(rows)
    ensures SortedByPackets(rows)
  {
    forall i | 0 <= i < |rows| ensures rows[i].ts == HeadTime(rows[i]) / 1_000_000 {
      assert GoodRow(rows[i]);
    }
  }
}
