/** What the phase matcher does to the events of one key, as functions.  Every
    operation of `PhaseMatcher` touches the lists of each key independently, so
    one `Cell` per key describes the whole matcher. */
module Phases {
  import opened Collections
  import opened Events

  // -- predicates ------------------------------------------------------------------

  /** `is_within_timeout`: at most one second early, less than `timeout` seconds late. */
  predicate WithinTimeout(con: Option<Confirmation>, tsSyn: nat, timeout: int) {
    con.Some? &&
    var tsCon := UnixTs(con.value.timestamp);
    (tsCon <= tsSyn && tsSyn - tsCon < timeout) || (tsSyn < tsCon && tsCon - tsSyn <= 1)
  }

  /** `is_matching_ack` */
  predicate IsMatchingAck(syn: Event, ack: Event) {
    syn.request.Some? &&
    syn.packet.payload.sport == syn.request.value.dport == ack.packet.payload.sport &&
    syn.request.value.anum == ack.packet.payload.snum
  }

  // -- state of one key ------------------------------------------------------------

  /** The tuple hashed into a repeated connection's `ident`. */
  datatype Ident = Ident(ts: nat, sport: Port, ipid: Port, anum: Word)

  /** A dictionary with (some of) the keys `isyn`, `iack`, `rsyn`, `rack` and `ident`. */
  datatype Record = Record(isyn: Option<Event>, iack: Option<Event>,
                           rsyn: Option<Event>, rack: Option<Event>, ident: Option<Ident>)

  datatype Cell = Cell(irregularSyns: seq<Event>, regularSyns: seq<Event>, acks: seq<Event>,
                       irregularAcked: seq<Record>, regularAcked: seq<Record>,
                       twoPhaseNoAck: seq<Record>, twoPhase: seq<Record>, repeated: seq<Record>)

  const EMPTY_CELL := Cell([], [], [], [], [], [], [], [])

  // -- searches --------------------------------------------------------------------

  function Ackable(ack: Event): Event -> bool {
    (syn: Event) => IsMatchingAck(syn, ack)
  }

  function RsynAckable(ack: Event): Record -> bool {
    (r: Record) => r.rsyn.Some? && IsMatchingAck(r.rsyn.value, ack)
  }

  function Open(tsSyn: nat, timeout: int): Event -> bool {
    (isyn: Event) => WithinTimeout(isyn.confirmation, tsSyn, timeout)
  }

  function IsynOpen(tsSyn: nat, timeout: int): Record -> bool {
    (r: Record) => r.isyn.Some? && WithinTimeout(r.isyn.value.confirmation, tsSyn, timeout)
  }

  function SynTs(e: Event): nat {
    UnixTs(e.packet.timestamp)
  }

  // -- the try_match_* family: `None` when nothing matched ---------------------------

  function RsynToIsyn(c: Cell, rsyn: Event, timeout: int): Option<Cell> {
    var i := First(c.irregularSyns, Open(SynTs(rsyn), timeout));
    if i == |c.irregularSyns| then None
    else
      var r := Record(Some(c.irregularSyns[i]), None, Some(rsyn), None, None);
      Some(c.(irregularSyns := Delete(c.irregularSyns, i), twoPhaseNoAck := c.twoPhaseNoAck + [r]))
  }

  function RsynToIsynAcked(c: Cell, rsyn: Event, timeout: int): Option<Cell> {
    var i := First(c.irregularAcked, IsynOpen(SynTs(rsyn), timeout));
    if i == |c.irregularAcked| then None
    else
      var r := c.irregularAcked[i].(rsyn := Some(rsyn), rack := None);
      Some(c.(irregularAcked := Delete(c.irregularAcked, i), twoPhaseNoAck := c.twoPhaseNoAck + [r]))
  }

  // The source reads `p2["rsyn"]`; `RunIsSound` shows it is always there.
  function RsynAckedToIsyn(c: Cell, p2: Record, timeout: int): Option<Cell> {
    if p2.rsyn.None? then None else
    var i := First(c.irregularSyns, Open(SynTs(p2.rsyn.value), timeout));
    if i == |c.irregularSyns| then None
    else
      var r := p2.(isyn := Some(c.irregularSyns[i]));
      Some(c.(irregularSyns := Delete(c.irregularSyns, i), twoPhase := c.twoPhase + [r]))
  }

  function RsynAckedToIsynAcked(c: Cell, p2: Record, timeout: int): Option<Cell> {
    if p2.rsyn.None? then None else
    var i := First(c.irregularAcked, IsynOpen(SynTs(p2.rsyn.value), timeout));
    if i == |c.irregularAcked| then None
    else
      var r := c.irregularAcked[i].(rsyn := p2.rsyn, rack := p2.rack);
      Some(c.(irregularAcked := Delete(c.irregularAcked, i), twoPhase := c.twoPhase + [r]))
  }

  function AckToIsyn(c: Cell, ack: Event): Option<Cell> {
    var i := First(c.irregularSyns, Ackable(ack));
    if i == |c.irregularSyns| then None
    else
      var r := Record(Some(c.irregularSyns[i]), Some(ack), None, None, None);
      Some(c.(irregularSyns := Delete(c.irregularSyns, i), irregularAcked := c.irregularAcked + [r]))
  }

  function AckToRsyn(c: Cell, ack: Event): Option<Cell> {
    var i := First(c.regularSyns, Ackable(ack));
    if i == |c.regularSyns| then None
    else
      var r := Record(None, None, Some(c.regularSyns[i]), Some(ack), None);
      Some(c.(regularSyns := Delete(c.regularSyns, i), regularAcked := c.regularAcked + [r]))
  }

  function AckToTwoPhase(c: Cell, ack: Event): Option<Cell> {
    var i := First(c.twoPhaseNoAck, RsynAckable(ack));
    if i == |c.twoPhaseNoAck| then None
    else
      var r := c.twoPhaseNoAck[i].(rack := Some(ack));
      Some(c.(twoPhaseNoAck := Delete(c.twoPhaseNoAck, i), twoPhase := c.twoPhase + [r]))
  }

  function IdentOf(isyn: Event): Ident {
    Ident(SynTs(isyn), isyn.packet.payload.sport, isyn.packet.ipid, isyn.packet.payload.anum)
  }

  /** `try_match_rsyn_acked_to_tp_no_ack` and `try_match_rsyn_acked_to_tp`, over `repertory`. */
  function Repeat(c: Cell, repertory: seq<Record>, rseq: Record, timeout: int): Option<Cell> {
    if rseq.rsyn.None? then None else
    var i := First(repertory, IsynOpen(SynTs(rseq.rsyn.value), timeout));
    if i == |repertory| then None
    else
      Some(c.(repeated := c.repeated + [rseq.(ident := Some(IdentOf(repertory[i].isyn.value)))]))
  }

  // -- composed matching -------------------------------------------------------------

  /** An ACK looks at regular SYNs, then irregular SYNs, then two-phase records. */
  function MatchAck(c: Cell, ack: Event): Option<Cell> {
    match AckToRsyn(c, ack)
    case Some(d) => Some(d)
    case None =>
      match AckToIsyn(c, ack)
      case Some(d) => Some(d)
      case None => AckToTwoPhase(c, ack)
  }

  /** A regular SYN looks at irregular SYNs, then acknowledged irregular SYNs. */
  function MatchRsyn(c: Cell, rsyn: Event, timeout: int): Option<Cell> {
    match RsynToIsyn(c, rsyn, timeout)
    case Some(d) => Some(d)
    case None => RsynToIsynAcked(c, rsyn, timeout)
  }

  function MatchRsynAcked(c: Cell, p2: Record, timeout: int): Option<Cell> {
    match RsynAckedToIsyn(c, p2, timeout)
    case Some(d) => Some(d)
    case None => RsynAckedToIsynAcked(c, p2, timeout)
  }

  function MatchRepeat(c: Cell, rseq: Record, timeout: int): Option<Cell> {
    match Repeat(c, c.twoPhaseNoAck, rseq, timeout)
    case Some(d) => Some(d)
    case None => Repeat(c, c.twoPhase, rseq, timeout)
  }

  // -- operations on one key -----------------------------------------------------------

  /** `add_event` after the RST and retransmit filters. */
  function Add(c: Cell, e: Event, timeout: int): Cell {
    if IsIrregularSyn(e.packet) then c.(irregularSyns := c.irregularSyns + [e])
    else if IsSyn(e.packet) then
      match MatchRsyn(c, e, timeout)
      case Some(d) => d
      case None => c.(regularSyns := c.regularSyns + [e])
    else if IsAck(e.packet) then
      match MatchAck(c, e)
      case Some(d) => d
      case None => c.(acks := c.acks + [e])
    else c
  }

  /** The ACK loop of `try_match_everything`: the cell, and the ACKs left over. */
  function MatchAcks(c: Cell, acks: seq<Event>): (Cell, seq<Event>) {
    if acks == [] then (c, [])
    else
      var n := |acks| - 1;
      var (d, remaining) := MatchAcks(c, acks[..n]);
      match MatchAck(d, acks[n])
      case Some(d') => (d', remaining)
      case None => (d, remaining + [acks[n]])
  }

  function AcksPass(c: Cell): Cell {
    var (d, remaining) := MatchAcks(c, c.acks);
    d.(acks := remaining)
  }

  function HasFirstPhase(c: Cell, timeout: int): Event -> bool {
    (rsyn: Event) => MatchRsyn(c, rsyn, timeout).Some?
  }

  function HasFirstPhaseAcked(c: Cell, timeout: int): Record -> bool {
    (p2: Record) => MatchRsynAcked(c, p2, timeout).Some?
  }

  /** One regular SYN per key and checkpoint: the source stops at the first match. */
  function RsynsPass(c: Cell, timeout: int): Cell {
    var i := First(c.regularSyns, HasFirstPhase(c, timeout));
    if i == |c.regularSyns| then c
    else MatchRsyn(c, c.regularSyns[i], timeout).value.(regularSyns := Delete(c.regularSyns, i))
  }

  function RsynsAckedPass(c: Cell, timeout: int): Cell {
    var i := First(c.regularAcked, HasFirstPhaseAcked(c, timeout));
    if i == |c.regularAcked| then c
    else MatchRsynAcked(c, c.regularAcked[i], timeout).value.(regularAcked := Delete(c.regularAcked, i))
  }

  /** `try_match_everything` */
  function MatchEverything(c: Cell, timeout: int): Cell {
    RsynsAckedPass(RsynsPass(AcksPass(c), timeout), timeout)
  }

  /** The loop of `find_repeated_connections`: the cell, and the records to keep. */
  function MatchRepeats(c: Cell, rseqs: seq<Record>, timeout: int): (Cell, seq<Record>) {
    if rseqs == [] then (c, [])
    else
      var n := |rseqs| - 1;
      var (d, keep) := MatchRepeats(c, rseqs[..n], timeout);
      match MatchRepeat(d, rseqs[n], timeout)
      case Some(d') => (d', keep)
      case None => (d, keep + [rseqs[n]])
  }

  function FindRepeated(c: Cell, timeout: int): Cell {
    var (d, keep) := MatchRepeats(c, c.regularAcked, timeout);
    d.(regularAcked := keep)
  }

  // -- eviction ------------------------------------------------------------------------

  function InBatch(b: int): Event -> bool { (e: Event) => e.batchId == b }

  function NotInBatch(b: int): Event -> bool { (e: Event) => e.batchId != b }

  /** Which packet of a record decides the batch it is evicted with. */
  datatype Head = HeadIsyn | HeadRsyn

  function HeadOf(r: Record, h: Head): Option<Event> {
    match h case HeadIsyn => r.isyn case HeadRsyn => r.rsyn
  }

  function HeadInBatch(h: Head, b: int): Record -> bool {
    (r: Record) => HeadOf(r, h).Some? && HeadOf(r, h).value.batchId == b
  }

  function HeadNotInBatch(h: Head, b: int): Record -> bool {
    (r: Record) => !(HeadOf(r, h).Some? && HeadOf(r, h).value.batchId == b)
  }

  /** `evict`: drops what batch `b` heads, and every repeated connection. */
  function Evict(c: Cell, b: int): Cell {
    Cell(Filter(c.irregularSyns, NotInBatch(b)), Filter(c.regularSyns, NotInBatch(b)), Filter(c.acks, NotInBatch(b)),
         Filter(c.irregularAcked, HeadNotInBatch(HeadIsyn, b)), Filter(c.regularAcked, HeadNotInBatch(HeadRsyn, b)),
         Filter(c.twoPhaseNoAck, HeadNotInBatch(HeadIsyn, b)), Filter(c.twoPhase, HeadNotInBatch(HeadIsyn, b)),
         [])
  }

  /** An element of the list `evict` returns. */
  datatype Row = Row(ts: nat, tag: string, isyn: Option<Event>, iack: Option<Event>,
                     rsyn: Option<Event>, rack: Option<Event>, ack: Option<Event>)

  /** `filter_list`'s row: the event under its tag, every other packet missing. */
  function EventRow(tag: string): Event -> Row {
    (e: Event) =>
      var row := Row(SynTs(e), tag, None, None, None, None, None);
      if tag == "isyn" then row.(isyn := Some(e))
      else if tag == "rsyn" then row.(rsyn := Some(e))
      else row.(ack := Some(e))
  }

  /** `filter_dict_elems`'s row: the packets the record has, stamped with its head's time. */
  function RecordRow(h: Head, tag: string): Record -> Row {
    (r: Record) =>
      Row(if HeadOf(r, h).Some? then SynTs(HeadOf(r, h).value) else 0, tag, r.isyn, r.iack, r.rsyn, r.rack, None)
  }

  function Rows<V>(vs: seq<V>, row: V -> Row): (rows: seq<Row>)
    ensures |rows| == |vs|
    ensures forall i :: 0 <= i < |vs| ==> rows[i] == row(vs[i])
  {
    if vs == [] then [] else Rows(vs[..|vs| - 1], row) + [row(vs[|vs| - 1])]
  }

  /** The rows `evict(b)` returns for one key, before sorting. */
  function EvictRows(c: Cell, b: int): seq<Row> {
    Rows(Filter(c.irregularSyns, InBatch(b)), EventRow("isyn")) +
    Rows(Filter(c.regularSyns, InBatch(b)), EventRow("rsyn")) +
    Rows(Filter(c.irregularAcked, HeadInBatch(HeadIsyn, b)), RecordRow(HeadIsyn, "isyn (acked)")) +
    Rows(Filter(c.regularAcked, HeadInBatch(HeadRsyn, b)), RecordRow(HeadRsyn, "rsyn (acked)")) +
    Rows(Filter(c.twoPhaseNoAck, HeadInBatch(HeadIsyn, b)), RecordRow(HeadIsyn, "two-phase (no ack)")) +
    Rows(Filter(c.twoPhase, HeadInBatch(HeadIsyn, b)), RecordRow(HeadIsyn, "two-phase"))
  }

  // -- sorting ---------------------------------------------------------------------------

  predicate SortedByTs(rows: seq<Row>) {
    forall i, j :: 0 <= i < j < |rows| ==> rows[i].ts <= rows[j].ts
  }

  /** Inserts behind every row that is not younger: a stable sort. */
  function Insert(rows: seq<Row>, row: Row): seq<Row> {
    if rows == [] || rows[|rows| - 1].ts <= row.ts then rows + [row]
    else Insert(rows[..|rows| - 1], row) + [rows[|rows| - 1]]
  }

  function SortByTs(rows: seq<Row>): seq<Row> {
    if rows == [] then [] else Insert(SortByTs(rows[..|rows| - 1]), rows[|rows| - 1])
  }

  lemma {:induction false} InsertPermutes(rows: seq<Row>, row: Row)
    ensures multiset(Insert(rows, row)) == multiset(rows) + multiset{row}
  {
    if rows != [] && row.ts < rows[|rows| - 1].ts {
      assert rows == rows[..|rows| - 1] + [rows[|rows| - 1]];
      InsertPermutes(rows[..|rows| - 1], row);
    }
  }

  lemma {:induction false} InsertSorts(rows: seq<Row>, row: Row, bound: nat)
    requires SortedByTs(rows) && row.ts <= bound
    requires forall i :: 0 <= i < |rows| ==> rows[i].ts <= bound
    ensures SortedByTs(Insert(rows, row))
    ensures forall i :: 0 <= i < |Insert(rows, row)| ==> Insert(rows, row)[i].ts <= bound
  {
    if rows != [] && row.ts < rows[|rows| - 1].ts {
      var n := |rows| - 1;
      InsertSorts(rows[..n], row, rows[n].ts);
    }
  }

  function Latest(rows: seq<Row>): nat {
    if rows == [] then 0 else rows[|rows| - 1].ts
  }

  /** `list.sort(key=...)`: sorted, and a permutation. */
  lemma {:induction false} SortByTsSorts(rows: seq<Row>)
    ensures SortedByTs(SortByTs(rows))
    ensures multiset(SortByTs(rows)) == multiset(rows)
  {
    if rows != [] {
      var n := |rows| - 1;
      assert rows == rows[..n] + [rows[n]];
      SortByTsSorts(rows[..n]);
      var sorted := SortByTs(rows[..n]);
      InsertPermutes(sorted, rows[n]);
      InsertSorts(sorted, rows[n], Latest(sorted) + rows[n].ts);
    }
  }

  /** The key whose lists a row came from. */
  function RowKey(row: Row): Option<Key> {
    if row.isyn.Some? then Some(KeyOf(row.isyn.value))
    else if row.rsyn.Some? then Some(KeyOf(row.rsyn.value))
    else if row.ack.Some? then Some(KeyOf(row.ack.value))
    else None
  }

  function RowHasKey(k: Key): Row -> bool {
    (row: Row) => RowKey(row) == Some(k)
  }

  /** The rows of one key, in order. */
  function RowsFor(rows: seq<Row>, k: Key): seq<Row> {
    Filter(rows, RowHasKey(k))
  }
}
