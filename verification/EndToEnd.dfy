/** From the shard to the phase matcher: what is captured, answered, buffered, written, and
    read back. */
module EndToEnd {
  import opened Collections
  import opened Events
  import opened Capture
  import opened Framing
  import opened LogFiles
  import opened LogReading
  import opened Phases
  import opened Sharding
  import opened TcpLog
  import opened TcpRoundTrip
  import PhaseRuns

  // -- what the tools see of a packet --------------------------------------------------------

  /** `order` lists the options of the packet, each once. */
  predicate Lists(order: seq<Byte>, options: set<Byte>) {
    NoDuplicates(order) && Elements(order) == options
  }

  lemma EmptyLists(order: seq<Byte>, options: set<Byte>)
    requires Lists(order, options)
    ensures order == [] <==> options == {}
  {
    if order != [] {
      assert order[0] in Elements(order);
    }
  }

  lemma SameFlags(tcp: TcpSegment)
    ensures Syn in LoggedFlags(tcp) <==> tcp.syn
    ensures Ack in LoggedFlags(tcp) <==> tcp.ack
    ensures Rst in LoggedFlags(tcp) <==> tcp.rst
  {
  }

  lemma SameOptions(pkt: CapturedPacket, order: seq<Byte>)
    requires Lists(order, pkt.tcp.options)
    ensures |LoggedPacket(pkt, order).payload.options| == 0 <==> pkt.tcp.options == {}
  {
    EmptyLists(order, pkt.tcp.options);
    OptionNamesAreGood(order);
  }

  /** The tools call exactly those SYNs irregular that the shard called scanner-like. */
  lemma SameVerdict(pkt: CapturedPacket, order: seq<Byte>)
    requires Lists(order, pkt.tcp.options)
    ensures IsIrregularSyn(LoggedPacket(pkt, order)) <==> pkt.tcp.syn && !pkt.tcp.ack && KeyOfPacket(pkt).isScannerLike
    ensures IsSyn(LoggedPacket(pkt, order)) <==> pkt.tcp.syn && !pkt.tcp.ack
    ensures IsAck(LoggedPacket(pkt, order)) <==> pkt.tcp.ack && !pkt.tcp.syn
    ensures IsRst(LoggedPacket(pkt, order)) <==> pkt.tcp.rst
  {
    SameFlags(pkt.tcp);
    SameOptions(pkt, order);
  }

  lemma {:induction false} NamesOf(order: seq<Byte>, name: string)
    ensures name in OptionNames(order) <==> exists i :: 0 <= i < |order| && OptionName(order[i]) == name
  {
    if order != [] {
      var n := |order| - 1;
      NamesOf(order[..n], name);
      assert order[..n] + [order[n]] == order;
      if name in OptionNames(order[..n]) {
        var i :| 0 <= i < n && OptionName(order[..n][i]) == name;
        assert OptionName(order[i]) == name;
      }
    }
  }

  /** The order in which the hash table lists the options does not matter. */
  lemma OptionsAreASet(s: seq<Byte>, t: seq<Byte>, options: set<Byte>, name: string)
    requires Lists(s, options) && Lists(t, options)
    ensures name in OptionNames(s) <==> name in OptionNames(t)
  {
    NamesOf(s, name);
    NamesOf(t, name);
    if name in OptionNames(s) {
      var i :| 0 <= i < |s| && OptionName(s[i]) == name;
      assert s[i] in Elements(t);
    }
    if name in OptionNames(t) {
      var i :| 0 <= i < |t| && OptionName(t[i]) == name;
      assert t[i] in Elements(s);
    }
  }

  function HexValue(c: char): int {
    if '0' <= c <= '9' then (c as int) - ('0' as int)
    else if 'a' <= c <= 'f' then (c as int) - ('a' as int) + 10
    else -1
  }

  /** Reading hex: `None` unless the text is pairs of hex digits. */
  function FromHex(s: string): Option<seq<Byte>> {
    if s == [] then Some([])
    else if |s| == 1 then None
    else
      var rest := FromHex(s[..|s| - 2]);
      var hi, lo := HexValue(s[|s| - 2]), HexValue(s[|s| - 1]);
      if rest.None? || hi < 0 || lo < 0 then None else Some(rest.value + [16 * hi + lo])
  }

  lemma HexDigitsRead(b: Byte)
    ensures HexValue(HexDigit(b / 16)) == b / 16 && HexValue(HexDigit(b % 16)) == b % 16
  {
  }

  function HexPair(b: Byte): string {
    [HexDigit(b / 16), HexDigit(b % 16)]
  }

  /** Two more digits are one more byte. */
  lemma FromHexPair(s: string, b: Byte)
    requires FromHex(s).Some?
    ensures FromHex(s + HexPair(b)) == Some(FromHex(s).value + [b])
  {
    var t := s + HexPair(b);
    HexDigitsRead(b);
    assert t[..|t| - 2] == s;
  }

  lemma HexTextSnoc(payload: seq<Byte>, b: Byte)
    ensures HexText(payload + [b]) == HexText(payload) + HexPair(b)
  {
    assert (payload + [b])[..|payload|] == payload;
  }

  lemma HexStep(payload: seq<Byte>, b: Byte)
    requires FromHex(HexText(payload)) == Some(payload) && |HexText(payload)| == 2 * |payload|
    ensures FromHex(HexText(payload + [b])) == Some(payload + [b]) && |HexText(payload + [b])| == 2 * |payload + [b]|
  {
    HexTextSnoc(payload, b);
    FromHexPair(HexText(payload), b);
  }

  lemma {:induction false} HexRoundTrip(payload: seq<Byte>)
    ensures FromHex(HexText(payload)) == Some(payload) && |HexText(payload)| == 2 * |payload|
  {
    if payload != [] {
      var n := |payload| - 1;
      HexRoundTrip(payload[..n]);
      HexStep(payload[..n], payload[n]);
      assert payload == payload[..n] + [payload[n]];
    }
  }

  // -- the shard's probes -------------------------------------------------------------------------

  /** Every row a shard logs can be printed and read back. */
  lemma ShardRowsArePrintable(scheduled: set<Endpoint>, pkt: CapturedPacket, uid: Word, row: Output, order: seq<Byte>)
    requires row in Outputs(scheduled, pkt, uid) && row.Log? && Timely(pkt)
    ensures row.pkt == pkt && Printable(Logged(pkt, order, row.reaction))
  {
  }

  /** What the matcher needs to know of a logged probe. */
  lemma LoggedProbe(pkt: CapturedPacket, order: seq<Byte>, uid: Word, batchId: int)
    ensures var syn := LoggedEvent(pkt, order, Some(SynAckFor(pkt, uid)), batchId);
            PhaseRuns.ProbedByShard(syn) && syn.packet.payload.sport == pkt.tcp.sport &&
            syn.packet.payload.snum == pkt.tcp.snum && |syn.packet.payload.payload| == 2 * |pkt.tcp.payload|
  {
    HexRoundTrip(pkt.tcp.payload);
    assert |HexText(pkt.tcp.payload)| / 2 == |pkt.tcp.payload|;
  }

  /** A SYN that the shard answered, logged and read back: an ACK is accepted for it exactly if it
      comes from the SYN's port with the sequence number behind the SYN's payload. */
  lemma LoggedProbeMatches(pkt: CapturedPacket, order: seq<Byte>, uid: Word, batchId: int, syn: Event, ack: Event)
    requires syn == LoggedEvent(pkt, order, Some(SynAckFor(pkt, uid)), batchId)
    ensures IsMatchingAck(syn, ack) <==>
            ack.packet.payload.sport == pkt.tcp.sport &&
            ack.packet.payload.snum == (pkt.tcp.snum + |pkt.tcp.payload| + 1) % WORD_MODULUS
  {
    LoggedProbe(pkt, order, uid, batchId);
    PhaseRuns.MatchingAckMeansNextSequenceNumber(syn, ack);
  }

  // -- files ------------------------------------------------------------------------------------------

  /** `lines` are the printed entries, each with its newline. */
  predicate Prints(lines: seq<Chunk>, entries: seq<Logged>) {
    |lines| == |entries| && forall i :: 0 <= i < |lines| ==> lines[i].bytes == LineOf(entries[i]) + ['\n']
  }

  /** The entries of an hour that were not more than an hour behind. */
  function Kept(lines: seq<Chunk>, entries: seq<Logged>, hour: int): seq<Logged>
    requires |lines| == |entries|
  {
    if lines == [] then []
    else
      var n := |lines| - 1;
      Kept(lines[..n], entries[..n], hour) + if lines[n].hour == hour && Accepted(lines) then [entries[n]] else []
  }

  /** The seconds since the epoch at which a packet was captured. */
  function CapturedAt(entry: Logged): nat {
    entry.pkt.observed / 1_000_000_000
  }

  /** Lines are filed under the hours their packets were captured in. */
  predicate Timed(lines: seq<Chunk>, entries: seq<Logged>) {
    |lines| == |entries| && forall i :: 0 <= i < |lines| ==> lines[i].hour == AlignToHour(CapturedAt(entries[i]))
  }

  predicate CapturedIn(entries: seq<Logged>, hour: int) {
    forall i :: 0 <= i < |entries| ==> hour <= CapturedAt(entries[i]) < hour + 3600
  }

  lemma {:induction false} KeptAreTimely(lines: seq<Chunk>, entries: seq<Logged>, hour: int)
    requires Timed(lines, entries)
    ensures CapturedIn(Kept(lines, entries, hour), hour)
  {
    if lines != [] {
      var n := |lines| - 1;
      KeptAreTimely(lines[..n], entries[..n], hour);
      AlignedHourHoldsTimeExactly(CapturedAt(entries[n]));
    }
  }

  /** The events read for an hour, to the second. */
  predicate InHour(events: seq<Event>, hour: int) {
    forall i :: 0 <= i < |events| ==> hour <= UnixTs(events[i].packet.timestamp) < hour + 3600
  }

  lemma SameSecond(entry: Logged, batchId: int)
    ensures UnixTs(EventOf(entry, batchId).packet.timestamp) == CapturedAt(entry)
  {
  }

  lemma {:induction false} EventsAreTimely(entries: seq<Logged>, batchId: int, hour: int)
    requires CapturedIn(entries, hour)
    ensures InHour(EventsOf(entries, batchId), hour)
  {
    if entries != [] {
      var n := |entries| - 1;
      EventsAreTimely(entries[..n], batchId, hour);
      SameSecond(entries[n], batchId);
      assert CapturedIn([entries[n]], hour);
    }
  }

  lemma {:induction false} JoinAppends(lines: seq<string>, t: string)
    ensures Join(lines, t) == Join(lines, []) + t
  {
    if lines != [] {
      JoinAppends(lines[1..], t);
      Associate(lines[0] + ['\n'], Join(lines[1..], []), t);
    }
  }

  lemma LogTextSnoc(entries: seq<Logged>, entry: Logged)
    ensures LogText(entries + [entry]) == LogText(entries) + (LineOf(entry) + ['\n'])
  {
    var line := LineOf(entry);
    assert (entries + [entry])[..|entries|] == entries;
    LogLinesSnoc(entries + [entry]);
    JoinSnoc(LogLines(entries), line, []);
    assert line + ['\n'] + [] == line + ['\n'];
    JoinAppends(LogLines(entries), line + ['\n']);
  }

  lemma EmptyLog()
    ensures LogText([]) == HeaderLine() + ['\n']
  {
    assert LogLines([]) == [HeaderLine()] && [HeaderLine()][1..] == [];
    assert HeaderLine() + ['\n'] + [] == HeaderLine() + ['\n'];
  }

  /** The header and the content of an hour are the log of the entries kept for it. */
  lemma {:induction false} ContentIsLog(lines: seq<Chunk>, entries: seq<Logged>, hour: int)
    requires Prints(lines, entries)
    ensures HeaderLine() + ['\n'] + Content(lines, hour) == LogText(Kept(lines, entries, hour))
  {
    if lines == [] {
      EmptyLog();
      assert HeaderLine() + ['\n'] + [] == HeaderLine() + ['\n'];
    } else {
      var n := |lines| - 1;
      ContentIsLog(lines[..n], entries[..n], hour);
      Associate(HeaderLine() + ['\n'], Content(lines[..n], hour), lines[n].bytes);
      LogTextSnoc(Kept(lines[..n], entries[..n], hour), entries[n]);
      OneMoreKept(lines, entries, hour);
    }
  }

  lemma OneMoreKept(lines: seq<Chunk>, entries: seq<Logged>, hour: int)
    requires |lines| == |entries| && lines != []
    ensures var n := |lines| - 1;
            if lines[n].hour == hour && Accepted(lines) then
              Content(lines, hour) == Content(lines[..n], hour) + lines[n].bytes &&
              Kept(lines, entries, hour) == Kept(lines[..n], entries[..n], hour) + [entries[n]]
            else Content(lines, hour) == Content(lines[..n], hour) && Kept(lines, entries, hour) == Kept(lines[..n], entries[..n], hour)
  {
    var n := |lines| - 1;
    assert Content(lines[..n], hour) + [] == Content(lines[..n], hour);
    assert Kept(lines[..n], entries[..n], hour) + [] == Kept(lines[..n], entries[..n], hour);
  }

  predicate AllPrintable(entries: seq<Logged>) {
    forall i :: 0 <= i < |entries| ==> Printable(entries[i])
  }

  lemma {:induction false} KeptArePrintable(lines: seq<Chunk>, entries: seq<Logged>, hour: int)
    requires |lines| == |entries| && AllPrintable(entries)
    ensures AllPrintable(Kept(lines, entries, hour))
  {
    if lines != [] {
      KeptArePrintable(lines[..|lines| - 1], entries[..|lines| - 1], hour);
    }
  }
}
