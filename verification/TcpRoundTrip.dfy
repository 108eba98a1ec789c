/** What the collector prints the tools read back, however the file grows while it is read. */
module TcpRoundTrip {
  import opened Collections
  import opened Events
  import opened Capture
  import opened Csv
  import opened Framing
  import opened LogReading
  import opened TcpLog
  import Decimal

  // -- fields are clean ------------------------------------------------------------------------

  /** No blanks, no newline, no delimiter. */
  predicate Clean(s: string) {
    forall i :: 0 <= i < |s| ==> !IsSpace(s[i]) && s[i] != DELIMITER
  }

  predicate AllClean(fields: Text) {
    forall i :: 0 <= i < |fields| ==> Clean(fields[i])
  }

  lemma NumberIsClean(n: nat)
    ensures Clean(Decimal.ToString(n)) && '.' !in Decimal.ToString(n)
  {
    var s := Decimal.ToString(n);
    assert forall i :: 0 <= i < |s| ==> Decimal.IsDigit(s[i]);
  }

  lemma {:induction false} JoinIsClean(fields: Text, c: char)
    requires AllClean(fields) && !IsSpace(c) && c != DELIMITER
    ensures Clean(Delimited(fields, c))
  {
    if |fields| > 1 {
      JoinIsClean(fields[1..], c);
    }
  }

  lemma AddressIsClean(a: Address)
    ensures Clean(AddressText(a))
  {
    NumberIsClean(a.b0);
    NumberIsClean(a.b1);
    NumberIsClean(a.b2);
    NumberIsClean(a.b3);
    JoinIsClean([Decimal.ToString(a.b0), Decimal.ToString(a.b1), Decimal.ToString(a.b2), Decimal.ToString(a.b3)], '.');
  }

  /** A name that can be listed with others, separated by colons. */
  predicate GoodName(s: string) {
    s != "" && forall i :: 0 <= i < |s| ==> 'a' <= s[i] <= 'z' || s[i] == '_' || s[i] == '?'
  }

  predicate AllGoodNames(names: Text) {
    forall i :: 0 <= i < |names| ==> GoodName(names[i])
  }

  lemma OptionNameIsGood(kind: Byte)
    ensures GoodName(OptionName(kind))
  {
  }

  lemma {:induction false} OptionNamesAreGood(order: seq<Byte>)
    ensures |OptionNames(order)| == |order| && AllGoodNames(OptionNames(order))
  {
    if order != [] {
      OptionNamesAreGood(order[..|order| - 1]);
      OptionNameIsGood(order[|order| - 1]);
    }
  }

  lemma GoodNamesAreClean(names: Text)
    requires AllGoodNames(names)
    ensures AllClean(names) && forall i :: 0 <= i < |names| ==> ':' !in names[i] && names[i] != ""
  {
    forall i | 0 <= i < |names| ensures Clean(names[i]) && ':' !in names[i] && names[i] != "" {
      assert GoodName(names[i]);
    }
  }

  lemma OptionsTextIsClean(order: seq<Byte>)
    ensures Clean(Delimited(OptionNames(order), ':'))
  {
    OptionNamesAreGood(order);
    GoodNamesAreClean(OptionNames(order));
    JoinIsClean(OptionNames(order), ':');
  }

  lemma {:induction false} HexIsClean(payload: seq<Byte>)
    ensures Clean(HexText(payload))
  {
    if payload != [] {
      HexIsClean(payload[..|payload| - 1]);
    }
  }

  lemma PacketFieldsAreClean(pkt: CapturedPacket)
    ensures AllClean(PacketFields(pkt))
  {
    NumberIsClean(pkt.observed / NANOS_PER_MILLI);
    AddressIsClean(pkt.saddr);
    AddressIsClean(pkt.daddr);
    NumberIsClean(pkt.ipid);
    NumberIsClean(pkt.ttl);
  }

  lemma TcpFieldsAreClean(tcp: TcpSegment, order: seq<Byte>)
    ensures AllClean(TcpFields(tcp, order))
  {
    NumberIsClean(tcp.sport);
    NumberIsClean(tcp.dport);
    NumberIsClean(tcp.anum);
    NumberIsClean(tcp.snum);
    OptionsTextIsClean(order);
    HexIsClean(tcp.payload);
    NumberIsClean(tcp.windowSize);
  }

  lemma ReactionFieldsAreClean(reaction: Option<Request>)
    ensures AllClean(ReactionFields(reaction))
  {
    if reaction.Some? {
      var req := reaction.value;
      NumberIsClean(req.userId);
      NumberIsClean(req.anum);
      NumberIsClean(req.snum);
      NumberIsClean(req.numProbes);
    }
  }

  // -- the row is split into its fields -----------------------------------------------------------

  lemma {:induction false} JoinHasNoBlanks(fields: Text)
    requires AllClean(fields)
    ensures forall i :: 0 <= i < |Delimited(fields, DELIMITER)| ==> !IsSpace(Delimited(fields, DELIMITER)[i])
  {
    if |fields| > 1 {
      JoinHasNoBlanks(fields[1..]);
    }
  }

  lemma FieldsOfLine(fields: Text)
    requires fields != [] && AllClean(fields)
    ensures Fields(Delimited(fields, DELIMITER)) == fields && '\n' !in Delimited(fields, DELIMITER)
  {
    JoinHasNoBlanks(fields);
    RStripLine(Delimited(fields, DELIMITER));
    SplitJoin(fields, DELIMITER);
  }

  lemma RowSplits(pkt: CapturedPacket, order: seq<Byte>, reaction: Option<Request>)
    ensures Fields(RowText(pkt, order, reaction)) == RowFields(pkt, order, reaction)
    ensures '\n' !in RowText(pkt, order, reaction) && |RowFields(pkt, order, reaction)| == |COLUMNS|
  {
    PacketFieldsAreClean(pkt);
    TcpFieldsAreClean(pkt.tcp, order);
    ReactionFieldsAreClean(reaction);
    FieldsOfLine(RowFields(pkt, order, reaction));
  }

  // -- fields are parsed back ------------------------------------------------------------------------

  lemma NumberReads(row: Row, column: string, n: nat, limit: nat)
    requires column in row && row[column] == Decimal.ToString(n) && n < limit
    ensures Number(row, column, limit) == Ok(n)
  {
    Decimal.DigitsOfToString(n);
  }

  lemma AddressReads(row: Row, column: string, a: Address)
    requires column in row && row[column] == AddressText(a)
    ensures TcpLog.AddressOf(row, column) == Ok(a)
  {
    var parts := [Decimal.ToString(a.b0), Decimal.ToString(a.b1), Decimal.ToString(a.b2), Decimal.ToString(a.b3)];
    NumberIsClean(a.b0);
    NumberIsClean(a.b1);
    NumberIsClean(a.b2);
    NumberIsClean(a.b3);
    SplitJoin(parts, '.');
    Decimal.OctetOfToString(a.b0);
    Decimal.OctetOfToString(a.b1);
    Decimal.OctetOfToString(a.b2);
    Decimal.OctetOfToString(a.b3);
  }

  lemma NamesRead(names: Text)
    requires forall i :: 0 <= i < |names| ==> ':' !in names[i] && names[i] != ""
    ensures (if Delimited(names, ':') != "" then Split(Delimited(names, ':'), ':') else []) == names
  {
    if names != [] {
      SplitJoin(names, ':');
    }
  }

  lemma OptionsRead(row: Row, order: seq<Byte>)
    requires "options" in row && row["options"] == Delimited(OptionNames(order), ':')
    ensures OptionsOf(row) == OptionNames(order)
  {
    OptionNamesAreGood(order);
    GoodNamesAreClean(OptionNames(order));
    NamesRead(OptionNames(order));
  }

  // -- the logged event ---------------------------------------------------------------------------------

  function LoggedFlags(tcp: TcpSegment): seq<Flag> {
    (if tcp.fin then [Fin] else []) + (if tcp.syn then [Syn] else []) + (if tcp.rst then [Rst] else []) +
    (if tcp.ack then [Ack] else [])
  }

  /** The packet as the tools see it: time to the second, payload as hex, options by name. */
  function LoggedPacket(pkt: CapturedPacket, order: seq<Byte>): Packet {
    var tcp := pkt.tcp;
    Packet(pkt.observed / NANOS_PER_MILLI / 1000 * MICROS_PER_SECOND, pkt.saddr, pkt.daddr, pkt.ipid, pkt.ttl,
           Tcp(tcp.sport, tcp.dport, tcp.snum, tcp.anum, tcp.windowSize, LoggedFlags(tcp), OptionNames(order), HexText(tcp.payload)))
  }

  function LoggedRequest(req: Request): ProbeRequest {
    ProbeRequest(req.saddr, req.daddr, req.sport, req.dport, req.anum, req.snum, req.userId,
                 MethodName(req.probeMethod), req.numProbes, "")
  }

  function LoggedEvent(pkt: CapturedPacket, order: seq<Byte>, reaction: Option<Request>, batchId: int): Event {
    Event(LoggedPacket(pkt, order), if reaction.Some? then Some(LoggedRequest(reaction.value)) else None, None, batchId)
  }

  /** The request swaps the packet's addresses and ports, as every request of a shard does. */
  predicate SwapsEndpoints(pkt: CapturedPacket, req: Request) {
    req.saddr == pkt.daddr && req.daddr == pkt.saddr && req.sport == pkt.tcp.dport && req.dport == pkt.tcp.sport
  }

  /** `observed` is a 64 bit count of nanoseconds. */
  predicate Timely(pkt: CapturedPacket) {
    pkt.observed < 0x8000_0000_0000_0000
  }

  // -- columns ---------------------------------------------------------------------------------------------

  predicate PacketColumns(row: Row, pkt: CapturedPacket) {
    "ts" in row && row["ts"] == Decimal.ToString(pkt.observed / NANOS_PER_MILLI) &&
    "saddr" in row && row["saddr"] == AddressText(pkt.saddr) &&
    "daddr" in row && row["daddr"] == AddressText(pkt.daddr) &&
    "ipid" in row && row["ipid"] == Decimal.ToString(pkt.ipid) &&
    "ttl" in row && row["ttl"] == Decimal.ToString(pkt.ttl) &&
    "proto" in row && row["proto"] == "tcp"
  }

  predicate NumberColumns(row: Row, tcp: TcpSegment) {
    "sport" in row && row["sport"] == Decimal.ToString(tcp.sport) &&
    "dport" in row && row["dport"] == Decimal.ToString(tcp.dport) &&
    "anum" in row && row["anum"] == Decimal.ToString(tcp.anum) &&
    "snum" in row && row["snum"] == Decimal.ToString(tcp.snum) &&
    "window size" in row && row["window size"] == Decimal.ToString(tcp.windowSize)
  }

  predicate TextColumns(row: Row, tcp: TcpSegment, order: seq<Byte>) {
    "options" in row && row["options"] == Delimited(OptionNames(order), ':') &&
    "payload" in row && row["payload"] == HexText(tcp.payload)
  }

  predicate FlagColumns(row: Row, tcp: TcpSegment) {
    "syn" in row && row["syn"] == BoolText(tcp.syn) && "ack" in row && row["ack"] == BoolText(tcp.ack) &&
    "rst" in row && row["rst"] == BoolText(tcp.rst) && "fin" in row && row["fin"] == BoolText(tcp.fin) &&
    "psh" !in row && "urg" !in row && "ece" !in row && "cwr" !in row && "ns" !in row
  }

  predicate ReactionColumns(row: Row, reaction: Option<Request>) {
    "probed" in row && row["probed"] == (if reaction.Some? then "true" else "false") &&
    (reaction.Some? ==>
      "method" in row && row["method"] == MethodName(reaction.value.probeMethod) &&
      "userid" in row && row["userid"] == Decimal.ToString(reaction.value.userId) &&
      "probe anum" in row && row["probe anum"] == Decimal.ToString(reaction.value.anum) &&
      "probe snum" in row && row["probe snum"] == Decimal.ToString(reaction.value.snum) &&
      "num probes" in row && row["num probes"] == Decimal.ToString(reaction.value.numProbes))
  }

  /** Column `i` of a full row. */
  lemma ColumnAt(fields: Text, i: nat, name: string)
    requires |fields| == |COLUMNS| && i < |COLUMNS| && COLUMNS[i] == name
    ensures name in Zip(COLUMNS, fields) && Zip(COLUMNS, fields)[name] == fields[i]
  {
    ColumnsDiffer();
    ZipAt(COLUMNS, fields, i);
  }

  lemma {:induction false} OnlyColumns(header: Text, parts: Text, column: string)
    requires column !in header
    ensures column !in Zip(header, parts)
  {
    if header != [] && parts != [] {
      var m := if |header| <= |parts| then |header| else |parts|;
      OnlyColumns(header[..m - 1], parts[..m - 1], column);
    }
  }

  lemma FieldGroups(pkt: CapturedPacket, order: seq<Byte>, reaction: Option<Request>)
    ensures var fields := RowFields(pkt, order, reaction);
            |fields| == |COLUMNS| && fields[..6] == PacketFields(pkt) && fields[6..17] == TcpFields(pkt.tcp, order) &&
            fields[17..] == ReactionFields(reaction)
  {
  }

  lemma TimeAndAddressColumns(fields: Text, pkt: CapturedPacket)
    requires |fields| == |COLUMNS| && fields[..6] == PacketFields(pkt)
    ensures var row := Zip(COLUMNS, fields);
            "ts" in row && row["ts"] == Decimal.ToString(pkt.observed / NANOS_PER_MILLI) &&
            "saddr" in row && row["saddr"] == AddressText(pkt.saddr) &&
            "daddr" in row && row["daddr"] == AddressText(pkt.daddr)
  {
    ColumnAt(fields, 0, "ts");
    ColumnAt(fields, 1, "saddr");
    ColumnAt(fields, 2, "daddr");
  }

  lemma IpColumns(fields: Text, pkt: CapturedPacket)
    requires |fields| == |COLUMNS| && fields[..6] == PacketFields(pkt)
    ensures var row := Zip(COLUMNS, fields);
            "ipid" in row && row["ipid"] == Decimal.ToString(pkt.ipid) &&
            "ttl" in row && row["ttl"] == Decimal.ToString(pkt.ttl) &&
            "proto" in row && row["proto"] == "tcp"
  {
    ColumnAt(fields, 3, "ipid");
    ColumnAt(fields, 4, "ttl");
    ColumnAt(fields, 5, "proto");
  }

  lemma PortColumns(fields: Text, tcp: TcpSegment, order: seq<Byte>)
    requires |fields| == |COLUMNS| && fields[6..17] == TcpFields(tcp, order)
    ensures var row := Zip(COLUMNS, fields);
            "sport" in row && row["sport"] == Decimal.ToString(tcp.sport) &&
            "dport" in row && row["dport"] == Decimal.ToString(tcp.dport) &&
            "window size" in row && row["window size"] == Decimal.ToString(tcp.windowSize)
  {
    ColumnAt(fields, 6, "sport");
    ColumnAt(fields, 7, "dport");
    ColumnAt(fields, 16, "window size");
  }

  lemma SequenceColumns(fields: Text, tcp: TcpSegment, order: seq<Byte>)
    requires |fields| == |COLUMNS| && fields[6..17] == TcpFields(tcp, order)
    ensures var row := Zip(COLUMNS, fields);
            "anum" in row && row["anum"] == Decimal.ToString(tcp.anum) &&
            "snum" in row && row["snum"] == Decimal.ToString(tcp.snum)
  {
    ColumnAt(fields, 8, "anum");
    ColumnAt(fields, 9, "snum");
  }

  lemma TextColumnsHold(fields: Text, tcp: TcpSegment, order: seq<Byte>)
    requires |fields| == |COLUMNS| && fields[6..17] == TcpFields(tcp, order)
    ensures TextColumns(Zip(COLUMNS, fields), tcp, order)
  {
    ColumnAt(fields, 10, "options");
    ColumnAt(fields, 11, "payload");
    assert fields[10] == fields[6..17][4] && fields[11] == fields[6..17][5];
  }

  lemma SetFlagColumns(fields: Text, tcp: TcpSegment, order: seq<Byte>)
    requires |fields| == |COLUMNS| && fields[6..17] == TcpFields(tcp, order)
    ensures var row := Zip(COLUMNS, fields);
            "syn" in row && row["syn"] == BoolText(tcp.syn) && "ack" in row && row["ack"] == BoolText(tcp.ack) &&
            "rst" in row && row["rst"] == BoolText(tcp.rst) && "fin" in row && row["fin"] == BoolText(tcp.fin)
  {
    ColumnAt(fields, 12, "syn");
    ColumnAt(fields, 13, "ack");
    ColumnAt(fields, 14, "rst");
    ColumnAt(fields, 15, "fin");
  }

  lemma OtherFlagColumns(fields: Text)
    ensures var row := Zip(COLUMNS, fields);
            "psh" !in row && "urg" !in row && "ece" !in row && "cwr" !in row && "ns" !in row
  {
    NotColumns();
    OnlyColumns(COLUMNS, fields, "psh");
    OnlyColumns(COLUMNS, fields, "urg");
    OnlyColumns(COLUMNS, fields, "ece");
    OnlyColumns(COLUMNS, fields, "cwr");
    OnlyColumns(COLUMNS, fields, "ns");
  }

  /** Most columns have another length, the rest another first or second letter. */
  lemma NotColumns()
    ensures "psh" !in COLUMNS && "urg" !in COLUMNS && "ece" !in COLUMNS && "cwr" !in COLUMNS && "ns" !in COLUMNS
  {
    NotColumn("psh");
    NotColumn("urg");
    NotColumn("ece");
    NotColumn("cwr");
    NotColumn("ns");
  }

  lemma NotColumn(name: string)
    requires name == "psh" || name == "urg" || name == "ece" || name == "cwr" || name == "ns"
    ensures name !in COLUMNS
  {
    assert name !in PACKET_COLUMNS;
    assert name !in TCP_COLUMNS;
    assert name !in REACTION_COLUMNS;
  }

  lemma ReactionColumnsHold(fields: Text, reaction: Option<Request>)
    requires |fields| == |COLUMNS| && fields[17..] == ReactionFields(reaction)
    ensures ReactionColumns(Zip(COLUMNS, fields), reaction)
  {
    ColumnAt(fields, 17, "probed");
    ColumnAt(fields, 18, "method");
    ColumnAt(fields, 19, "userid");
    ColumnAt(fields, 20, "probe anum");
    ColumnAt(fields, 21, "probe snum");
    ColumnAt(fields, 22, "num probes");
  }

  // -- the round trip -----------------------------------------------------------------------------------------

  lemma TcpReads(row: Row, tcp: TcpSegment, order: seq<Byte>, pkt: CapturedPacket)
    requires tcp == pkt.tcp && NumberColumns(row, tcp) && TextColumns(row, tcp, order) && FlagColumns(row, tcp)
    ensures TcpFromCsv(row) == Ok(LoggedPacket(pkt, order).payload)
  {
    NumberReads(row, "sport", tcp.sport, PORTS);
    NumberReads(row, "dport", tcp.dport, PORTS);
    NumberReads(row, "anum", tcp.anum, WORDS);
    NumberReads(row, "snum", tcp.snum, WORDS);
    NumberReads(row, "window size", tcp.windowSize, PORTS);
    OptionsRead(row, order);
    assert FlagsOf(row) == LoggedFlags(tcp);
  }

  lemma PacketReads(row: Row, pkt: CapturedPacket, order: seq<Byte>)
    requires Timely(pkt) && PacketColumns(row, pkt)
    requires TcpFromCsv(row) == Ok(LoggedPacket(pkt, order).payload)
    ensures PacketFromCsv(row) == Ok(LoggedPacket(pkt, order))
  {
    AddressReads(row, "saddr", pkt.saddr);
    AddressReads(row, "daddr", pkt.daddr);
    NumberReads(row, "ttl", pkt.ttl, 0x100);
    NumberReads(row, "ipid", pkt.ipid, PORTS);
    NumberReads(row, "ts", pkt.observed / NANOS_PER_MILLI, LAST_MILLI);
  }

  lemma RequestReads(row: Row, pkt: CapturedPacket, req: Request)
    requires PacketColumns(row, pkt) && NumberColumns(row, pkt.tcp) && ReactionColumns(row, Some(req))
    requires SwapsEndpoints(pkt, req)
    ensures RequestFromCsv(row) == Ok(LoggedRequest(req))
  {
    AddressReads(row, "saddr", pkt.saddr);
    AddressReads(row, "daddr", pkt.daddr);
    NumberReads(row, "sport", pkt.tcp.sport, PORTS);
    NumberReads(row, "dport", pkt.tcp.dport, PORTS);
    NumberReads(row, "probe anum", req.anum, WORDS);
    NumberReads(row, "probe snum", req.snum, WORDS);
    NumberReads(row, "userid", req.userId, WORDS);
    Decimal.DigitsOfToString(req.numProbes);
  }

  /** A printed row parses back to its packet, and to its request if the row was probed. */
  lemma RowRoundTrip(pkt: CapturedPacket, order: seq<Byte>, reaction: Option<Request>, batchId: int)
    requires Timely(pkt) && (reaction.Some? ==> SwapsEndpoints(pkt, reaction.value))
    ensures EventFromCsv(batchId)(Zip(COLUMNS, Fields(RowText(pkt, order, reaction)))) ==
            Ok(LoggedEvent(pkt, order, reaction, batchId))
  {
    var fields := RowFields(pkt, order, reaction);
    var row := Zip(COLUMNS, fields);
    RowSplits(pkt, order, reaction);
    FieldGroups(pkt, order, reaction);
    TimeAndAddressColumns(fields, pkt);
    IpColumns(fields, pkt);
    PortColumns(fields, pkt.tcp, order);
    SequenceColumns(fields, pkt.tcp, order);
    TextColumnsHold(fields, pkt.tcp, order);
    SetFlagColumns(fields, pkt.tcp, order);
    OtherFlagColumns(fields);
    ReactionColumnsHold(fields, reaction);
    TcpReads(row, pkt.tcp, order, pkt);
    PacketReads(row, pkt, order);
    if reaction.Some? {
      RequestReads(row, pkt, reaction.value);
    }
  }

  // -- whole files, cut anywhere -----------------------------------------------------------------------------------

  datatype Logged = Logged(pkt: CapturedPacket, order: seq<Byte>, reaction: Option<Request>)

  predicate Printable(entry: Logged) {
    Timely(entry.pkt) && (entry.reaction.Some? ==> SwapsEndpoints(entry.pkt, entry.reaction.value))
  }

  function LineOf(entry: Logged): string {
    RowText(entry.pkt, entry.order, entry.reaction)
  }

  function HeaderLine(): string {
    Delimited(COLUMNS, DELIMITER)
  }

  function LinesOf(entries: seq<Logged>): (lines: seq<string>)
    ensures |lines| == |entries| && forall i :: 0 <= i < |entries| ==> lines[i] == LineOf(entries[i])
  {
    seq(|entries|, i requires 0 <= i < |entries| => LineOf(entries[i]))
  }

  function LogLines(entries: seq<Logged>): seq<string> {
    [HeaderLine()] + LinesOf(entries)
  }

  /** A log file: the header, and a line for each entry. */
  function LogText(entries: seq<Logged>): string {
    Framing.Join(LogLines(entries), [])
  }

  function EventOf(entry: Logged, batchId: int): Event {
    LoggedEvent(entry.pkt, entry.order, entry.reaction, batchId)
  }

  function EventsOf(entries: seq<Logged>, batchId: int): seq<Event> {
    if entries == [] then [] else EventsOf(entries[..|entries| - 1], batchId) + [EventOf(entries[|entries| - 1], batchId)]
  }

  // The header's columns hold blanks, but neither a delimiter nor a newline.

  predicate OneField(s: string) {
    forall i :: 0 <= i < |s| ==> s[i] != DELIMITER && s[i] != '\n'
  }

  predicate AllOneField(fields: Text) {
    forall i :: 0 <= i < |fields| ==> OneField(fields[i])
  }

  lemma ColumnsAreFields()
    ensures AllOneField(COLUMNS)
  {
    PacketColumnsAreFields();
    TcpColumnsAreFields();
    ReactionColumnsAreFields();
  }

  lemma PacketColumnsAreFields()
    ensures AllOneField(PACKET_COLUMNS)
  {
  }

  lemma TcpColumnsAreFields()
    ensures AllOneField(TCP_COLUMNS)
  {
  }

  lemma ReactionColumnsAreFields()
    ensures AllOneField(REACTION_COLUMNS)
  {
  }

  lemma {:induction false} DelimitedEnds(fields: Text)
    requires fields != [] && AllOneField(fields) && fields[|fields| - 1] != []
    ensures var s, last := Delimited(fields, DELIMITER), fields[|fields| - 1];
            '\n' !in s && s != [] && s[|s| - 1] == last[|last| - 1]
  {
    if |fields| > 1 {
      DelimitedEnds(fields[1..]);
    }
  }

  lemma HeaderSplits()
    ensures Fields(HeaderLine()) == COLUMNS && '\n' !in HeaderLine()
  {
    ColumnsAreFields();
    assert COLUMNS[|COLUMNS| - 1] == "num probes";
    DelimitedEnds(COLUMNS);
    RStripLine(Delimited(COLUMNS, DELIMITER));
    SplitJoin(COLUMNS, DELIMITER);
  }

  lemma EntryIsOneLine(entry: Logged)
    ensures '\n' !in LineOf(entry)
  {
    RowSplits(entry.pkt, entry.order, entry.reaction);
  }

  predicate AllOneLine(lines: seq<string>) {
    forall i :: 0 <= i < |lines| ==> '\n' !in lines[i]
  }

  lemma LinesOfAreLines(entries: seq<Logged>)
    ensures AllOneLine(LinesOf(entries))
  {
    var lines := LinesOf(entries);
    forall i | 0 <= i < |lines| ensures '\n' !in lines[i] {
      EntryIsOneLine(entries[i]);
    }
  }

  lemma OneMoreLine(line: string, lines: seq<string>)
    requires '\n' !in line && AllOneLine(lines)
    ensures forall l :: l in [line] + lines ==> '\n' !in l
  {
  }

  lemma LogLinesAreLines(entries: seq<Logged>)
    ensures forall l :: l in LogLines(entries) ==> '\n' !in l
  {
    HeaderSplits();
    LinesOfAreLines(entries);
    OneMoreLine(HeaderLine(), LinesOf(entries));
  }

  lemma LogLinesSnoc(entries: seq<Logged>)
    requires entries != []
    ensures LogLines(entries) == LogLines(entries[..|entries| - 1]) + [LineOf(entries[|entries| - 1])]
  {
    LinesOfSnoc(entries);
    Associate([HeaderLine()], LinesOf(entries[..|entries| - 1]), [LineOf(entries[|entries| - 1])]);
  }

  lemma LinesOfSnoc(entries: seq<Logged>)
    requires entries != []
    ensures LinesOf(entries) == LinesOf(entries[..|entries| - 1]) + [LineOf(entries[|entries| - 1])]
  {
    OneMore(LinesOf(entries), LinesOf(entries[..|entries| - 1]), LineOf(entries[|entries| - 1]));
  }

  lemma OneMore<T>(s: seq<T>, t: seq<T>, x: T)
    requires |s| == |t| + 1 && s[|t|] == x && forall i :: 0 <= i < |t| ==> s[i] == t[i]
    ensures s == t + [x]
  {
  }

  lemma LogLinesPrefix(entries: seq<Logged>, k: nat)
    requires k <= |entries|
    ensures LogLines(entries)[..k + 1] == LogLines(entries[..k])
  {
  }

  /** The lines of a log are read as its events. */
  lemma {:induction false} LinesRead(entries: seq<Logged>, batchId: int)
    requires forall i :: 0 <= i < |entries| ==> Printable(entries[i])
    ensures var rows := RowsOf(LogLines(entries));
            NoneRaises(rows, EventFromCsv(batchId)) && ItemsOf(rows, EventFromCsv(batchId)) == EventsOf(entries, batchId)
  {
    if entries != [] {
      var n := |entries| - 1;
      LinesRead(entries[..n], batchId);
      LastRowRead(entries, batchId);
      var rows := RowsOf(LogLines(entries[..n]));
      RowRead(rows, Zip(COLUMNS, Fields(LineOf(entries[n]))), EventOf(entries[n], batchId), EventFromCsv(batchId));
    }
  }

  lemma LastRowRead(entries: seq<Logged>, batchId: int)
    requires entries != [] && Printable(entries[|entries| - 1])
    ensures var n := |entries| - 1;
            var row := Zip(COLUMNS, Fields(LineOf(entries[n])));
            RowsOf(LogLines(entries)) == RowsOf(LogLines(entries[..n])) + [row] &&
            EventFromCsv(batchId)(row) == Ok(EventOf(entries[n], batchId))
  {
    var n := |entries| - 1;
    var last := entries[n];
    HeaderSplits();
    LogLinesSnoc(entries);
    RowsSnoc(LogLines(entries[..n]), LineOf(last));
    RowRoundTrip(last.pkt, last.order, last.reaction, batchId);
  }

  lemma RowRead<T>(rows: seq<Row>, row: Row, entry: T, parse: Row -> Outcome<T>)
    requires NoneRaises(rows, parse) && parse(row) == Ok(entry)
    ensures NoneRaises(rows + [row], parse) && ItemsOf(rows + [row], parse) == ItemsOf(rows, parse) + [entry]
  {
    assert (rows + [row])[..|rows|] == rows;
  }

  /** Wherever a log is cut, the complete lines read so far give the events of exactly as many
      entries, in order, and no row fails. */
  lemma LogRoundTrip(entries: seq<Logged>, received: string, batchId: int)
    requires forall i :: 0 <= i < |entries| ==> Printable(entries[i])
    requires received <= LogText(entries)
    ensures var lines := Lines(received);
            |lines| <= |entries| + 1 && NoneRaises(RowsOf(lines), EventFromCsv(batchId)) &&
            ItemsOf(RowsOf(lines), EventFromCsv(batchId)) == EventsOf(entries[..if lines == [] then 0 else |lines| - 1], batchId)
  {
    var rest := LogText(entries)[|received|..];
    assert LogText(entries) == received + rest;
    LogLinesAreLines(entries);
    SplitIsUnique(LogLines(entries), []);
    LinesConcat(received, rest);
    var n := |Lines(received)|;
    assert Lines(received) == LogLines(entries)[..n];
    if n > 0 {
      LogLinesPrefix(entries, n - 1);
      LinesRead(entries[..n - 1], batchId);
    }
  }
}
