/** TCP rows of the raw log: printed by the collector, parsed by the evaluation tools. */
module TcpLog {
  import opened Collections
  import opened Events
  import opened Capture
  import opened Csv
  import opened LogReading
  import Decimal

  const PACKET_COLUMNS := ["ts", "saddr", "daddr", "ipid", "ttl", "proto"]
  const TCP_COLUMNS := ["sport", "dport", "anum", "snum", "options", "payload", "syn", "ack", "rst", "fin", "window size"]
  const REACTION_COLUMNS := ["probed", "method", "userid", "probe anum", "probe snum", "num probes"]

  /** The header of the raw log. */
  const COLUMNS: Text := PACKET_COLUMNS + TCP_COLUMNS + REACTION_COLUMNS

  lemma ColumnsDiffer()
    ensures NoDuplicates(COLUMNS)
  {
  }

  // -- printed fields -----------------------------------------------------------------------

  function BoolText(b: bool): string { if b then "1" else "0" }

  /** `option_name` */
  function OptionName(kind: Byte): string {
    match kind
    case 0 => "end_of_list"
    case 1 => "noop"
    case 2 => "mss"
    case 3 => "window_scale"
    case 4 => "sack_permitted"
    case 5 => "sack"
    case 8 => "timestamp"
    case 9 => "other"
    case _ => "???"
  }

  function OptionNames(order: seq<Byte>): seq<string> {
    if order == [] then [] else OptionNames(order[..|order| - 1]) + [OptionName(order[|order| - 1])]
  }

  function HexDigit(n: nat): char
    requires n < 16
  {
    if n < 10 then '0' + n as char else 'a' + (n - 10) as char
  }

  /** `to_hex_string` */
  function HexText(payload: seq<Byte>): string {
    if payload == [] then []
    else
      var last := payload[|payload| - 1];
      HexText(payload[..|payload| - 1]) + [HexDigit(last / 16), HexDigit(last % 16)]
  }

  function AddressText(a: Address): string {
    Delimited([Decimal.ToString(a.b0), Decimal.ToString(a.b1), Decimal.ToString(a.b2), Decimal.ToString(a.b3)], '.')
  }

  const NANOS_PER_MILLI := 1_000_000

  /** The columns `ts` to `proto`. */
  function PacketFields(pkt: CapturedPacket): Text {
    [Decimal.ToString(pkt.observed / NANOS_PER_MILLI), AddressText(pkt.saddr), AddressText(pkt.daddr),
     Decimal.ToString(pkt.ipid), Decimal.ToString(pkt.ttl), "tcp"]
  }

  /** The columns `sport` to `window size`; the options come in the order of a hash table. */
  function TcpFields(tcp: TcpSegment, order: seq<Byte>): Text {
    [Decimal.ToString(tcp.sport), Decimal.ToString(tcp.dport), Decimal.ToString(tcp.anum), Decimal.ToString(tcp.snum),
     Delimited(OptionNames(order), ':'), HexText(tcp.payload), BoolText(tcp.syn), BoolText(tcp.ack), BoolText(tcp.rst),
     BoolText(tcp.fin), Decimal.ToString(tcp.windowSize)]
  }

  function MethodName(m: Method): string {
    if m.TcpSynAck? then "tcp-synack" else "tcp-rst"
  }

  /** The columns `probed` to `num probes`. */
  function ReactionFields(reaction: Option<Request>): Text {
    if reaction.None? then ["false", "", "", "", "", ""]
    else
      var req := reaction.value;
      ["true", MethodName(req.probeMethod), Decimal.ToString(req.userId), Decimal.ToString(req.anum),
       Decimal.ToString(req.snum), Decimal.ToString(req.numProbes)]
  }

  function RowFields(pkt: CapturedPacket, order: seq<Byte>, reaction: Option<Request>): Text {
    PacketFields(pkt) + TcpFields(pkt.tcp, order) + ReactionFields(reaction)
  }

  /** A printed row, without its newline. */
  function RowText(pkt: CapturedPacket, order: seq<Byte>, reaction: Option<Request>): string {
    Delimited(RowFields(pkt, order, reaction), DELIMITER)
  }

  // -- parsed fields -------------------------------------------------------------------------------

  function Lookup(row: Row, column: string): Outcome<string> {
    if column in row then Ok(row[column]) else Skipped
  }

  /** A number below `limit`. */
  function Number(row: Row, column: string, limit: nat): (r: Outcome<nat>)
    ensures r.Ok? ==> r.value < limit
  {
    var s :- Lookup(row, column);
    if 0 <= Decimal.Digits(s) < limit then Ok(Decimal.Digits(s)) else Raised
  }

  /** `ip_address` for a dotted quad. */
  function ParseAddress(s: string): Outcome<Address> {
    var parts := Split(s, '.');
    if |parts| == 4 && Decimal.Octet(parts[0]) >= 0 && Decimal.Octet(parts[1]) >= 0 && Decimal.Octet(parts[2]) >= 0 &&
       Decimal.Octet(parts[3]) >= 0 then
      Ok(Address(Decimal.Octet(parts[0]), Decimal.Octet(parts[1]), Decimal.Octet(parts[2]), Decimal.Octet(parts[3])))
    else Raised
  }

  function AddressOf(row: Row, column: string): Outcome<Address> {
    var s :- Lookup(row, column);
    ParseAddress(s)
  }

  const PORTS := 0x1_0000
  const WORDS := 0x1_0000_0000
  /** Milliseconds up to the year 10000, where `fromtimestamp` gives up. */
  const LAST_MILLI := 253_402_300_800_000

  predicate FlagSet(row: Row, column: string) {
    column in row && row[column] == "1"
  }

  /** The loop over `all_tcp_flags`. */
  function FlagsOf(row: Row): seq<Flag> {
    (if FlagSet(row, "fin") then [Fin] else []) + (if FlagSet(row, "syn") then [Syn] else []) +
    (if FlagSet(row, "rst") then [Rst] else []) + (if FlagSet(row, "psh") then [Psh] else []) +
    (if FlagSet(row, "ack") then [Ack] else []) + (if FlagSet(row, "urg") then [Urg] else []) +
    (if FlagSet(row, "ece") then [Ece] else []) + (if FlagSet(row, "cwr") then [Cwr] else []) +
    (if FlagSet(row, "ns") then [Ns] else [])
  }

  function OptionsOf(row: Row): seq<string> {
    if "options" in row && row["options"] != "" then Split(row["options"], ':') else []
  }

  /** `TCP.from_csv` */
  function TcpFromCsv(row: Row): Outcome<Tcp> {
    var sport :- Number(row, "sport", PORTS);
    var dport :- Number(row, "dport", PORTS);
    var snum :- Number(row, "snum", WORDS);
    var anum :- Number(row, "anum", WORDS);
    var windowSize :- Number(row, "window size", PORTS);
    var payload :- Lookup(row, "payload");
    Ok(Tcp(sport, dport, snum, anum, windowSize, FlagsOf(row), OptionsOf(row), payload))
  }

  /** `Packet.from_csv`; rows of other protocols are not part of this model. */
  function PacketFromCsv(row: Row): Outcome<Packet> {
    var saddr :- AddressOf(row, "saddr");
    var daddr :- AddressOf(row, "daddr");
    var ttl :- Number(row, "ttl", 0x100);
    var ipid :- Number(row, "ipid", PORTS);
    var millis :- Number(row, "ts", LAST_MILLI);
    var proto :- Lookup(row, "proto");
    if proto != "tcp" then Skipped
    else
      var tcp :- TcpFromCsv(row);
      Ok(Packet(millis / 1000 * MICROS_PER_SECOND, saddr, daddr, ipid, ttl, tcp))
  }

  /** `ProbeRequest.from_csv` swaps the addresses and ports of the packet. */
  function RequestFromCsv(row: Row): Outcome<ProbeRequest> {
    var daddr :- AddressOf(row, "saddr");
    var saddr :- AddressOf(row, "daddr");
    var dport :- Number(row, "sport", PORTS);
    var sport :- Number(row, "dport", PORTS);
    var anum :- Number(row, "probe anum", WORDS);
    var snum :- Number(row, "probe snum", WORDS);
    var userid :- Number(row, "userid", WORDS);
    var probeMethod :- Lookup(row, "method");
    var num :- Lookup(row, "num probes");
    if Decimal.Digits(num) < 0 then Raised
    else Ok(ProbeRequest(saddr, daddr, sport, dport, anum, snum, userid, probeMethod, Decimal.Digits(num), ""))
  }

  /** `Event.from_csv`, with the batch id that `consume` sets. */
  function EventFromCsv(batchId: int): Row -> Outcome<Event> {
    (row: Row) =>
      var pkt :- PacketFromCsv(row);
      var probed :- Lookup(row, "probed");
      if probed == "true" then
        var req :- RequestFromCsv(row);
        Ok(Event(pkt, Some(req), None, batchId))
      else Ok(Event(pkt, None, None, batchId))
  }
}
