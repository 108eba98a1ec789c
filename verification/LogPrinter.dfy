/** The collector's CSV printer: rows are appended to a buffer field by field. */
module LogPrinting {
  import opened Collections
  import opened Events
  import opened Capture
  import opened Csv
  import opened LogReading
  import opened TcpLog
  import Decimal

  /** Fields, each followed by a delimiter. */
  function Terminated(fields: Text): string {
    if fields == [] then [] else fields[0] + [DELIMITER] + Terminated(fields[1..])
  }

  lemma {:induction false} TerminatedSnoc(fields: Text, field: string)
    ensures Terminated(fields + [field]) == Terminated(fields) + (field + [DELIMITER])
  {
    if fields == [] {
      assert [field][1..] == [];
    } else {
      assert (fields + [field])[1..] == fields[1..] + [field];
      TerminatedSnoc(fields[1..], field);
      Associate(fields[0] + [DELIMITER], Terminated(fields[1..]), field + [DELIMITER]);
    }
  }

  lemma {:induction false} TerminatedThenLast(fields: Text, last: string)
    ensures Delimited(fields + [last], DELIMITER) == Terminated(fields) + last
  {
    if fields != [] {
      assert (fields + [last])[1..] == fields[1..] + [last];
      TerminatedThenLast(fields[1..], last);
      Associate(fields[0] + [DELIMITER], Terminated(fields[1..]), last);
    }
  }

  lemma DelimitedSnoc(names: Text, name: string, c: char)
    ensures Delimited(names + [name], c) == if names == [] then name else Delimited(names, c) + [c] + name
    decreases |names|
  {
    if names != [] {
      assert (names + [name])[1..] == names[1..] + [name];
      DelimitedSnoc(names[1..], name, c);
      if |names| > 1 {
        Associate(names[0] + [c], Delimited(names[1..], c), [c] + name);
        Associate(names[0] + [c] + Delimited(names[1..], c), [c], name);
        Associate(Delimited(names[1..], c), [c], name);
      }
    }
  }

  /** `to_string` of the options; `order` is how the hash table lists them. */
  method OptionsToString(order: seq<Byte>) returns (str: string)
    ensures str == Delimited(OptionNames(order), ':')
  {
    str := "";
    for i := 0 to |order|
      invariant str == Delimited(OptionNames(order[..i]), ':') && (i > 0 ==> str != "")
    {
      assert order[..i + 1][..i] == order[..i];
      DelimitedSnoc(OptionNames(order[..i]), OptionName(order[i]), ':');
      if |str| != 0 {
        str := str + ":";
      }
      str := str + OptionName(order[i]);
    }
    assert order[..|order|] == order;
  }

  /** `to_hex_string` */
  method ToHexString(payload: seq<Byte>) returns (s: string)
    ensures s == HexText(payload)
  {
    s := "";
    for i := 0 to |payload|
      invariant s == HexText(payload[..i])
    {
      assert payload[..i + 1][..i] == payload[..i];
      s := s + [HexDigit(payload[i] / 16), HexDigit(payload[i] % 16)];
    }
    assert payload[..|payload|] == payload;
  }

  /** `g` is the group of TCP columns. */
  predicate TcpGroup(g: Text, tcp: TcpSegment, order: seq<Byte>) {
    |g| == 11 && g[0] == Decimal.ToString(tcp.sport) && g[1] == Decimal.ToString(tcp.dport) &&
    g[2] == Decimal.ToString(tcp.anum) && g[3] == Decimal.ToString(tcp.snum) && g[4] == Delimited(OptionNames(order), ':') &&
    g[5] == HexText(tcp.payload) && g[6] == BoolText(tcp.syn) && g[7] == BoolText(tcp.ack) && g[8] == BoolText(tcp.rst) &&
    g[9] == BoolText(tcp.fin) && g[10] == Decimal.ToString(tcp.windowSize)
  }

  lemma TcpGroupIs(g: Text, tcp: TcpSegment, order: seq<Byte>)
    ensures TcpGroup(g, tcp, order) <==> g == TcpFields(tcp, order)
  {
  }

  lemma SomeTcpGroup(tcp: TcpSegment, order: seq<Byte>) returns (g: Text)
    ensures TcpGroup(g, tcp, order)
  {
    g := TcpFields(tcp, order);
  }

  class RowPrinter {
    var buf: string
    /** What was there before this row, the fields it has so far, and the one being written. */
    ghost var start: string
    ghost var fields: Text
    ghost var pending: string

    ghost predicate Valid()
      reads `buf, `start, `fields, `pending
    {
      buf == start + (Terminated(fields) + pending)
    }

    constructor (buf: string)
      ensures Valid() && this.buf == start == buf && fields == [] && pending == []
    {
      this.buf, start, fields, pending := buf, buf, [], [];
    }

    method AppendField(str: string)
      requires Valid()
      modifies `buf, `pending
      ensures Valid() && pending == old(pending) + str
    {
      Associate(start, Terminated(fields) + pending, str);
      Associate(Terminated(fields), pending, str);
      buf := buf + str;
      pending := pending + str;
    }

    method AppendDelimiter()
      requires Valid()
      modifies `buf, `pending, `fields
      ensures Valid() && pending == [] && fields == old(fields) + [old(pending)]
    {
      Associate(start, Terminated(fields) + pending, [DELIMITER]);
      Associate(Terminated(fields), pending, [DELIMITER]);
      TerminatedSnoc(fields, pending);
      buf := buf + [DELIMITER];
      fields, pending := fields + [pending], [];
      assert Terminated(fields) + [] == Terminated(fields);
    }

    /** The first `k` fields of `group` follow the fields `base`. */
    ghost predicate Done(base: Text, group: Text, k: nat)
      reads `fields, `pending
    {
      k <= |group| && fields == base + group[..k] && pending == []
    }

    /** `append_field_del` for field `k` of a group. */
    method AppendFieldDel(str: string, ghost base: Text, ghost group: Text, ghost k: nat)
      requires Valid() && Done(base, group, k) && k < |group| && group[k] == str
      modifies `buf, `pending, `fields
      ensures Valid() && Done(base, group, k + 1)
    {
      AppendField(str);
      assert [] + str == str;
      AppendDelimiter();
      assert group[..k + 1] == group[..k] + [str];
    }

    /** The delimiter behind a field that is skipped. */
    method SkipField(ghost base: Text, ghost group: Text, ghost k: nat)
      requires Valid() && Done(base, group, k) && k < |group| && group[k] == ""
      modifies `buf, `pending, `fields
      ensures Valid() && Done(base, group, k + 1)
    {
      AppendDelimiter();
      assert group[..k + 1] == group[..k] + [[]];
    }

    method AppendPacketFields(pkt: CapturedPacket)
      requires Valid() && fields == [] && pending == []
      modifies `buf, `pending, `fields
      ensures Valid() && pending == [] && fields == PacketFields(pkt)
    {
      ghost var g := PacketFields(pkt);
      AppendFieldDel(Decimal.ToString(pkt.observed / NANOS_PER_MILLI), [], g, 0);
      AppendFieldDel(AddressText(pkt.saddr), [], g, 1);
      AppendFieldDel(AddressText(pkt.daddr), [], g, 2);
      AppendFieldDel(Decimal.ToString(pkt.ipid), [], g, 3);
      AppendFieldDel(Decimal.ToString(pkt.ttl), [], g, 4);
      AppendFieldDel("tcp", [], g, 5);
    }

    method AppendNumbers(tcp: TcpSegment, ghost base: Text, ghost g: Text)
      requires Valid() && Done(base, g, 0) && |g| == 11
      requires g[0] == Decimal.ToString(tcp.sport) && g[1] == Decimal.ToString(tcp.dport)
      requires g[2] == Decimal.ToString(tcp.anum) && g[3] == Decimal.ToString(tcp.snum)
      modifies `buf, `pending, `fields
      ensures Valid() && Done(base, g, 4)
    {
      AppendFieldDel(Decimal.ToString(tcp.sport), base, g, 0);
      AppendFieldDel(Decimal.ToString(tcp.dport), base, g, 1);
      AppendFieldDel(Decimal.ToString(tcp.anum), base, g, 2);
      AppendFieldDel(Decimal.ToString(tcp.snum), base, g, 3);
    }

    method AppendFlags(tcp: TcpSegment, ghost base: Text, ghost g: Text)
      requires Valid() && Done(base, g, 6) && |g| == 11
      requires g[6] == BoolText(tcp.syn) && g[7] == BoolText(tcp.ack) && g[8] == BoolText(tcp.rst) && g[9] == BoolText(tcp.fin)
      modifies `buf, `pending, `fields
      ensures Valid() && Done(base, g, 10)
    {
      AppendFieldDel(BoolText(tcp.syn), base, g, 6);
      AppendFieldDel(BoolText(tcp.ack), base, g, 7);
      AppendFieldDel(BoolText(tcp.rst), base, g, 8);
      AppendFieldDel(BoolText(tcp.fin), base, g, 9);
    }

    /** The visitor for TCP and the delimiter behind it. */
    method AppendTcp(tcp: TcpSegment, order: seq<Byte>)
      requires Valid() && pending == []
      modifies `buf, `pending, `fields
      ensures Valid() && pending == [] && fields == old(fields) + TcpFields(tcp, order)
    {
      ghost var base := fields;
      ghost var g := SomeTcpGroup(tcp, order);
      assert base + g[..0] == base;
      AppendNumbers(tcp, base, g);
      var options := OptionsToString(order);
      AppendFieldDel(options, base, g, 4);
      var payload := ToHexString(tcp.payload);
      AppendFieldDel(payload, base, g, 5);
      AppendFlags(tcp, base, g);
      AppendFieldDel(Decimal.ToString(tcp.windowSize), base, g, 10);
      assert g[..11] == g;
      TcpGroupIs(g, tcp, order);
    }

    /** The columns of a packet that was not probed: five fields stay empty. */
    method AppendNoReaction()
      requires Valid() && pending == []
      modifies `buf, `pending, `fields
      ensures Valid() && fields + [pending] == old(fields) + ReactionFields(None)
    {
      ghost var base, g := fields, ReactionFields(None);
      assert base + g[..0] == base;
      AppendFieldDel("false", base, g, 0);
      SkipField(base, g, 1);
      SkipField(base, g, 2);
      SkipField(base, g, 3);
      SkipField(base, g, 4);
      assert g == g[..5] + [""];
    }

    method AppendReaction(req: Request)
      requires Valid() && pending == []
      modifies `buf, `pending, `fields
      ensures Valid() && fields + [pending] == old(fields) + ReactionFields(Some(req))
    {
      ghost var base, g := fields, ReactionFields(Some(req));
      assert base + g[..0] == base;
      AppendFieldDel("true", base, g, 0);
      AppendFieldDel(MethodName(req.probeMethod), base, g, 1);
      AppendFieldDel(Decimal.ToString(req.userId), base, g, 2);
      AppendFieldDel(Decimal.ToString(req.anum), base, g, 3);
      AppendFieldDel(Decimal.ToString(req.snum), base, g, 4);
      AppendField(Decimal.ToString(req.numProbes));
      assert [] + Decimal.ToString(req.numProbes) == Decimal.ToString(req.numProbes);
      assert g == g[..5] + [Decimal.ToString(req.numProbes)];
    }

    /** `append_log_entry` for a packet alone. */
    method AppendPacket(pkt: CapturedPacket, order: seq<Byte>)
      requires Valid() && start == buf && fields == [] && pending == []
      modifies `buf, `pending, `fields
      ensures buf == old(buf) + RowText(pkt, order, None)
    {
      AppendPacketFields(pkt);
      AppendTcp(pkt.tcp, order);
      AppendNoReaction();
      TerminatedThenLast(fields, pending);
    }

    /** `append_log_entry` for a packet and the request it led to. */
    method AppendPacketAndRequest(pkt: CapturedPacket, order: seq<Byte>, req: Request)
      requires Valid() && start == buf && fields == [] && pending == []
      modifies `buf, `pending, `fields
      ensures buf == old(buf) + RowText(pkt, order, Some(req))
    {
      AppendPacketFields(pkt);
      AppendTcp(pkt.tcp, order);
      AppendReaction(req);
      TerminatedThenLast(fields, pending);
    }
  }
}
