/** What a shard answers and logs, field by field. */
module ShardAnswers {
  import opened Collections
  import opened Events
  import opened Capture
  import opened Sharding
  import opened TcpLog
  import opened TcpRoundTrip

  /** The probe goes back where the packet came from. */
  predicate GoesBack(req: Request, pkt: CapturedPacket) {
    req.saddr == pkt.daddr && req.daddr == pkt.saddr && req.sport == pkt.tcp.dport && req.dport == pkt.tcp.sport
  }

  /** A SYN, without ACK or RST. */
  predicate AsksToConnect(pkt: CapturedPacket) {
    pkt.tcp.syn && !pkt.tcp.ack && !pkt.tcp.rst
  }

  /** An ACK without SYN. */
  predicate OnlyAcks(pkt: CapturedPacket) {
    !pkt.tcp.syn && pkt.tcp.ack
  }

  /** A SYN is answered by one SYN ACK that acknowledges all it carries, and logged with it; the
      prober learns whether it looks like a scanner's. */
  lemma SynIsAnswered(scheduled: set<Endpoint>, pkt: CapturedPacket, uid: Word)
    requires AsksToConnect(pkt)
    ensures var out := Outputs(scheduled, pkt, uid);
            |out| == 2 && out[0].ToProber? && out[1] == Log(pkt, Some(out[0].req)) &&
            (out[0].isIrregular <==> pkt.ipid == 54321 || pkt.ttl > 200 || pkt.tcp.options == {}) &&
            var req := out[0].req;
            req.probeMethod.TcpSynAck? && GoesBack(req, pkt) && req.userId == uid && req.numProbes == 1 &&
            req.anum == (pkt.tcp.snum + |pkt.tcp.payload| + 1) % 0x1_0000_0000 && req.snum == 0
  {
  }

  /** The first ACK of an endpoint gets one delayed RST of two probes, with the sequence number the
      peer expects, and is logged with it. */
  lemma FirstAckIsReset(scheduled: set<Endpoint>, pkt: CapturedPacket, uid: Word)
    requires OnlyAcks(pkt) && Endpoint(pkt.saddr, pkt.tcp.sport) !in scheduled
    ensures var out := Outputs(scheduled, pkt, uid);
            |out| == 2 && out[0].Delayed? && out[1] == Log(pkt, Some(out[0].req)) &&
            var req := out[0].req;
            req.probeMethod.TcpRst? && GoesBack(req, pkt) && req.userId == uid && req.numProbes == 2 &&
            req.snum == pkt.tcp.anum && req.anum == 0
  {
  }

  /** Further ACKs of an endpoint leave nothing, not even a row, until its RST is sent. */
  lemma RepeatedAckIsIgnored(scheduled: set<Endpoint>, pkt: CapturedPacket, uid: Word)
    requires OnlyAcks(pkt) && Endpoint(pkt.saddr, pkt.tcp.sport) in scheduled
    ensures Outputs(scheduled, pkt, uid) == []
  {
  }

  /** Every other packet is only logged. */
  lemma OthersAreLogged(scheduled: set<Endpoint>, pkt: CapturedPacket, uid: Word)
    requires !AsksToConnect(pkt) && !OnlyAcks(pkt)
    ensures Outputs(scheduled, pkt, uid) == [Log(pkt, None)]
  {
  }

  function Rows(out: seq<Output>): nat {
    if out == [] then 0 else Rows(out[..|out| - 1]) + if out[|out| - 1].Log? then 1 else 0
  }

  lemma TwoOutputs(a: Output, b: Output)
    requires !a.Log? && b.Log?
    ensures Rows([a, b]) == 1 && Rows([b]) == 1
  {
    assert [a, b][..1] == [a] && [a][..0] == [] && [b][..0] == [];
    assert Rows([a]) == 0;
  }

  /** Every packet leaves exactly one row, except a repeated ACK. */
  lemma OneRowEach(scheduled: set<Endpoint>, pkt: CapturedPacket, uid: Word)
    ensures Rows(Outputs(scheduled, pkt, uid)) ==
            if OnlyAcks(pkt) && Endpoint(pkt.saddr, pkt.tcp.sport) in scheduled then 0 else 1
  {
    var none := Delayed(RstFor(pkt, uid));
    if AsksToConnect(pkt) {
      SynIsAnswered(scheduled, pkt, uid);
      var out := Outputs(scheduled, pkt, uid);
      assert out == [out[0], out[1]];
      TwoOutputs(out[0], out[1]);
    } else if !OnlyAcks(pkt) {
      OthersAreLogged(scheduled, pkt, uid);
      TwoOutputs(none, Log(pkt, None));
    } else if Endpoint(pkt.saddr, pkt.tcp.sport) !in scheduled {
      FirstAckIsReset(scheduled, pkt, uid);
      var out := Outputs(scheduled, pkt, uid);
      assert out == [out[0], out[1]];
      TwoOutputs(out[0], out[1]);
    }
  }

  // -- as the tools read it -------------------------------------------------------------------------

  /** The logged probe goes back where the packet came from. */
  predicate LoggedGoesBack(req: ProbeRequest, pkt: CapturedPacket) {
    req.saddr == pkt.daddr && req.daddr == pkt.saddr && req.sport == pkt.tcp.dport && req.dport == pkt.tcp.sport
  }

  /** A row of the shard, read back. */
  lemma AnswersAreLogged(scheduled: set<Endpoint>, pkt: CapturedPacket, uid: Word, order: seq<Byte>, row: Output, batchId: int)
    requires row in Outputs(scheduled, pkt, uid) && row.Log?
    ensures var req := LoggedEvent(pkt, order, row.reaction, batchId).request;
            (req.Some? <==> AsksToConnect(pkt) || OnlyAcks(pkt)) &&
            (req.Some? ==> LoggedGoesBack(req.value, pkt) && req.value.userid == uid) &&
            (AsksToConnect(pkt) ==>
               req.value.probeMethod == "tcp-synack" && req.value.numProbes == 1 && req.value.snum == 0 &&
               req.value.anum == (pkt.tcp.snum + |pkt.tcp.payload| + 1) % 0x1_0000_0000) &&
            (OnlyAcks(pkt) ==>
               req.value.probeMethod == "tcp-rst" && req.value.numProbes == 2 && req.value.snum == pkt.tcp.anum && req.value.anum == 0)
  {
    if AsksToConnect(pkt) {
      SynIsAnswered(scheduled, pkt, uid);
    } else if OnlyAcks(pkt) {
      if Endpoint(pkt.saddr, pkt.tcp.sport) in scheduled {
        RepeatedAckIsIgnored(scheduled, pkt, uid);
      } else {
        FirstAckIsReset(scheduled, pkt, uid);
      }
    } else {
      OthersAreLogged(scheduled, pkt, uid);
    }
  }

  /** The packet itself as the tools read it. */
  lemma PacketIsLogged(pkt: CapturedPacket, order: seq<Byte>, reaction: Option<Request>, batchId: int)
    ensures var p := LoggedEvent(pkt, order, reaction, batchId).packet;
            p.timestamp == pkt.observed / 1_000_000_000 * 1_000_000 && p.saddr == pkt.saddr && p.daddr == pkt.daddr &&
            p.ipid == pkt.ipid && p.ttl == pkt.ttl && p.payload.sport == pkt.tcp.sport && p.payload.dport == pkt.tcp.dport &&
            p.payload.snum == pkt.tcp.snum && p.payload.anum == pkt.tcp.anum && p.payload.windowSize == pkt.tcp.windowSize &&
            (Syn in p.payload.flags <==> pkt.tcp.syn) && (Ack in p.payload.flags <==> pkt.tcp.ack) &&
            (Rst in p.payload.flags <==> pkt.tcp.rst) && (Fin in p.payload.flags <==> pkt.tcp.fin)
  {
  }

  // -- names ------------------------------------------------------------------------------------------

  /** The option kinds and the names the log gives them. */
  const OPTION_NAMES: seq<(Byte, string)> :=
    [(0, "end_of_list"), (1, "noop"), (2, "mss"), (3, "window_scale"), (4, "sack_permitted"), (5, "sack"), (8, "timestamp"), (9, "other")]

  lemma NoNameIsUnknown()
    ensures forall i :: 0 <= i < |OPTION_NAMES| ==> OPTION_NAMES[i].1[0] != '?'
  {
  }

  predicate Listed(kind: Byte) {
    exists i :: 0 <= i < |OPTION_NAMES| && OPTION_NAMES[i].0 == kind
  }

  /** Listed kinds have the listed names, every other kind is unknown. */
  lemma NamesOfOptions(kind: Byte)
    ensures forall i :: 0 <= i < |OPTION_NAMES| ==> OptionName(OPTION_NAMES[i].0) == OPTION_NAMES[i].1
    ensures OptionName(kind) == "???" <==> !Listed(kind)
  {
    NoNameIsUnknown();
    if kind < 6 {
      assert OPTION_NAMES[kind].0 == kind;
    } else if kind == 8 {
      assert OPTION_NAMES[6].0 == kind;
    } else if kind == 9 {
      assert OPTION_NAMES[7].0 == kind;
    }
  }
}
