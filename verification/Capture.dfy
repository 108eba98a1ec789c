/** Captured TCP packets and probe requests, as the C++ side of Spoki sees them. */
module Capture {
  import opened Events

  /** `options` are the option kinds of the header. */
  datatype TcpSegment = TcpSegment(sport: Port, dport: Port, snum: Word, anum: Word,
                                   syn: bool, ack: bool, rst: bool, fin: bool,
                                   windowSize: Port, options: set<Byte>, payload: seq<Byte>)

  /** `observed` counts nanoseconds since the epoch. */
  datatype CapturedPacket = CapturedPacket(observed: nat, saddr: Address, daddr: Address,
                                           ipid: Port, ttl: Byte, tcp: TcpSegment)

  datatype Method = TcpSynAck | TcpRst

  datatype Request = Request(probeMethod: Method, saddr: Address, daddr: Address, sport: Port, dport: Port,
                             snum: Word, anum: Word, userId: Word, numProbes: nat)

  datatype TargetKey = TargetKey(saddr: Address, isScannerLike: bool)

  /** `packet::get_key` for TCP. */
  function KeyOfPacket(pkt: CapturedPacket): TargetKey {
    TargetKey(pkt.saddr, pkt.ipid == 54321 || pkt.ttl > 200 || pkt.tcp.options == {})
  }

  datatype Endpoint = Endpoint(daddr: Address, dport: Port)

  const NUM_TCP_PROBES := 1
  const NUM_TCP_RST_PROBES := 2
  const WORD_MODULUS := 0x1_0000_0000

  /** The SYN ACK for a SYN: ports and addresses swapped, everything received acknowledged. */
  function SynAckFor(pkt: CapturedPacket, uid: Word): Request {
    Request(TcpSynAck, pkt.daddr, pkt.saddr, pkt.tcp.dport, pkt.tcp.sport,
            0, (pkt.tcp.snum + |pkt.tcp.payload| + 1) % WORD_MODULUS, uid, NUM_TCP_PROBES)
  }

  /** The RST for an ACK, with the sequence number the peer expects next. */
  function RstFor(pkt: CapturedPacket, uid: Word): Request {
    Request(TcpRst, pkt.daddr, pkt.saddr, pkt.tcp.dport, pkt.tcp.sport, pkt.tcp.anum, 0, uid, NUM_TCP_RST_PROBES)
  }
}
