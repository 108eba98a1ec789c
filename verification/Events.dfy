/** The log records `assemble` works on: packets, probe requests, probe
    confirmations, and the events that bundle them. */
module Events {
  import opened Collections

  type Byte = x: nat | x < 0x100
  type Port = x: nat | x < 0x1_0000
  type Word = x: nat | x < 0x1_0000_0000

  datatype Address = Address(b0: Byte, b1: Byte, b2: Byte, b3: Byte)

  datatype Flag = Fin | Syn | Rst | Psh | Ack | Urg | Ece | Cwr | Ns

  datatype Tcp = Tcp(sport: Port, dport: Port, snum: Word, anum: Word, windowSize: Port,
                     flags: seq<Flag>, options: seq<string>, payload: string)

  /** Time stamps are microseconds since the epoch. */
  const MICROS_PER_SECOND := 1_000_000

  /** A TCP packet; other protocols never reach the phase matcher. */
  datatype Packet = Packet(timestamp: nat, saddr: Address, daddr: Address, ipid: Port, ttl: Byte, payload: Tcp)

  datatype ProbeRequest = ProbeRequest(saddr: Address, daddr: Address, sport: Port, dport: Port,
                                       anum: Word, snum: Word, userid: Word, probeMethod: string,
                                       numProbes: nat, payload: string)

  datatype Confirmation = Confirmation(src: Address, dst: Address, sport: Port, dport: Port,
                                       userid: Word, probeMethod: string, timestamp: nat, batchId: int)

  datatype Event = Event(packet: Packet, request: Option<ProbeRequest>,
                         confirmation: Option<Confirmation>, batchId: int)

  /** `get_unix_timestamp`: whole seconds. */
  function UnixTs(timestamp: nat): nat {
    timestamp / MICROS_PER_SECOND
  }

  /** `Packet.key`: source port is left out on purpose. */
  datatype Key = Key(saddr: Address, daddr: Address, dport: Port)

  function KeyOf(e: Event): Key {
    Key(e.packet.saddr, e.packet.daddr, e.packet.payload.dport)
  }

  /** `Packet.tuple` together with the sequence number. */
  datatype Tuple = Tuple(saddr: Address, daddr: Address, sport: Port, dport: Port, snum: Word)

  function TupleOf(e: Event): Tuple {
    var pl := e.packet.payload;
    Tuple(e.packet.saddr, e.packet.daddr, pl.sport, pl.dport, pl.snum)
  }

  // -- Analyzer -------------------------------------------------------------------

  predicate IsRst(p: Packet) { Rst in p.payload.flags }

  predicate IsSyn(p: Packet) { Syn in p.payload.flags && Ack !in p.payload.flags }

  predicate IsAck(p: Packet) { Ack in p.payload.flags && Syn !in p.payload.flags }

  predicate IsIrregularSyn(p: Packet) {
    IsSyn(p) && (p.ipid == 54321 || p.ttl > 200 || |p.payload.options| == 0)
  }
}
