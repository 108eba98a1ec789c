/** A cache shard: it answers SYNs with SYN ACKs and ACKs with delayed RSTs, and its
    probes are booked by a manager. */
module Sharding {
  import opened Collections
  import opened Events
  import opened Capture
  import opened Management

  // -- user ids -----------------------------------------------------------------------------

  const TAG_MODULUS := 0x100_0000

  /** The `k`-th id a shard issues: its own byte above a 24 bit counter. */
  function IssuedId(shardId: Byte, k: nat): Word {
    shardId * TAG_MODULUS + k % TAG_MODULUS
  }

  /** Ids repeat exactly every 2^24 ids. */
  lemma IdsRepeatExactly(shardId: Byte, j: nat, k: nat)
    requires j <= k
    ensures IssuedId(shardId, j) == IssuedId(shardId, k) <==> (k - j) % TAG_MODULUS == 0
  {
  }

  /** The shard in the upper byte, the number of the id in the lower three. */
  lemma IdIs(shardId: Byte, k: nat)
    ensures IssuedId(shardId, k) / 0x100_0000 == shardId && IssuedId(shardId, k) % 0x100_0000 == k % 0x100_0000
  {
  }

  // -- packets ----------------------------------------------------------------------------------

  /** What the shard sends on: a probe for the prober, a RST to itself in five seconds, a log row. */
  datatype Output =
    | ToProber(req: Request, isIrregular: bool)
    | Delayed(req: Request)
    | Log(pkt: CapturedPacket, reaction: Option<Request>)

  predicate NeedsSynAck(pkt: CapturedPacket) {
    pkt.tcp.syn && !pkt.tcp.ack && !pkt.tcp.rst
  }

  predicate NeedsRst(pkt: CapturedPacket) {
    !NeedsSynAck(pkt) && !pkt.tcp.syn && pkt.tcp.ack
  }

  function SourceEndpoint(pkt: CapturedPacket): Endpoint {
    Endpoint(pkt.saddr, pkt.tcp.sport)
  }

  /** The packet uses up a user id. */
  predicate Issues(scheduled: set<Endpoint>, pkt: CapturedPacket) {
    NeedsSynAck(pkt) || (NeedsRst(pkt) && SourceEndpoint(pkt) !in scheduled)
  }

  /** The TCP part of `handle_packet`. */
  function Outputs(scheduled: set<Endpoint>, pkt: CapturedPacket, uid: Word): seq<Output> {
    if NeedsSynAck(pkt) then
      [ToProber(SynAckFor(pkt, uid), KeyOfPacket(pkt).isScannerLike), Log(pkt, Some(SynAckFor(pkt, uid)))]
    else if NeedsRst(pkt) then
      if SourceEndpoint(pkt) in scheduled then [] else [Delayed(RstFor(pkt, uid)), Log(pkt, Some(RstFor(pkt, uid)))]
    else [Log(pkt, None)]
  }

  class Shard {
    const shardId: Byte
    var tagCnt: nat
    var rstScheduled: set<Endpoint>
    ghost var issued: nat

    ghost predicate Valid()
      reads `tagCnt, `issued
    {
      tagCnt == issued % TAG_MODULUS
    }

    constructor (id: Byte)
      ensures Valid() && shardId == id && issued == 0 && rstScheduled == {}
    {
      shardId, tagCnt, rstScheduled, issued := id, 0, {}, 0;
    }

    method NextId() returns (uid: Word)
      requires Valid()
      modifies `tagCnt, `issued
      ensures Valid() && issued == old(issued) + 1 && uid == IssuedId(shardId, issued)
    {
      tagCnt := (tagCnt + 1) % TAG_MODULUS;
      issued := issued + 1;
      uid := shardId * TAG_MODULUS + tagCnt;
    }

    /** `handle_packet` for a TCP packet, with TCP probing enabled. */
    method HandleTcp(pkt: CapturedPacket) returns (out: seq<Output>)
      requires Valid()
      modifies `tagCnt, `issued, `rstScheduled
      ensures Valid() && issued == old(issued) + if Issues(old(rstScheduled), pkt) then 1 else 0
      ensures out == Outputs(old(rstScheduled), pkt, IssuedId(shardId, old(issued) + 1))
      ensures rstScheduled == old(rstScheduled) + if NeedsRst(pkt) then {SourceEndpoint(pkt)} else {}
    {
      var key := KeyOfPacket(pkt);
      var proto := pkt.tcp;
      if proto.syn && !proto.ack && !proto.rst {
        var uid := NextId();
        var req := SynAckFor(pkt, uid);
        out := [ToProber(req, key.isScannerLike), Log(pkt, Some(req))];
      } else if !proto.syn && proto.ack {
        var ep := SourceEndpoint(pkt);
        if ep in rstScheduled {
          return [];
        }
        rstScheduled := rstScheduled + {ep};
        var uid := NextId();
        var req := RstFor(pkt, uid);
        out := [Delayed(req), Log(pkt, Some(req))];
      } else {
        // A FIN and everything else is only logged.
        out := [Log(pkt, None)];
      }
    }

    /** The handler of delayed requests; `forwarded` goes to the prober. */
    method HandleDelayed(req: Request) returns (forwarded: Option<Request>)
      modifies `rstScheduled
      ensures forwarded == if req.probeMethod.TcpRst? then Some(req) else None
      ensures rstScheduled == if req.probeMethod.TcpRst? then old(rstScheduled) - {Endpoint(req.daddr, req.dport)}
                              else old(rstScheduled)
    {
      forwarded := None;
      if req.probeMethod == TcpRst {
        rstScheduled := rstScheduled - {Endpoint(req.daddr, req.dport)};
        forwarded := Some(req);
      }
    }
  }
}
