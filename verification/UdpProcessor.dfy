/** The UDP prober: queues per destination, a table of probes in progress, and requests for
    more targets. */
module UdpProcessing {
  import opened Collections
  import opened Events
  import opened UdpLanes

  const BATCH_THRESHOLD := 10

  function LineFor(d: Address): Line -> bool {
    (line: Line) => line.target.daddr == d
  }

  function ProbeFor(d: Address): Probe -> bool {
    (p: Probe) => p.target.daddr == d
  }

  /** Batches that brought at least one target. */
  function Batches(messages: seq<Message>): nat {
    if messages == [] then 0
    else
      var m := messages[|messages| - 1];
      Batches(messages[..|messages| - 1]) + AsNat(m.NewTargets? && m.targets != [])
  }

  lemma MessagesSnoc(messages: seq<Message>, m: Message)
    ensures Batches(messages + [m]) == Batches(messages) + AsNat(m.NewTargets? && m.targets != [])
    ensures forall d :: LaneOf(messages + [m], d) == Step(LaneOf(messages, d), d, m)
  {
    assert (messages + [m])[..|messages|] == messages;
  }

  class UdpProcessor {
    var pending: map<Address, seq<Target>>
    var inProgress: map<Address, Active>
    /** Requests to the prober. */
    var sent: seq<Probe>
    var log: seq<Line>
    var asked: bool
    /** Requests to the source of targets. */
    var requests: nat
    /** Every message so far. */
    ghost var messages: seq<Message>

    ghost function LaneAt(d: Address): Lane
      reads `pending, `inProgress, `sent, `log
    {
      Lane(Get(pending, d), if d in inProgress then Some(inProgress[d]) else None,
           Filter(sent, ProbeFor(d)), Filter(log, LineFor(d)))
    }

    /** Entries are filed under the destination of their target. */
    ghost predicate Own()
      reads `pending, `inProgress
    {
      (forall d :: d in inProgress ==> inProgress[d].target.daddr == d) &&
      (forall d :: d in pending ==> forall i :: 0 <= i < |pending[d]| ==> pending[d][i].daddr == d)
    }

    ghost predicate LanesValid()
      reads `pending, `inProgress, `sent, `log, `messages
    {
      forall d :: LaneAt(d) == LaneOf(messages, d)
    }

    /** At most one request is unanswered, and there is one whenever few probes are in progress. */
    ghost predicate RequestsValid()
      reads `asked, `requests, `inProgress, `messages
    {
      requests <= Batches(messages) + AsNat(asked) && (messages != [] ==> asked || |inProgress| >= BATCH_THRESHOLD)
    }

    ghost predicate Valid()
      reads this
    {
      Own() && LanesValid() && RequestsValid()
    }

    constructor ()
      ensures Valid() && messages == []
    {
      pending, inProgress, sent, log, asked, requests := map[], map[], [], [], false, 0;
      messages := [];
    }

    // -- one destination ------------------------------------------------------------------------

    method NewTarget(t: Target)
      requires Own()
      modifies `pending
      ensures Own() && LaneAt(t.daddr) == old(LaneAt(t.daddr)).(pending := old(LaneAt(t.daddr)).pending + [t])
      ensures forall d :: d != t.daddr ==> LaneAt(d) == old(LaneAt(d))
    {
      pending := pending[t.daddr := Get(pending, t.daddr) + [t]];
    }

    /** Asks the prober for a probe. */
    method Send(t: Target, again: bool)
      requires Own()
      modifies `sent
      ensures forall d :: LaneAt(d) == if d == t.daddr then old(LaneAt(d)).(sent := old(LaneAt(d)).sent + [Probe(t, again)]) else old(LaneAt(d))
    {
      forall d ensures Filter(sent + [Probe(t, again)], ProbeFor(d)) ==
                       if d == t.daddr then Filter(sent, ProbeFor(d)) + [Probe(t, again)] else Filter(sent, ProbeFor(d)) {
        FilterSnoc(sent, Probe(t, again), ProbeFor(d));
      }
      sent := sent + [Probe(t, again)];
    }

    /** The first target of a queue is in progress from now on. */
    method TakeNext(addr: Address, now: int)
      requires Own() && addr !in inProgress && addr in pending && pending[addr] != []
      modifies `pending, `inProgress
      ensures Own() && pending.Keys == old(pending).Keys
      ensures LaneAt(addr) == old(LaneAt(addr)).(active := Some(Active(old(pending)[addr][0], now)), pending := old(pending)[addr][1..])
      ensures forall d :: d != addr ==> LaneAt(d) == old(LaneAt(d))
    {
      var next := pending[addr][0];
      inProgress := inProgress[next.daddr := Active(next, now)];
      pending := pending[addr := pending[addr][1..]];
    }

    /** `start_probe`; looking up an unknown address creates an empty queue. */
    method StartProbe(addr: Address, now: int)
      requires Own() && addr !in inProgress
      modifies `pending, `inProgress, `sent
      ensures Own() && LaneAt(addr) == Start(old(LaneAt(addr)), now)
      ensures forall d :: d != addr ==> LaneAt(d) == old(LaneAt(d))
      ensures pending.Keys == old(pending).Keys + {addr}
    {
      pending := pending[addr := Get(pending, addr)];
      if |pending[addr]| == 0 {
        return;
      }
      Send(pending[addr][0], false);
      TakeNext(addr, now);
    }

    method EndProbe(addr: Address, outcome: Outcome)
      requires Own() && addr in inProgress
      modifies `inProgress, `log
      ensures Own() && addr !in inProgress && LaneAt(addr) == Finish(old(LaneAt(addr)), outcome)
      ensures forall d :: d != addr ==> LaneAt(d) == old(LaneAt(d))
      ensures inProgress == old(inProgress) - {addr}
    {
      var line := Line(inProgress[addr].target, outcome);
      forall d ensures Filter(log + [line], LineFor(d)) == if d == addr then Filter(log, LineFor(d)) + [line] else Filter(log, LineFor(d)) {
        FilterSnoc(log, line, LineFor(d));
      }
      log := log + [line];
      inProgress := inProgress - {addr};
    }

    method HandlePacket(p: Reaction, now: int)
      requires Own()
      modifies `pending, `inProgress, `sent, `log
      ensures Own() && forall d :: LaneAt(d) == React(old(LaneAt(d)), d, p, now)
    {
      if !p.Other? && p.saddr in inProgress {
        var ep := inProgress[p.saddr].target;
        if ep.dport == p.port {
          EndProbe(p.saddr, if p.Udp? then Replied else Unreachable);
          StartProbe(p.saddr, now);
        }
      }
    }

    // -- loops --------------------------------------------------------------------------------------

    method TakeTargets(targets: seq<Target>)
      requires Own()
      modifies `pending
      ensures Own() && forall d :: LaneAt(d) == old(LaneAt(d)).(pending := old(LaneAt(d)).pending + TargetsOf(targets, d))
    {
      for i := 0 to |targets|
        invariant Own()
        invariant forall d :: LaneAt(d) == old(LaneAt(d)).(pending := old(LaneAt(d)).pending + TargetsOf(targets[..i], d))
      {
        assert targets[..i + 1][..i] == targets[..i];
        ghost var t := targets[i];
        Associate(old(LaneAt(t.daddr)).pending, TargetsOf(targets[..i], t.daddr), [t]);
        NewTarget(targets[i]);
        forall d ensures LaneAt(d) == old(LaneAt(d)).(pending := old(LaneAt(d)).pending + TargetsOf(targets[..i + 1], d)) {
          assert TargetsOf(targets[..i], d) + [] == TargetsOf(targets[..i], d);
        }
      }
      assert targets[..|targets|] == targets;
    }

    method TakePackets(packets: seq<Reaction>, now: int)
      requires Own()
      modifies `pending, `inProgress, `sent, `log
      ensures Own() && forall d :: LaneAt(d) == ReactAll(old(LaneAt(d)), d, packets, now)
    {
      for i := 0 to |packets|
        invariant Own() && forall d :: LaneAt(d) == ReactAll(old(LaneAt(d)), d, packets[..i], now)
      {
        assert packets[..i + 1][..i] == packets[..i];
        HandlePacket(packets[i], now);
      }
      assert packets[..|packets|] == packets;
    }

    /** One entry of the table of queues. */
    method StartIdle(addr: Address, now: int)
      requires Own() && addr in pending
      modifies `pending, `inProgress, `sent
      ensures Own() && LaneAt(addr) == Start(old(LaneAt(addr)), now) && pending.Keys == old(pending).Keys
      ensures forall d :: d != addr ==> LaneAt(d) == old(LaneAt(d))
    {
      if addr !in inProgress {
        StartProbe(addr, now);
      }
    }

    /** `start_probes` */
    method StartProbes(now: int)
      requires Own()
      modifies `pending, `inProgress, `sent
      ensures Own() && forall d :: LaneAt(d) == Start(old(LaneAt(d)), now)
    {
      var todo := pending.Keys;
      while todo != {}
        invariant Own() && todo <= old(pending).Keys && pending.Keys == old(pending).Keys
        invariant forall d :: LaneAt(d) == if d in todo || d !in old(pending) then old(LaneAt(d)) else Start(old(LaneAt(d)), now)
      {
        var addr :| addr in todo;
        StartIdle(addr, now);
        todo := todo - {addr};
      }
    }

    /** `retransmit` */
    method Retransmit(addr: Address)
      requires Own()
      modifies `sent
      ensures LaneAt(addr) == if addr !in inProgress then old(LaneAt(addr))
                              else old(LaneAt(addr)).(sent := old(LaneAt(addr)).sent + [Probe(inProgress[addr].target, true)])
      ensures forall d :: d != addr ==> LaneAt(d) == old(LaneAt(d))
    {
      if addr !in inProgress {
        return;
      }
      var ep := inProgress[addr].target;
      Send(ep, true);
    }

    method TakeAndStart(targets: seq<Target>, now: int)
      requires Own()
      modifies `pending, `inProgress, `sent
      ensures Own() && forall d :: LaneAt(d) == Step(old(LaneAt(d)), d, NewTargets(targets, now))
    {
      TakeTargets(targets);
      StartProbes(now);
    }

    /** One entry of the table in the tick handler. */
    method ExpireProbe(addr: Address, now: int)
      requires Own() && addr in inProgress
      modifies `inProgress, `sent, `log
      ensures Own() && LaneAt(addr) == Expire(old(LaneAt(addr)), now)
      ensures forall d :: d != addr ==> LaneAt(d) == old(LaneAt(d))
      ensures inProgress == old(inProgress) || inProgress == old(inProgress) - {addr}
    {
      var diff := now - inProgress[addr].since;
      if diff > TIMEOUT {
        EndProbe(addr, NoReply);
      } else if diff > INTERVAL {
        Retransmit(addr);
      }
    }

    /** The loop over the table in the tick handler. */
    method ExpireProbes(now: int)
      requires Own()
      modifies `inProgress, `sent, `log
      ensures Own() && forall d :: LaneAt(d) == Expire(old(LaneAt(d)), now)
    {
      var todo := inProgress.Keys;
      while todo != {}
        invariant Own() && todo <= inProgress.Keys && inProgress.Keys <= old(inProgress).Keys
        invariant forall d :: LaneAt(d) == if d in todo || d !in old(inProgress) then old(LaneAt(d)) else Expire(old(LaneAt(d)), now)
      {
        var addr :| addr in todo;
        ExpireProbe(addr, now);
        todo := todo - {addr};
      }
    }

    /** `request_more`: at most one request is open, and one is made exactly if few probes are in
        progress. */
    method RequestMore()
      modifies `asked, `requests
      ensures asked == (old(asked) || |inProgress| < 10)
      ensures requests == old(requests) + AsNat(!old(asked) && |inProgress| < 10)
    {
      if !asked && |inProgress| < BATCH_THRESHOLD {
        requests := requests + 1;
        asked := true;
      }
    }

    // -- messages --------------------------------------------------------------------------------------

    /** Notes a message whose effect is in the fields. */
    ghost method Advance(m: Message)
      requires Own() && forall d :: LaneAt(d) == Step(LaneOf(messages, d), d, m)
      requires requests <= Batches(messages) + AsNat(m.NewTargets? && m.targets != []) + AsNat(asked)
      requires asked || |inProgress| >= BATCH_THRESHOLD
      modifies `messages
      ensures Valid() && messages == old(messages) + [m]
    {
      MessagesSnoc(messages, m);
      messages := messages + [m];
    }

    method HandleTargets(targets: seq<Target>, now: int)
      requires Valid()
      modifies this
      ensures Valid() && messages == old(messages) + [NewTargets(targets, now)]
    {
      TakeAndStart(targets, now);
      forall d ensures LaneAt(d) == Step(LaneOf(messages, d), d, NewTargets(targets, now)) {
        assert old(LaneAt(d)) == LaneOf(messages, d);
      }
      if |targets| != 0 {
        asked := false;
      }
      RequestMore();
      Advance(NewTargets(targets, now));
    }

    method HandlePackets(packets: seq<Reaction>, now: int)
      requires Valid()
      modifies this
      ensures Valid() && messages == old(messages) + [Packets(packets, now)]
    {
      TakePackets(packets, now);
      RequestMore();
      forall d ensures LaneAt(d) == Step(LaneOf(messages, d), d, Packets(packets, now)) {
        assert old(LaneAt(d)) == LaneOf(messages, d);
      }
      Advance(Packets(packets, now));
    }

    method HandleTick(now: int)
      requires Valid()
      modifies this
      ensures Valid() && messages == old(messages) + [Tick(now)]
    {
      ExpireProbes(now);
      StartProbes(now);
      RequestMore();
      forall d ensures LaneAt(d) == Step(LaneOf(messages, d), d, Tick(now)) {
        assert old(LaneAt(d)) == LaneOf(messages, d);
      }
      Advance(Tick(now));
    }

    method HandleStart()
      requires Valid()
      modifies this
      ensures Valid() && messages == old(messages) + [StartUp]
    {
      RequestMore();
      forall d ensures LaneAt(d) == Step(LaneOf(messages, d), d, StartUp) {
        assert old(LaneAt(d)) == LaneOf(messages, d);
      }
      Advance(StartUp);
    }
  }
}
