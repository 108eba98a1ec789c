/** The UDP prober, one destination at a time: targets wait in a queue, one is probed, and
    a log line ends its probe. */
module UdpLanes {
  import opened Collections
  import opened Events

  datatype Target = Target(saddr: Address, daddr: Address, sport: Port, dport: Port, payload: seq<Byte>)

  datatype Active = Active(target: Target, since: int)

  datatype Outcome = Replied | Unreachable | NoReply

  /** A log line; the source prints address, port and protocol of the target. */
  datatype Line = Line(target: Target, outcome: Outcome)

  /** A request to the prober; `again` marks a retransmission. */
  datatype Probe = Probe(target: Target, again: bool)

  /** Everything about one destination. */
  datatype Lane = Lane(pending: seq<Target>, active: Option<Active>, sent: seq<Probe>, log: seq<Line>)

  const EMPTY_LANE := Lane([], None, [], [])

  /** Seconds. */
  const INTERVAL := 6
  const TIMEOUT := 20

  /** A packet from the network; for ICMP the port is the one of the unreachable probe. */
  datatype Reaction = Udp(saddr: Address, port: Port) | DestUnreachable(saddr: Address, port: Port) | Other(saddr: Address)

  datatype Message =
    | NewTargets(targets: seq<Target>, now: int)
    | Packets(packets: seq<Reaction>, now: int)
    | Tick(now: int)
    | StartUp

  // -- steps ---------------------------------------------------------------------------------

  /** `start_probe`, if nothing is in progress. */
  function Start(l: Lane, now: int): Lane {
    if l.active.Some? || l.pending == [] then l
    else Lane(l.pending[1..], Some(Active(l.pending[0], now)), l.sent + [Probe(l.pending[0], false)], l.log)
  }

  /** The probe in progress ends with a log line. */
  function Finish(l: Lane, outcome: Outcome): Lane {
    if l.active.None? then l else l.(active := None, log := l.log + [Line(l.active.value.target, outcome)])
  }

  function TargetsOf(targets: seq<Target>, d: Address): seq<Target> {
    if targets == [] then []
    else
      var last := targets[|targets| - 1];
      TargetsOf(targets[..|targets| - 1], d) + if last.daddr == d then [last] else []
  }

  /** A reply counts if it comes from the port that was probed, or says so. */
  function React(l: Lane, d: Address, p: Reaction, now: int): Lane {
    if p.saddr != d || p.Other? || l.active.None? || l.active.value.target.dport != p.port then l
    else Start(Finish(l, if p.Udp? then Replied else Unreachable), now)
  }

  function ReactAll(l: Lane, d: Address, packets: seq<Reaction>, now: int): Lane {
    if packets == [] then l
    else React(ReactAll(l, d, packets[..|packets| - 1], now), d, packets[|packets| - 1], now)
  }

  /** A probe in progress ends after the timeout; until then it is sent again in every tick past
      the interval. */
  function Expire(l: Lane, now: int): Lane {
    if l.active.None? then l
    else if now - l.active.value.since > TIMEOUT then Finish(l, NoReply)
    else if now - l.active.value.since > INTERVAL then l.(sent := l.sent + [Probe(l.active.value.target, true)])
    else l
  }

  function Step(l: Lane, d: Address, m: Message): Lane {
    match m
    case NewTargets(targets, now) => Start(l.(pending := l.pending + TargetsOf(targets, d)), now)
    case Packets(packets, now) => ReactAll(l, d, packets, now)
    case Tick(now) => Start(Expire(l, now), now)
    case StartUp => l
  }

  function LaneOf(messages: seq<Message>, d: Address): Lane {
    if messages == [] then EMPTY_LANE
    else Step(LaneOf(messages[..|messages| - 1], d), d, messages[|messages| - 1])
  }

  // -- every run --------------------------------------------------------------------------------------

  function ActiveTarget(l: Lane): seq<Target> {
    if l.active.Some? then [l.active.value.target] else []
  }

  function LoggedTargets(log: seq<Line>): seq<Target> {
    if log == [] then [] else LoggedTargets(log[..|log| - 1]) + [log[|log| - 1].target]
  }

  /** Targets in the order they were served, the one being probed, and those still waiting. */
  function Served(l: Lane): seq<Target> {
    LoggedTargets(l.log) + ActiveTarget(l) + l.pending
  }

  /** The targets received for `d`, in order. */
  function Received(messages: seq<Message>, d: Address): seq<Target> {
    if messages == [] then []
    else
      var m := messages[|messages| - 1];
      Received(messages[..|messages| - 1], d) + if m.NewTargets? then TargetsOf(m.targets, d) else []
  }

  predicate Busy(l: Lane) {
    l.pending != [] ==> l.active.Some?
  }

  lemma StartServes(l: Lane, now: int)
    ensures Served(Start(l, now)) == Served(l) && Busy(Start(l, now))
  {
  }

  lemma FinishServes(l: Lane, outcome: Outcome)
    ensures Served(Finish(l, outcome)) == Served(l)
  {
    if l.active.Some? {
      var line := Line(l.active.value.target, outcome);
      assert (l.log + [line])[..|l.log|] == l.log;
      assert LoggedTargets(l.log) + [line.target] + [] == LoggedTargets(l.log) + [line.target];
    }
  }

  lemma ExpireServes(l: Lane, now: int)
    ensures Served(Expire(l, now)) == Served(l)
  {
    FinishServes(l, NoReply);
  }

  lemma {:induction false} ReactAllServes(l: Lane, d: Address, packets: seq<Reaction>, now: int)
    requires Busy(l)
    ensures Served(ReactAll(l, d, packets, now)) == Served(l) && Busy(ReactAll(l, d, packets, now))
  {
    if packets != [] {
      var p := packets[|packets| - 1];
      var before := ReactAll(l, d, packets[..|packets| - 1], now);
      ReactAllServes(l, d, packets[..|packets| - 1], now);
      var outcome := if p.Udp? then Replied else Unreachable;
      FinishServes(before, outcome);
      StartServes(Finish(before, outcome), now);
    }
  }

  lemma {:induction false} TargetsAreOf(targets: seq<Target>, d: Address)
    ensures forall i :: 0 <= i < |TargetsOf(targets, d)| ==> TargetsOf(targets, d)[i].daddr == d
  {
    if targets != [] {
      TargetsAreOf(targets[..|targets| - 1], d);
    }
  }

  /** Conservation and FIFO: the targets received for a destination are those logged, then the one
      in progress, then those pending, in exactly this order; and between messages a
      destination with pending targets has one in progress. */
  lemma {:induction false} ServedInOrder(messages: seq<Message>, d: Address)
    ensures Served(LaneOf(messages, d)) == Received(messages, d) && Busy(LaneOf(messages, d))
  {
    if messages != [] {
      var n := |messages| - 1;
      var l := LaneOf(messages[..n], d);
      ServedInOrder(messages[..n], d);
      match messages[n]
      case NewTargets(targets, now) =>
        Associate(LoggedTargets(l.log) + ActiveTarget(l), l.pending, TargetsOf(targets, d));
        StartServes(l.(pending := l.pending + TargetsOf(targets, d)), now);
      case Packets(packets, now) => ReactAllServes(l, d, packets, now);
      case Tick(now) =>
        ExpireServes(l, now);
        StartServes(Expire(l, now), now);
      case StartUp =>
    }
  }

  /** Hence as many targets were received as are pending, in progress, and logged. */
  lemma NothingIsLost(messages: seq<Message>, d: Address)
    ensures var l := LaneOf(messages, d);
            |Received(messages, d)| == |l.pending| + (if l.active.Some? then 1 else 0) + |l.log|
  {
    ServedInOrder(messages, d);
    LoggedCount(LaneOf(messages, d).log);
  }

  lemma {:induction false} LoggedCount(log: seq<Line>)
    ensures |LoggedTargets(log)| == |log|
  {
    if log != [] {
      LoggedCount(log[..|log| - 1]);
    }
  }

  lemma {:induction false} ReceivedAreOf(messages: seq<Message>, d: Address)
    ensures forall i :: 0 <= i < |Received(messages, d)| ==> Received(messages, d)[i].daddr == d
  {
    if messages != [] {
      ReceivedAreOf(messages[..|messages| - 1], d);
      var m := messages[|messages| - 1];
      if m.NewTargets? {
        TargetsAreOf(m.targets, d);
      }
    }
  }

  /** The target in progress for `d` has destination `d`. */
  lemma ActiveIsOf(messages: seq<Message>, d: Address)
    ensures var l := LaneOf(messages, d);
            (l.active.Some? ==> l.active.value.target.daddr == d) &&
            forall i :: 0 <= i < |l.pending| ==> l.pending[i].daddr == d
  {
    var l := LaneOf(messages, d);
    ServedInOrder(messages, d);
    ReceivedAreOf(messages, d);
    var n := |LoggedTargets(l.log)|;
    if l.active.Some? {
      assert Served(l)[n] == l.active.value.target;
    }
    forall i | 0 <= i < |l.pending| ensures l.pending[i].daddr == d {
      assert Served(l)[n + |ActiveTarget(l)| + i] == l.pending[i];
    }
  }

  /** After a tick no probe is older than the timeout. */
  lemma TickEndsOldProbes(messages: seq<Message>, d: Address, now: int)
    ensures var l := LaneOf(messages + [Tick(now)], d);
            l.active.Some? ==> now - l.active.value.since <= TIMEOUT
  {
    assert (messages + [Tick(now)])[..|messages|] == messages;
  }

  /** The clock as a message shows it. */
  predicate NotBefore(m: Message, time: int) {
    !m.StartUp? ==> m.now >= time
  }

  /** A probe in progress was started no earlier than `time`. */
  predicate StartedBy(l: Lane, time: int) {
    l.active.Some? ==> l.active.value.since >= time
  }

  lemma {:induction false} ReactAllStartedBy(l: Lane, d: Address, packets: seq<Reaction>, now: int, time: int)
    requires StartedBy(l, time) && now >= time
    ensures StartedBy(ReactAll(l, d, packets, now), time)
  {
    if packets != [] {
      ReactAllStartedBy(l, d, packets[..|packets| - 1], now, time);
    }
  }

  /** Once a tick has come, no probe in progress is more than the timeout older than that tick,
      however the run goes on, as long as the clock does not go back behind it. */
  lemma {:induction false} TicksBoundAge(messages: seq<Message>, now: int, more: seq<Message>, d: Address)
    requires forall i :: 0 <= i < |more| ==> NotBefore(more[i], now)
    ensures StartedBy(LaneOf(messages + [Tick(now)] + more, d), now - TIMEOUT)
  {
    var all := messages + [Tick(now)] + more;
    if more == [] {
      assert all == messages + [Tick(now)];
      TickEndsOldProbes(messages, d, now);
    } else {
      var n := |more| - 1;
      assert all[..|all| - 1] == messages + [Tick(now)] + more[..n] && all[|all| - 1] == more[n];
      TicksBoundAge(messages, now, more[..n], d);
      var l := LaneOf(all[..|all| - 1], d);
      assert NotBefore(more[n], now);
      match more[n]
      case Packets(packets, later) => ReactAllStartedBy(l, d, packets, later, now - TIMEOUT);
      case _ =>
    }
  }

  // -- what is sent ------------------------------------------------------------------------------------

  /** Targets of the probes that are not retransmissions. */
  function FirstSends(sent: seq<Probe>): seq<Target> {
    if sent == [] then []
    else
      var last := sent[|sent| - 1];
      FirstSends(sent[..|sent| - 1]) + if last.again then [] else [last.target]
  }

  /** A retransmission repeats the probe before it. */
  predicate RepeatsOnly(sent: seq<Probe>) {
    forall i :: 0 <= i < |sent| && sent[i].again ==> i > 0 && sent[i - 1].target == sent[i].target
  }

  /** Every target logged or in progress was sent to once, in order, not counting
      retransmissions, and the last probe is the one in progress. */
  predicate SentOk(l: Lane) {
    FirstSends(l.sent) == LoggedTargets(l.log) + ActiveTarget(l) && RepeatsOnly(l.sent) &&
    (l.active.Some? ==> l.sent != [] && l.sent[|l.sent| - 1].target == l.active.value.target)
  }

  lemma FirstSendsSnoc(sent: seq<Probe>, p: Probe)
    ensures FirstSends(sent + [p]) == FirstSends(sent) + if p.again then [] else [p.target]
  {
    assert (sent + [p])[..|sent|] == sent;
  }

  lemma StartSends(l: Lane, now: int)
    requires SentOk(l)
    ensures SentOk(Start(l, now))
  {
    if l.active.None? && l.pending != [] {
      FirstSendsSnoc(l.sent, Probe(l.pending[0], false));
      assert LoggedTargets(l.log) + [] == LoggedTargets(l.log);
    }
  }

  lemma FinishSends(l: Lane, outcome: Outcome)
    requires SentOk(l)
    ensures SentOk(Finish(l, outcome))
  {
    if l.active.Some? {
      var line := Line(l.active.value.target, outcome);
      assert (l.log + [line])[..|l.log|] == l.log;
      assert LoggedTargets(l.log + [line]) + [] == LoggedTargets(l.log) + [line.target];
    }
  }

  lemma ExpireSends(l: Lane, now: int)
    requires SentOk(l)
    ensures SentOk(Expire(l, now))
  {
    if l.active.Some? {
      if now - l.active.value.since > TIMEOUT {
        FinishSends(l, NoReply);
      } else {
        RetransmitSends(l, Probe(l.active.value.target, true));
      }
    }
  }

  lemma RetransmitSends(l: Lane, p: Probe)
    requires SentOk(l) && l.active.Some? && p == Probe(l.active.value.target, true)
    ensures SentOk(l.(sent := l.sent + [p]))
  {
    FirstSendsSnoc(l.sent, p);
    assert FirstSends(l.sent) + [] == FirstSends(l.sent);
    RepeatsMore(l.sent, p);
  }

  lemma RepeatsMore(sent: seq<Probe>, p: Probe)
    requires RepeatsOnly(sent) && sent != [] && sent[|sent| - 1].target == p.target
    ensures RepeatsOnly(sent + [p])
  {
  }

  lemma {:induction false} ReactAllSends(l: Lane, d: Address, packets: seq<Reaction>, now: int)
    requires SentOk(l)
    ensures SentOk(ReactAll(l, d, packets, now))
  {
    if packets != [] {
      var p := packets[|packets| - 1];
      var before := ReactAll(l, d, packets[..|packets| - 1], now);
      ReactAllSends(l, d, packets[..|packets| - 1], now);
      var outcome := if p.Udp? then Replied else Unreachable;
      FinishSends(before, outcome);
      StartSends(Finish(before, outcome), now);
    }
  }

  /** In every run the prober is asked for each target served once, in order, and for
      retransmissions of the probe in progress besides. */
  lemma {:induction false} SentInOrder(messages: seq<Message>, d: Address)
    ensures SentOk(LaneOf(messages, d))
  {
    if messages != [] {
      var n := |messages| - 1;
      var l := LaneOf(messages[..n], d);
      SentInOrder(messages[..n], d);
      match messages[n]
      case NewTargets(targets, now) => StartSends(l.(pending := l.pending + TargetsOf(targets, d)), now);
      case Packets(packets, now) => ReactAllSends(l, d, packets, now);
      case Tick(now) =>
        ExpireSends(l, now);
        StartSends(Expire(l, now), now);
      case StartUp =>
    }
  }
}
