/** What ends the probes of a destination, and what is logged for it, in every run. */
module UdpOutcomes {
  import opened Collections
  import opened Events
  import opened UdpLanes

  // -- single packets and ticks ----------------------------------------------------------------

  /** A UDP packet from where the probe went. */
  predicate Answers(p: Reaction, t: Target, d: Address) {
    p.Udp? && p.saddr == d && p.port == t.dport
  }

  /** A message from there that the port is unreachable. */
  predicate Refuses(p: Reaction, t: Target, d: Address) {
    p.DestUnreachable? && p.saddr == d && p.port == t.dport
  }

  /** A packet ends the probe in progress exactly if it is one of these; any other changes nothing. */
  lemma PacketEndsExactly(l: Lane, d: Address, p: Reaction, now: int)
    ensures var m := React(l, d, p, now);
            if l.active.Some? && Answers(p, l.active.value.target, d) then m.log == l.log + [Line(l.active.value.target, Replied)]
            else if l.active.Some? && Refuses(p, l.active.value.target, d) then m.log == l.log + [Line(l.active.value.target, Unreachable)]
            else m == l
  {
  }

  /** A tick ends a probe exactly if that is older than twenty seconds; one older than six is sent
      again. */
  lemma TickEndsExactly(l: Lane, d: Address, now: int)
    requires Busy(l)
    ensures var m := Step(l, d, Tick(now));
            if l.active.None? then m == l
            else if now - l.active.value.since > 20 then m.log == l.log + [Line(l.active.value.target, NoReply)]
            else m == l.(sent := if now - l.active.value.since > 6 then l.sent + [Probe(l.active.value.target, true)] else l.sent)
  {
  }

  // -- runs ----------------------------------------------------------------------------------------

  /** A message, or one of its packets. */
  predicate At(messages: seq<Message>, j: nat, q: nat) {
    j < |messages| && if messages[j].Packets? then q < |messages[j].packets| else q == 0
  }

  function Before(messages: seq<Message>, d: Address, j: nat, q: nat): Lane
    requires At(messages, j, q)
  {
    var l := LaneOf(messages[..j], d);
    if messages[j].Packets? then ReactAll(l, d, messages[j].packets[..q], messages[j].now) else l
  }

  function After(messages: seq<Message>, d: Address, j: nat, q: nat): Lane
    requires At(messages, j, q)
  {
    var l := LaneOf(messages[..j], d);
    if messages[j].Packets? then ReactAll(l, d, messages[j].packets[..q + 1], messages[j].now) else Step(l, d, messages[j])
  }

  /** Line `i` of the destination is written there. */
  predicate EndsAt(messages: seq<Message>, d: Address, i: nat, j: nat, q: nat) {
    At(messages, j, q) && |Before(messages, d, j, q).log| == i && |After(messages, d, j, q).log| == i + 1
  }

  lemma AfterPacket(messages: seq<Message>, d: Address, j: nat, q: nat)
    requires At(messages, j, q) && messages[j].Packets?
    ensures After(messages, d, j, q) == React(Before(messages, d, j, q), d, messages[j].packets[q], messages[j].now)
  {
    assert messages[j].packets[..q + 1][..q] == messages[j].packets[..q];
  }

  lemma {:induction false} ReactAllGrows(l: Lane, d: Address, packets: seq<Reaction>, now: int)
    ensures l.log <= ReactAll(l, d, packets, now).log
  {
    if packets != [] {
      var n := |packets| - 1;
      ReactAllGrows(l, d, packets[..n], now);
      PacketEndsExactly(ReactAll(l, d, packets[..n], now), d, packets[n], now);
    }
  }

  lemma StepGrows(l: Lane, d: Address, m: Message)
    ensures l.log <= Step(l, d, m).log
  {
    if m.Packets? {
      ReactAllGrows(l, d, m.packets, m.now);
    }
  }

  lemma {:induction false} LogGrows(messages: seq<Message>, d: Address, j: nat)
    requires j <= |messages|
    ensures LaneOf(messages[..j], d).log <= LaneOf(messages, d).log
  {
    if j == |messages| {
      assert messages[..j] == messages;
    } else {
      var n := |messages| - 1;
      LogGrows(messages[..n], d, j);
      assert messages[..n][..j] == messages[..j];
      StepGrows(LaneOf(messages[..n], d), d, messages[n]);
    }
  }

  lemma {:induction false} ReactAllConcat(l: Lane, d: Address, s: seq<Reaction>, t: seq<Reaction>, now: int)
    ensures ReactAll(l, d, s + t, now) == ReactAll(ReactAll(l, d, s, now), d, t, now)
  {
    if t == [] {
      assert s + t == s;
    } else {
      var n := |t| - 1;
      assert (s + t)[..|s + t| - 1] == s + t[..n];
      ReactAllConcat(l, d, s, t[..n], now);
    }
  }

  lemma AfterIsPartOfStep(messages: seq<Message>, d: Address, j: nat, q: nat)
    requires At(messages, j, q)
    ensures After(messages, d, j, q).log <= LaneOf(messages[..j + 1], d).log
  {
    var l := LaneOf(messages[..j], d);
    assert messages[..j + 1][..j] == messages[..j];
    if messages[j].Packets? {
      var ps := messages[j].packets;
      assert ps == ps[..q + 1] + ps[q + 1..];
      ReactAllConcat(l, d, ps[..q + 1], ps[q + 1..], messages[j].now);
      ReactAllGrows(ReactAll(l, d, ps[..q + 1], messages[j].now), d, ps[q + 1..], messages[j].now);
    }
  }

  /** What is written stays written. */
  lemma AfterStays(messages: seq<Message>, d: Address, j: nat, q: nat)
    requires At(messages, j, q)
    ensures After(messages, d, j, q).log <= LaneOf(messages, d).log
  {
    AfterIsPartOfStep(messages, d, j, q);
    LogGrows(messages, d, j + 1);
  }

  /** The line tells what ended the probe: a reply from the port probed, a message that it is
      unreachable, or a tick more than twenty seconds after the start. */
  lemma OutcomeExactly(messages: seq<Message>, d: Address, i: nat, j: nat, q: nat)
    requires EndsAt(messages, d, i, j, q)
    ensures i < |LaneOf(messages, d).log| && Before(messages, d, j, q).active.Some?
    ensures var line, active, m := LaneOf(messages, d).log[i], Before(messages, d, j, q).active.value, messages[j];
            line.target == active.target &&
            (line.outcome == Replied <==> m.Packets? && Answers(m.packets[q], active.target, d)) &&
            (line.outcome == Unreachable <==> m.Packets? && Refuses(m.packets[q], active.target, d)) &&
            (line.outcome == NoReply <==> m.Tick? && m.now - active.since > 20)
  {
    AfterStays(messages, d, j, q);
    assert LaneOf(messages, d).log[i] == After(messages, d, j, q).log[i];
    if messages[j].Packets? {
      AfterPacket(messages, d, j, q);
      PacketEndsExactly(Before(messages, d, j, q), d, messages[j].packets[q], messages[j].now);
    } else if messages[j].Tick? {
      ServedInOrder(messages[..j], d);
      TickEndsExactly(Before(messages, d, j, q), d, messages[j].now);
    }
  }

  lemma {:induction false} PacketThatEnds(l: Lane, d: Address, packets: seq<Reaction>, now: int, i: nat) returns (q: nat)
    requires |l.log| <= i < |ReactAll(l, d, packets, now).log|
    ensures q < |packets| && |ReactAll(l, d, packets[..q], now).log| == i && |ReactAll(l, d, packets[..q + 1], now).log| == i + 1
  {
    var n := |packets| - 1;
    var before := ReactAll(l, d, packets[..n], now);
    PacketEndsExactly(before, d, packets[n], now);
    if i < |before.log| {
      q := PacketThatEnds(l, d, packets[..n], now, i);
      assert packets[..n][..q] == packets[..q] && packets[..n][..q + 1] == packets[..q + 1];
    } else {
      q := n;
      assert packets[..n + 1] == packets;
    }
  }

  lemma SamePlace(messages: seq<Message>, d: Address, i: nat, n: nat, j: nat, q: nat)
    requires n <= |messages| && EndsAt(messages[..n], d, i, j, q)
    ensures EndsAt(messages, d, i, j, q)
  {
    assert messages[..n][..j] == messages[..j];
  }

  /** Every line is written somewhere. */
  lemma {:induction false} EveryLineEnds(messages: seq<Message>, d: Address, i: nat) returns (j: nat, q: nat)
    requires i < |LaneOf(messages, d).log|
    ensures EndsAt(messages, d, i, j, q)
  {
    var n := |messages| - 1;
    var l := LaneOf(messages[..n], d);
    if i < |l.log| {
      j, q := EveryLineEnds(messages[..n], d, i);
      SamePlace(messages, d, i, n, j, q);
    } else if messages[n].Packets? {
      j := n;
      q := PacketThatEnds(l, d, messages[n].packets, messages[n].now, i);
    } else {
      j, q := n, 0;
      StepWritesOne(l, d, messages[n]);
    }
  }

  lemma StepWritesOne(l: Lane, d: Address, m: Message)
    requires !m.Packets?
    ensures |Step(l, d, m).log| <= |l.log| + 1
  {
  }

  /** Nothing else ends a probe: wherever one stops being in progress, its line is written. */
  lemma OnlyLinesEndProbes(messages: seq<Message>, d: Address, j: nat, q: nat)
    requires At(messages, j, q) && Before(messages, d, j, q).active.Some?
    requires After(messages, d, j, q).active != Before(messages, d, j, q).active
    ensures EndsAt(messages, d, |Before(messages, d, j, q).log|, j, q)
  {
    ServedInOrder(messages[..j], d);
    if messages[j].Packets? {
      AfterPacket(messages, d, j, q);
      PacketEndsExactly(Before(messages, d, j, q), d, messages[j].packets[q], messages[j].now);
    } else if messages[j].Tick? {
      TickEndsExactly(Before(messages, d, j, q), d, messages[j].now);
    }
  }

  // -- only once ---------------------------------------------------------------------------------------

  lemma BeforeHolds(messages: seq<Message>, d: Address, j: nat, q: nat, k: nat, p: nat)
    requires At(messages, j, q) && At(messages, k, p) && (j < k || (j == k && q < p))
    ensures After(messages, d, j, q).log <= Before(messages, d, k, p).log
  {
    if j < k {
      AfterIsPartOfStep(messages, d, j, q);
      assert messages[..k][..j + 1] == messages[..j + 1];
      LogGrows(messages[..k], d, j + 1);
      if messages[k].Packets? {
        ReactAllGrows(LaneOf(messages[..k], d), d, messages[k].packets[..p], messages[k].now);
      }
    } else {
      var l, ps := LaneOf(messages[..j], d), messages[j].packets;
      assert ps[..p] == ps[..q + 1] + ps[q + 1..p];
      ReactAllConcat(l, d, ps[..q + 1], ps[q + 1..p], messages[j].now);
      ReactAllGrows(ReactAll(l, d, ps[..q + 1], messages[j].now), d, ps[q + 1..p], messages[j].now);
    }
  }

  /** Each line is written at one place only. */
  lemma EndsOnce(messages: seq<Message>, d: Address, i: nat, j: nat, q: nat, k: nat, p: nat)
    requires EndsAt(messages, d, i, j, q) && EndsAt(messages, d, i, k, p)
    ensures j == k && q == p
  {
    if j < k || (j == k && q < p) {
      BeforeHolds(messages, d, j, q, k, p);
    } else if k < j || (j == k && p < q) {
      BeforeHolds(messages, d, k, p, j, q);
    }
  }
}
