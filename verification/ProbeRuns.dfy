/** A shard and its manager over whole runs: packets, delayed RSTs, the manager's mailbox,
    and replies in any order. */
module ProbeRuns {
  import opened Collections
  import opened Events
  import opened Capture
  import opened Management
  import opened Sharding

  /** A request on its way to the manager. */
  datatype Letter = Letter(req: Request, isIrregular: bool)

  datatype System = System(issued: nat, scheduled: set<Endpoint>, delayed: seq<Request>, mailbox: seq<Letter>, m: Outstanding)

  const START := System(0, {}, [], [], Outstanding({}, map[]))

  datatype Input =
    | Captured(pkt: CapturedPacket)
    | OtherId              // an id for a UDP or ICMP probe, which other managers book
    | RstDue(i: nat)       // some delayed RST comes back to the shard
    | Deliver              // the manager takes its next message
    | Reply(uid: Word)     // scamper reports an outstanding probe

  function EndpointOf(req: Request): Endpoint {
    Endpoint(req.daddr, req.dport)
  }

  function KeyOfLetter(letter: Letter): TargetKey {
    TargetKey(letter.req.daddr, letter.isIrregular)
  }

  function NextUid(s: System, shardId: Byte): Word {
    IssuedId(shardId, s.issued + 1)
  }

  /** The requests among the shard's outputs that go to the manager, and those it sends itself. */
  function Letters(out: seq<Output>): seq<Letter> {
    if out == [] then []
    else
      var last := out[|out| - 1];
      Letters(out[..|out| - 1]) + if last.ToProber? then [Letter(last.req, last.isIrregular)] else []
  }

  function Postponed(out: seq<Output>): seq<Request> {
    if out == [] then []
    else
      var last := out[|out| - 1];
      Postponed(out[..|out| - 1]) + if last.Delayed? then [last.req] else []
  }

  lemma OutputsOfPacket(scheduled: set<Endpoint>, pkt: CapturedPacket, uid: Word)
    ensures var out := Outputs(scheduled, pkt, uid);
            Letters(out) == (if NeedsSynAck(pkt) then [Letter(SynAckFor(pkt, uid), KeyOfPacket(pkt).isScannerLike)] else []) &&
            Postponed(out) == (if !NeedsSynAck(pkt) && Issues(scheduled, pkt) then [RstFor(pkt, uid)] else [])
  {
    if NeedsSynAck(pkt) {
      var req := SynAckFor(pkt, uid);
      PairOfOutputs(ToProber(req, KeyOfPacket(pkt).isScannerLike), Log(pkt, Some(req)));
    } else if Issues(scheduled, pkt) {
      var req := RstFor(pkt, uid);
      PairOfOutputs(Delayed(req), Log(pkt, Some(req)));
    } else if !NeedsRst(pkt) {
      PairOfOutputs(Log(pkt, None), Log(pkt, None));
    }
  }

  lemma PairOfOutputs(a: Output, b: Output)
    ensures Letters([a]) == (if a.ToProber? then [Letter(a.req, a.isIrregular)] else [])
    ensures Postponed([a]) == if a.Delayed? then [a.req] else []
    ensures b.Log? ==> Letters([a, b]) == Letters([a]) && Postponed([a, b]) == Postponed([a])
  {
    assert [a][..0] == [] && [a, b][..1] == [a];
  }

  function Next(s: System, e: Input, shardId: Byte): System
    requires e.RstDue? ==> e.i < |s.delayed|
    requires e.Deliver? ==> s.mailbox != []
  {
    match e
    case Captured(pkt) =>
      var out := Outputs(s.scheduled, pkt, NextUid(s, shardId));
      s.(issued := s.issued + AsNat(Issues(s.scheduled, pkt)),
         scheduled := s.scheduled + (if NeedsRst(pkt) then {SourceEndpoint(pkt)} else {}),
         delayed := s.delayed + Postponed(out), mailbox := s.mailbox + Letters(out))
    case OtherId => s.(issued := s.issued + 1)
    case RstDue(i) =>
      s.(scheduled := s.scheduled - {EndpointOf(s.delayed[i])}, delayed := Delete(s.delayed, i),
         mailbox := s.mailbox + [Letter(s.delayed[i], false)])
    case Deliver =>
      s.(mailbox := s.mailbox[1..], m := Admit(s.m, KeyOfLetter(s.mailbox[0]), s.mailbox[0].req.userId))
    case Reply(uid) => s.(m := Release(s.m, uid))
  }

  // -- ids in use ----------------------------------------------------------------------------------

  function DelayedUse(reqs: seq<Request>, uid: Word): nat {
    if reqs == [] then 0 else DelayedUse(reqs[..|reqs| - 1], uid) + AsNat(reqs[|reqs| - 1].userId == uid)
  }

  function MailboxUse(letters: seq<Letter>, uid: Word): nat {
    if letters == [] then 0 else MailboxUse(letters[..|letters| - 1], uid) + AsNat(letters[|letters| - 1].req.userId == uid)
  }

  /** How many requests carry the id: waiting five seconds, in the mailbox, or in flight. */
  function InUse(s: System, uid: Word): nat {
    DelayedUse(s.delayed, uid) + MailboxUse(s.mailbox, uid) + AsNat(uid in s.m.userids)
  }

  predicate Possible(s: System, e: Input, shardId: Byte) {
    match e
    case Captured(pkt) => Issues(s.scheduled, pkt) ==> InUse(s, NextUid(s, shardId)) == 0
    case OtherId => true
    case RstDue(i) => i < |s.delayed|
    case Deliver => s.mailbox != []
    case Reply(uid) => uid in s.m.userids
  }

  /** Ids are recent: each one in use is among the last 2^24 - 1 issued. */
  predicate Recent(s: System, shardId: Byte) {
    forall uid: Word :: InUse(s, uid) > 0 ==>
      exists k: nat :: s.issued < k + TAG_MODULUS - 1 && k <= s.issued && uid == IssuedId(shardId, k)
  }

  /** If no id outlives 2^24 - 1 later ids, the next id is never in use. */
  lemma RecentIdsAreFresh(s: System, shardId: Byte)
    requires Recent(s, shardId)
    ensures InUse(s, NextUid(s, shardId)) == 0
  {
    var uid := NextUid(s, shardId);
    if InUse(s, uid) > 0 {
      var k: nat :| s.issued < k + TAG_MODULUS - 1 && k <= s.issued && uid == IssuedId(shardId, k);
      IdsRepeatExactly(shardId, k, s.issued + 1);
      assert false;
    }
  }

  // -- invariant ---------------------------------------------------------------------------------------

  function Endpoints(reqs: seq<Request>): seq<Endpoint> {
    seq(|reqs|, i requires 0 <= i < |reqs| => EndpointOf(reqs[i]))
  }

  /** `rst_scheduled` is the set of endpoints with a pending RST, each with exactly one. */
  predicate RstsValid(s: System) {
    NoDuplicates(Endpoints(s.delayed)) && Elements(Endpoints(s.delayed)) == s.scheduled &&
    forall i :: 0 <= i < |s.delayed| ==> s.delayed[i].probeMethod.TcpRst?
  }

  ghost predicate IdsValid(s: System) {
    forall uid :: InUse(s, uid) <= 1
  }

  ghost predicate Invariant(s: System) {
    RstsValid(s) && IdsValid(s) && Consistent(s.m)
  }

  lemma EndpointsSnoc(reqs: seq<Request>, req: Request)
    requires NoDuplicates(Endpoints(reqs)) && EndpointOf(req) !in Elements(Endpoints(reqs))
    ensures NoDuplicates(Endpoints(reqs + [req])) && Elements(Endpoints(reqs + [req])) == Elements(Endpoints(reqs)) + {EndpointOf(req)}
  {
    var eps := Endpoints(reqs);
    assert Endpoints(reqs + [req]) == eps + [EndpointOf(req)];
    ElementsConcat(eps, [EndpointOf(req)]);
    assert [EndpointOf(req)][0] in Elements([EndpointOf(req)]);
    forall i | 0 <= i < |eps| ensures eps[i] != EndpointOf(req) {
      assert eps[i] in Elements(eps);
    }
  }

  lemma EndpointsDelete(reqs: seq<Request>, i: nat)
    requires NoDuplicates(Endpoints(reqs)) && i < |reqs|
    ensures NoDuplicates(Endpoints(Delete(reqs, i)))
    ensures Elements(Endpoints(Delete(reqs, i))) == Elements(Endpoints(reqs)) - {EndpointOf(reqs[i])}
  {
    var eps, left := Endpoints(reqs), Endpoints(Delete(reqs, i));
    assert left == eps[..i] + eps[i + 1..];
    forall ep | ep in Elements(left) ensures ep in Elements(eps) && ep != eps[i] {
      var j :| 0 <= j < |left| && left[j] == ep;
      assert ep == eps[if j < i then j else j + 1];
    }
    forall ep | ep in Elements(eps) && ep != eps[i] ensures ep in Elements(left) {
      var j :| 0 <= j < |eps| && eps[j] == ep;
      assert left[if j < i then j else j - 1] == ep;
    }
  }

  // -- one step ---------------------------------------------------------------------------------------------

  lemma DelayedSnoc(reqs: seq<Request>, req: Request, uid: Word)
    ensures DelayedUse(reqs + [req], uid) == DelayedUse(reqs, uid) + AsNat(req.userId == uid)
  {
    assert (reqs + [req])[..|reqs|] == reqs;
  }

  lemma MailboxSnoc(letters: seq<Letter>, letter: Letter, uid: Word)
    ensures MailboxUse(letters + [letter], uid) == MailboxUse(letters, uid) + AsNat(letter.req.userId == uid)
  {
    assert (letters + [letter])[..|letters|] == letters;
  }

  lemma {:induction false} MailboxFirst(letters: seq<Letter>, uid: Word)
    requires letters != []
    ensures MailboxUse(letters, uid) == MailboxUse(letters[1..], uid) + AsNat(letters[0].req.userId == uid)
  {
    var n := |letters| - 1;
    if n > 0 {
      MailboxFirst(letters[..n], uid);
      assert letters[1..][..n - 1] == letters[..n][1..];
    }
  }

  lemma {:induction false} DelayedDelete(reqs: seq<Request>, i: nat, uid: Word)
    requires i < |reqs|
    ensures DelayedUse(reqs, uid) == DelayedUse(Delete(reqs, i), uid) + AsNat(reqs[i].userId == uid)
  {
    var n := |reqs| - 1;
    if i == n {
      assert Delete(reqs, i) == reqs[..n];
    } else {
      DelayedDelete(reqs[..n], i, uid);
      assert Delete(reqs, i) == Delete(reqs[..n], i) + [reqs[n]];
      DelayedSnoc(Delete(reqs[..n], i), reqs[n], uid);
    }
  }

  lemma UseAfterPacket(s: System, pkt: CapturedPacket, shardId: Byte, uid: Word)
    ensures InUse(Next(s, Captured(pkt), shardId), uid) ==
            InUse(s, uid) + AsNat(Issues(s.scheduled, pkt) && uid == NextUid(s, shardId))
  {
    var next := NextUid(s, shardId);
    OutputsOfPacket(s.scheduled, pkt, next);
    assert s.delayed + [] == s.delayed && s.mailbox + [] == s.mailbox;
    if NeedsSynAck(pkt) {
      MailboxSnoc(s.mailbox, Letter(SynAckFor(pkt, next), KeyOfPacket(pkt).isScannerLike), uid);
    } else if Issues(s.scheduled, pkt) {
      DelayedSnoc(s.delayed, RstFor(pkt, next), uid);
    }
  }

  lemma UseAfterRst(s: System, i: nat, shardId: Byte, uid: Word)
    requires i < |s.delayed|
    ensures InUse(Next(s, RstDue(i), shardId), uid) == InUse(s, uid)
  {
    DelayedDelete(s.delayed, i, uid);
    MailboxSnoc(s.mailbox, Letter(s.delayed[i], false), uid);
  }

  /** Only issuing an id puts one into use: no input adds to the uses of any other id. */
  lemma UseAfter(s: System, e: Input, shardId: Byte, uid: Word)
    requires Possible(s, e, shardId)
    ensures InUse(Next(s, e, shardId), uid) <=
            InUse(s, uid) + AsNat(e.Captured? && Issues(s.scheduled, e.pkt) && uid == NextUid(s, shardId))
  {
    match e
    case Captured(pkt) => UseAfterPacket(s, pkt, shardId, uid);
    case RstDue(i) => UseAfterRst(s, i, shardId, uid);
    case Deliver => MailboxFirst(s.mailbox, uid);
    case _ =>
  }

  lemma RstsStayValid(s: System, e: Input, shardId: Byte)
    requires RstsValid(s) && Possible(s, e, shardId)
    ensures RstsValid(Next(s, e, shardId))
  {
    match e
    case Captured(pkt) =>
      OutputsOfPacket(s.scheduled, pkt, NextUid(s, shardId));
      if NeedsRst(pkt) && SourceEndpoint(pkt) !in s.scheduled {
        EndpointsSnoc(s.delayed, RstFor(pkt, NextUid(s, shardId)));
      } else {
        assert s.delayed + [] == s.delayed;
        assert NeedsRst(pkt) ==> s.scheduled + {SourceEndpoint(pkt)} == s.scheduled;
      }
    case RstDue(i) =>
      EndpointsDelete(s.delayed, i);
      assert forall j :: 0 <= j < |Delete(s.delayed, i)| ==> Delete(s.delayed, i)[j] in s.delayed;
    case _ =>
  }

  /** The manager never sees a request with an id that is outstanding already. */
  lemma BookingStaysConsistent(s: System, e: Input, shardId: Byte)
    requires Invariant(s) && Possible(s, e, shardId)
    ensures Consistent(Next(s, e, shardId).m)
  {
    match e
    case Deliver =>
      var letter := s.mailbox[0];
      MailboxFirst(s.mailbox, letter.req.userId);
      assert InUse(s, letter.req.userId) <= 1;
      AdmitKeepsConsistentExactly(s.m, KeyOfLetter(letter), letter.req.userId);
    case Reply(uid) => ReleaseKnownId(s.m, uid);
    case _ =>
  }

  lemma NextKeepsInvariant(s: System, e: Input, shardId: Byte)
    requires Invariant(s) && Possible(s, e, shardId)
    ensures Invariant(Next(s, e, shardId))
  {
    RstsStayValid(s, e, shardId);
    BookingStaysConsistent(s, e, shardId);
    forall uid ensures InUse(Next(s, e, shardId), uid) <= 1 {
      UseAfter(s, e, shardId, uid);
      assert InUse(s, uid) <= 1;
    }
  }

  // -- runs ------------------------------------------------------------------------------------------------------

  ghost predicate Feasible(inputs: seq<Input>, shardId: Byte)
    decreases |inputs|, 0
  {
    inputs == [] ||
    (var n := |inputs| - 1;
     Feasible(inputs[..n], shardId) && Possible(Run(inputs[..n], shardId), inputs[n], shardId))
  }

  ghost function Run(inputs: seq<Input>, shardId: Byte): (s: System)
    requires Feasible(inputs, shardId)
    ensures Invariant(s)
    decreases |inputs|, 1
  {
    if inputs == [] then START
    else
      var n := |inputs| - 1;
      var s := Run(inputs[..n], shardId);
      NextKeepsInvariant(s, inputs[n], shardId);
      Next(s, inputs[n], shardId)
  }

  /** At most one probe per address and kind of SYN is in flight, and the target set says which. */
  lemma OneProbePerTarget(inputs: seq<Input>, shardId: Byte)
    requires Feasible(inputs, shardId)
    ensures var m := Run(inputs, shardId).m;
            m.userids.Values == m.targets &&
            forall u, v :: u in m.userids && v in m.userids && m.userids[u] == m.userids[v] ==> u == v
  {
    assert Invariant(Run(inputs, shardId));
  }

  /** `rst_scheduled` is exactly the set of endpoints waiting for their RST, and each waits for one. */
  lemma OneRstPerEndpoint(inputs: seq<Input>, shardId: Byte, ep: Endpoint)
    requires Feasible(inputs, shardId)
    ensures var s := Run(inputs, shardId);
            (ep in s.scheduled <==> exists i :: 0 <= i < |s.delayed| && EndpointOf(s.delayed[i]) == ep) &&
            forall i, j :: 0 <= i < j < |s.delayed| ==> EndpointOf(s.delayed[i]) != EndpointOf(s.delayed[j])
  {
    var s := Run(inputs, shardId);
    var eps := Endpoints(s.delayed);
    assert Invariant(s);
    assert forall i :: 0 <= i < |s.delayed| ==> eps[i] == EndpointOf(s.delayed[i]);
  }

  /** As long as no id outlives 2^24 - 1 later ids, every packet can be processed. */
  lemma RecentRunsContinue(inputs: seq<Input>, shardId: Byte, pkt: CapturedPacket)
    requires Feasible(inputs, shardId) && Recent(Run(inputs, shardId), shardId)
    ensures Feasible(inputs + [Captured(pkt)], shardId)
  {
    RecentIdsAreFresh(Run(inputs, shardId), shardId);
    assert (inputs + [Captured(pkt)])[..|inputs|] == inputs;
  }
}
