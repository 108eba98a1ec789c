/** A run of the assembly loop that writes the two halves of a handshake apart, as if neither had
    been answered. */
module LostHandshake {
  import opened Collections
  import opened Events
  import opened Phases
  import opened PhaseSteps
  import opened PhaseRuns
  import opened PhaseCheckpoints
  import opened PhaseMatching
  import opened WrittenFiles
  import opened ConfirmationMatching
  import opened EventMatching
  import opened AssemblyRuns
  import C = Confirmations
  import R = ConfirmationRuns

  // -- the logs ------------------------------------------------------------------------------------

  const SCANNER := Address(10, 0, 0, 1)
  const TELESCOPE := Address(192, 0, 2, 1)
  const WEB := Key(SCANNER, TELESCOPE, 80)

  /** A SYN at `second` and the probe made for it; `snum` also serves as user id. */
  function Syn(second: nat, snum: Word, options: seq<string>): Event
    requires snum < 1000
  {
    Event(Packet(second * MICROS_PER_SECOND, SCANNER, TELESCOPE, 1, 64, Tcp(4321, 80, snum, 0, 1024, [Flag.Syn], options, "")),
          Some(ProbeRequest(TELESCOPE, SCANNER, 80, 4321, snum + 1, 0, snum, "tcp-synack", 1, "")), None, 0)
  }

  /** Scamper's confirmation of that probe. */
  function ConfirmationOf(e: Event): Confirmation
    requires e.request.Some?
  {
    var req := e.request.value;
    Confirmation(req.saddr, req.daddr, req.sport, req.dport, req.userid, req.probeMethod, e.packet.timestamp, e.batchId)
  }

  function Confirmed(e: Event): Event
    requires e.request.Some?
  {
    e.(confirmation := Some(ConfirmationOf(e)))
  }

  const REGULAR := Syn(101, 1, ["mss"])
  const LATE_REGULAR := Syn(1001, 2, ["mss"])
  const IRREGULAR := Syn(100, 3, [])
  const LATE_IRREGULAR := Syn(1000, 4, [])

  /** A packet of the next hour that is not answered. */
  const OTHER := Event(Packet(5400 * MICROS_PER_SECOND, SCANNER, TELESCOPE, 1, 64, Tcp(4321, 443, 5, 0, 1024, [Fin], [], "")), None, None, 1)

  /** Two handshakes, and the confirmations of the regular SYNs; those of the irregular ones come
      only then. */
  const FIRST := Offer([ConfirmationOf(REGULAR), ConfirmationOf(LATE_REGULAR)],
                       [IRREGULAR, REGULAR, LATE_IRREGULAR, LATE_REGULAR])
  const SECOND := Offer([ConfirmationOf(IRREGULAR), ConfirmationOf(LATE_IRREGULAR)], [OTHER])

  // -- what the confirmation matcher returns -------------------------------------------------------

  const PROBE_TIMEOUT := 600 * MICROS_PER_SECOND

  lemma MatchFound(m: C.Matching, e: Event)
    requires e.request.Some? && var u := e.request.value.userid; u in m.cache && m.cache[u] == [ConfirmationOf(e)]
    ensures C.MatchOne(m, e, PROBE_TIMEOUT) ==
            C.Matching(m.cache - {e.request.value.userid}, m.results + [Confirmed(e)], m.unmatched)
  {
    assert C.Fitting(e, PROBE_TIMEOUT)(ConfirmationOf(e));
  }

  lemma MatchMissing(m: C.Matching, e: Event)
    requires e.request.Some? && e.request.value.userid !in m.cache
    ensures C.MatchOne(m, e, PROBE_TIMEOUT) == C.Matching(m.cache, m.results, m.unmatched + [e])
  {
  }

  /** Two events that were probed, under different ids. */
  predicate TwoProbes(e: Event, f: Event) {
    e.request.Some? && f.request.Some? && e.request.value.userid != f.request.value.userid
  }

  function CacheOf(e: Event, f: Event): C.Cache
    requires TwoProbes(e, f)
  {
    map[e.request.value.userid := [ConfirmationOf(e)], f.request.value.userid := [ConfirmationOf(f)]]
  }

  lemma LoadSnoc(cache: C.Cache, cons: seq<Confirmation>, con: Confirmation)
    requires con.userid !in R.Load(cache, cons)
    ensures R.Load(cache, cons + [con]) == R.Load(cache, cons)[con.userid := [con]]
  {
    assert (cons + [con])[..|cons|] == cons && [] + [con] == [con];
  }

  lemma LoadTwo(e: Event, f: Event)
    requires TwoProbes(e, f)
    ensures R.Load(map[], [ConfirmationOf(e), ConfirmationOf(f)]) == CacheOf(e, f)
  {
    assert [ConfirmationOf(e), ConfirmationOf(f)] == [] + [ConfirmationOf(e)] + [ConfirmationOf(f)];
    LoadSnoc(map[], [], ConfirmationOf(e));
    LoadSnoc(map[], [] + [ConfirmationOf(e)], ConfirmationOf(f));
  }

  lemma MatchAllSnoc(cache: C.Cache, events: seq<Event>, e: Event)
    ensures C.MatchAll(cache, events + [e], PROBE_TIMEOUT) == C.MatchOne(C.MatchAll(cache, events, PROBE_TIMEOUT), e, PROBE_TIMEOUT)
  {
    assert (events + [e])[..|events|] == events;
  }

  /** An irregular SYN without confirmation yet, and a regular one with. */
  lemma OneOfTwo(cache: C.Cache, events: seq<Event>, m: C.Matching, i: Event, r: Event)
    requires C.MatchAll(cache, events, PROBE_TIMEOUT) == m && i.request.Some? && r.request.Some?
    requires i.request.value.userid !in m.cache
    requires r.request.value.userid in m.cache && m.cache[r.request.value.userid] == [ConfirmationOf(r)]
    ensures C.MatchAll(cache, events + [i] + [r], PROBE_TIMEOUT) ==
            C.Matching(m.cache - {r.request.value.userid}, m.results + [Confirmed(r)], m.unmatched + [i])
  {
    MatchAllSnoc(cache, events, i);
    MatchMissing(m, i);
    MatchAllSnoc(cache, events + [i], r);
    MatchFound(m.(unmatched := m.unmatched + [i]), r);
  }

  lemma FirstPass(i: Event, r: Event, j: Event, s: Event)
    requires TwoProbes(r, s) && TwoProbes(i, j)
    requires i.request.value.userid !in CacheOf(r, s) && j.request.value.userid !in CacheOf(r, s)
    ensures C.MatchAll(CacheOf(r, s), [i, r, j, s], PROBE_TIMEOUT) == C.Matching(map[], [Confirmed(r), Confirmed(s)], [i, j])
  {
    var cache := CacheOf(r, s);
    var m := C.Matching(cache - {r.request.value.userid}, [] + [Confirmed(r)], [] + [i]);
    OneOfTwo(cache, [], C.Matching(cache, [], []), i, r);
    OneOfTwo(cache, [] + [i] + [r], m, j, s);
    assert [i, r, j, s] == [] + [i] + [r] + [j] + [s];
    assert m.cache - {s.request.value.userid} == map[];
  }

  lemma SecondPass(i: Event, j: Event, o: Event)
    requires TwoProbes(i, j) && o.request.None?
    ensures C.MatchAll(CacheOf(i, j), [i, j, o], PROBE_TIMEOUT) == C.Matching(map[], [Confirmed(i), Confirmed(j), o], [])
  {
    var cache := CacheOf(i, j);
    assert [i, j, o] == [] + [i] + [j] + [o];
    MatchAllSnoc(cache, [], i);
    MatchFound(C.Matching(cache, [], []), i);
    MatchAllSnoc(cache, [] + [i], j);
    var n := C.Matching(cache - {i.request.value.userid}, [] + [Confirmed(i)], []);
    MatchFound(n, j);
    MatchAllSnoc(cache, [] + [i] + [j], o);
    assert cache - {i.request.value.userid} - {j.request.value.userid} == map[];
  }

  // -- what the phase matcher is handed ---------------------------------------------------------------

  function RegularHalf(): seq<Event> { [Confirmed(REGULAR), Confirmed(LATE_REGULAR)] }

  function IrregularHalf(): seq<Event> { [Confirmed(IRREGULAR), Confirmed(LATE_IRREGULAR), OTHER] }

  /** First all regular SYNs, then the irregular ones. */
  function FourSyns(): seq<Op> {
    [] + [AddEvent(Confirmed(REGULAR))] + [AddEvent(Confirmed(LATE_REGULAR))]
       + [AddEvent(Confirmed(IRREGULAR))] + [AddEvent(Confirmed(LATE_IRREGULAR))]
  }

  function BothHandshakes(): seq<Op> {
    FourSyns() + [AddEvent(OTHER)]
  }

  lemma HandedInTwoRounds()
    ensures RoundCalls(RegularHalf(), DumpTs(0, 0), 0) + RoundCalls(IrregularHalf(), DumpTs(0, 0), 0) ==
            BothHandshakes() + Checkpoint(0)
    ensures HandedCount(RegularHalf(), DumpTs(0, 0)) == 2 && HandedCount(IrregularHalf(), DumpTs(0, 0)) == 3
  {
    var r, i := RegularHalf(), IrregularHalf();
    FirstUnique(r, Reaches(DumpTs(0, 0)), 2);
    FirstUnique(i, Reaches(DumpTs(0, 0)), 2);
    assert r[..2] == [] + [r[0]] + [r[1]] && i[..3] == [] + [i[0]] + [i[1]] + [i[2]];
    AddsSnoc([], r[0]);
    AddsSnoc([] + [r[0]], r[1]);
    AddsSnoc([], i[0]);
    AddsSnoc([] + [i[0]], i[1]);
    AddsSnoc([] + [i[0]] + [i[1]], i[2]);
  }

  // -- what is left at the checkpoint ---------------------------------------------------------------------

  /** Packets with sequence numbers never seen before are not retransmits. */
  predicate SnumsBelow(ops: seq<Op>, n: nat) {
    forall i :: 0 <= i < |ops| && ops[i].AddEvent? ==> ops[i].e.packet.payload.snum < n
  }

  lemma {:induction false} FreshIsNotSeen(ops: seq<Op>, e: Event, b: int)
    requires SnumsBelow(ops, e.packet.payload.snum)
    ensures TupleOf(e) !in Seen(ops, b)
  {
    if ops != [] {
      FreshIsNotSeen(ops[..|ops| - 1], e, b);
    }
  }

  lemma AddFresh(ops: seq<Op>, e: Event, timeout: int)
    requires SnumsBelow(ops, e.packet.payload.snum) && !IsRst(e.packet)
    ensures CellOf(ops + [AddEvent(e)], WEB, timeout) ==
            if KeyOf(e) == WEB then Add(CellOf(ops, WEB, timeout), e, timeout) else CellOf(ops, WEB, timeout)
    ensures SnumsBelow(ops + [AddEvent(e)], e.packet.payload.snum + 1)
  {
    CellOfSnoc(ops, AddEvent(e), WEB, timeout);
    FreshIsNotSeen(ops, e, e.batchId);
    FreshIsNotSeen(ops, e, e.batchId - 1);
  }

  function Waiting(regular: seq<Event>, irregular: seq<Event>): Cell {
    EMPTY_CELL.(regularSyns := regular, irregularSyns := irregular)
  }

  /** While regular SYNs come first, SYNs only wait. */
  lemma SynWaits(ops: seq<Op>, e: Event, regular: seq<Event>, irregular: seq<Event>, timeout: int)
    requires CellOf(ops, WEB, timeout) == Waiting(regular, irregular) && SnumsBelow(ops, e.packet.payload.snum)
    requires !IsRst(e.packet) && IsSyn(e.packet) && KeyOf(e) == WEB && (IsIrregularSyn(e.packet) || irregular == [])
    ensures CellOf(ops + [AddEvent(e)], WEB, timeout) ==
            if IsIrregularSyn(e.packet) then Waiting(regular, irregular + [e]) else Waiting(regular + [e], irregular)
    ensures SnumsBelow(ops + [AddEvent(e)], e.packet.payload.snum + 1)
  {
    AddFresh(ops, e, timeout);
  }

  const WAITING := Waiting([Confirmed(REGULAR), Confirmed(LATE_REGULAR)], [Confirmed(IRREGULAR), Confirmed(LATE_IRREGULAR)])

  lemma RegularsWait(ops: seq<Op>)
    requires ops == [] + [AddEvent(Confirmed(REGULAR))] + [AddEvent(Confirmed(LATE_REGULAR))]
    ensures CellOf(ops, WEB, 30) == Waiting([Confirmed(REGULAR), Confirmed(LATE_REGULAR)], []) && SnumsBelow(ops, 3)
  {
    SynWaits([], Confirmed(REGULAR), [], [], 30);
    SynWaits([] + [AddEvent(Confirmed(REGULAR))], Confirmed(LATE_REGULAR), [] + [Confirmed(REGULAR)], [], 30);
    assert [] + [Confirmed(REGULAR)] + [Confirmed(LATE_REGULAR)] == [Confirmed(REGULAR), Confirmed(LATE_REGULAR)];
  }

  lemma IrregularsWait(two: seq<Op>)
    requires CellOf(two, WEB, 30) == Waiting([Confirmed(REGULAR), Confirmed(LATE_REGULAR)], []) && SnumsBelow(two, 3)
    ensures var four := two + [AddEvent(Confirmed(IRREGULAR))] + [AddEvent(Confirmed(LATE_IRREGULAR))];
            CellOf(four, WEB, 30) == WAITING && SnumsBelow(four, 5)
  {
    var r := [Confirmed(REGULAR), Confirmed(LATE_REGULAR)];
    SynWaits(two, Confirmed(IRREGULAR), r, [], 30);
    SynWaits(two + [AddEvent(Confirmed(IRREGULAR))], Confirmed(LATE_IRREGULAR), r, [] + [Confirmed(IRREGULAR)], 30);
    assert [] + [Confirmed(IRREGULAR)] + [Confirmed(LATE_IRREGULAR)] == [Confirmed(IRREGULAR), Confirmed(LATE_IRREGULAR)];
  }

  lemma HandshakesWait()
    ensures CellOf(BothHandshakes(), WEB, 30) == WAITING
  {
    var two := [] + [AddEvent(Confirmed(REGULAR))] + [AddEvent(Confirmed(LATE_REGULAR))];
    RegularsWait(two);
    IrregularsWait(two);
    AddFresh(FourSyns(), OTHER, 30);
  }

  /** The checkpoint completes the first handshake only. */
  lemma OneHandshakeIsLeft()
    ensures var c := FindRepeated(MatchEverything(WAITING, 30), 30);
            c.regularSyns == [Confirmed(LATE_REGULAR)] && c.irregularSyns == [Confirmed(LATE_IRREGULAR)] &&
            !PhasesSaturated(c, 30)
  {
    var c := WAITING;
    assert Open(101, 30)(c.irregularSyns[0]);
    assert MatchRsyn(c, c.regularSyns[0], 30).Some?;
    assert AcksPass(c) == c;
    assert HasFirstPhase(c, 30)(c.regularSyns[0]);
    FirstUnique(c.regularSyns, HasFirstPhase(c, 30), 0);
    var d := RsynsPass(c, 30);
    assert d.regularSyns == [Confirmed(LATE_REGULAR)] && d.irregularSyns == [Confirmed(LATE_IRREGULAR)] && d.regularAcked == [];
    assert FindRepeated(MatchEverything(c, 30), 30) == d;
    assert Open(1001, 30)(d.irregularSyns[0]);
    assert d.regularSyns[0] in d.regularSyns && MatchRsyn(d, d.regularSyns[0], 30).Some?;
  }

  lemma CellAtEviction(ops: seq<Op>, k: Key, timeout: int)
    ensures CellOf(ops + Checkpoint(0)[..3], k, timeout) == FindRepeated(MatchEverything(CellOf(ops, k, timeout), timeout), timeout)
  {
    CheckpointCalls(ops, 0);
    CheckpointCell(ops, k, timeout);
    CellOfSnoc(ops + [TryMatchEverything] + [FindRepeatedConnections], EvictRetransmits(0), k, timeout);
  }

  /** What the eviction of the first hour meets. */
  function Left(): Cell {
    CellOf(BothHandshakes() + Checkpoint(0)[..3], WEB, 30)
  }

  lemma LeftIs()
    ensures Left() == FindRepeated(MatchEverything(WAITING, 30), 30)
  {
    HandshakesWait();
    CellAtEviction(BothHandshakes(), WEB, 30);
  }

  /** A regular and an irregular SYN that fit each other are both still there. */
  lemma OneHandshakeIsEvicted()
    ensures !PhasesSaturated(Left(), 30)
  {
    LeftIs();
    OneHandshakeIsLeft();
  }

  function RegularRow(): Row { EventRow("rsyn")(Confirmed(LATE_REGULAR)) }

  function IrregularRow(): Row { EventRow("isyn")(Confirmed(LATE_IRREGULAR)) }

  lemma HalvesAreOwed()
    ensures RegularRow() in EvictRows(Left(), 0) && IrregularRow() in EvictRows(Left(), 0)
  {
    LeftIs();
    OneHandshakeIsLeft();
    WrittenAlone(Left(), Confirmed(LATE_REGULAR), Confirmed(LATE_IRREGULAR), 0);
  }

  lemma OneRow(e: Event, tag: string, b: int)
    requires e.batchId == b
    ensures Rows(Filter([e], InBatch(b)), EventRow(tag)) == [EventRow(tag)(e)]
  {
    FilterAll([e], InBatch(b));
  }

  lemma WrittenAlone(c: Cell, rsyn: Event, isyn: Event, b: int)
    requires c.regularSyns == [rsyn] && c.irregularSyns == [isyn] && rsyn.batchId == isyn.batchId == b
    ensures EventRow("rsyn")(rsyn) in EvictRows(c, b) && EventRow("isyn")(isyn) in EvictRows(c, b)
  {
    OneRow(isyn, "isyn", b);
    OneRow(rsyn, "rsyn", b);
    var rows := EvictRows(c, b);
    assert |rows| >= 2 && rows[0] == EventRow("isyn")(isyn) && rows[1] == EventRow("rsyn")(rsyn);
  }

  // -- the two rounds ---------------------------------------------------------------------------------------

  /** The confirmation matcher without cached confirmations, in the first two hours. */
  predicate Cold(s: R.State, left: seq<Event>) {
    s.cache == map[] && s.events == left && s.observed == {0, 1}
  }

  predicate InFirstHours(events: seq<Event>) {
    forall i :: 0 <= i < |events| ==> events[i].batchId == 0 || events[i].batchId == 1
  }

  lemma NoRollover(s: R.State)
    requires s.observed == {0, 1} && InFirstHours(s.events)
    ensures !R.RollsOver(s) && s.observed + R.Ids(s.events) == {0, 1}
  {
    assert s.observed + R.Ids(s.events) == {0, 1};
  }

  /** Both loads of a round. */
  lemma ColdLoads(calls: seq<R.Call>, o: Offer, left: seq<Event>)
    requires R.Feasible(calls, 1, PROBE_TIMEOUT) && Cold(R.Run(calls, 1, PROBE_TIMEOUT), left) && C.Unconfirmed(o.events)
    ensures var two := calls + [R.LoadConfirmations(o.cons)] + [R.LoadEvents(o.events)];
            R.Feasible(two, 1, PROBE_TIMEOUT) && R.Returned(two, 1, PROBE_TIMEOUT) == R.Returned(calls, 1, PROBE_TIMEOUT) &&
            R.Run(two, 1, PROBE_TIMEOUT) ==
            R.Run(calls, 1, PROBE_TIMEOUT).(cache := R.Load(map[], o.cons), events := left + o.events)
  {
    var one := calls + [R.LoadConfirmations(o.cons)];
    RunSnoc(calls, R.LoadConfirmations(o.cons), 1, PROBE_TIMEOUT);
    RunSnoc(one, R.LoadEvents(o.events), 1, PROBE_TIMEOUT);
    assert R.Returned(calls, 1, PROBE_TIMEOUT) + [] + [] == R.Returned(calls, 1, PROBE_TIMEOUT);
  }

  /** The pass. */
  lemma ColdPass(calls: seq<R.Call>, newIds: seq<int>, m: C.Matching)
    requires R.Feasible(calls, 1, PROBE_TIMEOUT) && R.Feasible(calls + [R.MatchEvents(newIds)], 1, PROBE_TIMEOUT)
    requires var s := R.Run(calls, 1, PROBE_TIMEOUT);
             m == C.MatchAll(s.cache, s.events, PROBE_TIMEOUT) && s.observed == {0, 1} && InFirstHours(s.events)
    ensures R.Returned(calls + [R.MatchEvents(newIds)], 1, PROBE_TIMEOUT) == R.Returned(calls, 1, PROBE_TIMEOUT) + m.results
    ensures m.cache == map[] ==> Cold(R.Run(calls + [R.MatchEvents(newIds)], 1, PROBE_TIMEOUT), m.unmatched)
  {
    assert (calls + [R.MatchEvents(newIds)])[..|calls|] == calls;
    NoRollover(R.Run(calls, 1, PROBE_TIMEOUT));
    RunSnoc(calls, R.MatchEvents(newIds), 1, PROBE_TIMEOUT);
  }

  /** What a round returns, and leaves. */
  lemma ColdRound(calls: seq<R.Call>, now: seq<R.Call>, o: Offer, left: seq<Event>, newIds: seq<int>, m: C.Matching)
    requires R.Feasible(calls, 1, PROBE_TIMEOUT) && Cold(R.Run(calls, 1, PROBE_TIMEOUT), left) && C.Unconfirmed(o.events)
    requires now == calls + [R.LoadConfirmations(o.cons)] + [R.LoadEvents(o.events)] + [R.MatchEvents(newIds)]
    requires R.Feasible(now, 1, PROBE_TIMEOUT) && InFirstHours(left + o.events)
    requires m == C.MatchAll(R.Load(map[], o.cons), left + o.events, PROBE_TIMEOUT)
    ensures R.Returned(now, 1, PROBE_TIMEOUT) == R.Returned(calls, 1, PROBE_TIMEOUT) + m.results
    ensures m.cache == map[] ==> Cold(R.Run(now, 1, PROBE_TIMEOUT), m.unmatched)
  {
    ColdLoads(calls, o, left);
    ColdPass(calls + [R.LoadConfirmations(o.cons)] + [R.LoadEvents(o.events)], newIds, m);
  }

  lemma FirstMatches()
    ensures C.MatchAll(R.Load(map[], FIRST.cons), FIRST.events, PROBE_TIMEOUT) ==
            C.Matching(map[], RegularHalf(), [IRREGULAR, LATE_IRREGULAR])
    ensures InFirstHours(FIRST.events) && C.Unconfirmed(FIRST.events)
  {
    LoadTwo(REGULAR, LATE_REGULAR);
    FirstPass(IRREGULAR, REGULAR, LATE_IRREGULAR, LATE_REGULAR);
  }

  lemma SecondMatches(all: seq<Event>)
    requires all == [IRREGULAR, LATE_IRREGULAR, OTHER]
    ensures C.MatchAll(R.Load(map[], SECOND.cons), all, PROBE_TIMEOUT) == C.Matching(map[], IrregularHalf(), [])
    ensures InFirstHours(all) && C.Unconfirmed(SECOND.events)
  {
    LoadTwo(IRREGULAR, LATE_IRREGULAR);
    SecondPass(IRREGULAR, LATE_IRREGULAR, OTHER);
  }

  lemma FirstRoundReturns(now: seq<R.Call>, newIds: seq<int>)
    requires now == [] + [R.LoadConfirmations(FIRST.cons)] + [R.LoadEvents(FIRST.events)] + [R.MatchEvents(newIds)]
    requires R.Feasible(now, 1, PROBE_TIMEOUT)
    ensures R.Returned(now, 1, PROBE_TIMEOUT) == RegularHalf()
    ensures Cold(R.Run(now, 1, PROBE_TIMEOUT), [IRREGULAR, LATE_IRREGULAR])
  {
    FirstMatches();
    assert [] + FIRST.events == FIRST.events;
    ColdRound([], now, FIRST, [], newIds, C.Matching(map[], RegularHalf(), [IRREGULAR, LATE_IRREGULAR]));
    assert [] + RegularHalf() == RegularHalf();
  }

  lemma SecondRoundReturns(calls: seq<R.Call>, now: seq<R.Call>, newIds: seq<int>)
    requires R.Feasible(calls, 1, PROBE_TIMEOUT) && Cold(R.Run(calls, 1, PROBE_TIMEOUT), [IRREGULAR, LATE_IRREGULAR])
    requires now == calls + [R.LoadConfirmations(SECOND.cons)] + [R.LoadEvents(SECOND.events)] + [R.MatchEvents(newIds)]
    requires R.Feasible(now, 1, PROBE_TIMEOUT)
    ensures R.Returned(now, 1, PROBE_TIMEOUT) == R.Returned(calls, 1, PROBE_TIMEOUT) + IrregularHalf()
  {
    var left := [IRREGULAR, LATE_IRREGULAR];
    assert left + SECOND.events == [IRREGULAR, LATE_IRREGULAR, OTHER];
    SecondMatches(left + SECOND.events);
    ColdRound(calls, now, SECOND, left, newIds, C.Matching(map[], IrregularHalf(), []));
  }

  const THRESHOLD := 1800 * MICROS_PER_SECOND

  /** Time stamps of the first sixteen minutes and a bit. */
  predicate Early(times: seq<nat>) {
    times != [] && forall i :: 0 <= i < |times| ==> times[i] <= 1001 * MICROS_PER_SECOND
  }

  /** The calls of a round that loads both logs. */
  function CallsOf(o: Offer, newIds: seq<int>): seq<R.Call> {
    [] + [R.LoadConfirmations(o.cons)] + [R.LoadEvents(o.events)] + [R.MatchEvents(newIds)]
  }

  lemma TimesOf(o: Offer, newIds: seq<int>)
    ensures AllConfirmationTimes(CallsOf(o, newIds)) == ConfirmationTimes(o.cons)
    ensures AllEventTimes(CallsOf(o, newIds)) == EventTimes(o.events)
  {
    var one := [] + [R.LoadConfirmations(o.cons)];
    var two := one + [R.LoadEvents(o.events)];
    TimesSnoc([], R.LoadConfirmations(o.cons));
    TimesSnoc(one, R.LoadEvents(o.events));
    TimesSnoc(two, R.MatchEvents(newIds));
    OneCall(R.LoadConfirmations(o.cons));
    OneCall(R.LoadEvents(o.events));
    OneCall(R.MatchEvents(newIds));
  }

  lemma FirstTimes()
    ensures Early(ConfirmationTimes(FIRST.cons)) && Early(EventTimes(FIRST.events))
  {
  }

  /** Both logs are read on in the second round. */
  lemma BothAreRead(times: seq<nat>, eventTimes: seq<nat>, o: Offer)
    requires Early(times) && Early(eventTimes)
    ensures Loads(NewestOf(None, times), NewestOf(None, eventTimes), THRESHOLD, o.cons, o.events) ==
            [R.LoadConfirmations(o.cons)] + [R.LoadEvents(o.events)]
  {
    NewestIsMaximum(times);
    NewestIsMaximum(eventTimes);
  }

  /** The matchers of the run. */
  ghost predicate Configured(em: EventMatcher) {
    em.cm.firstId == 1 && em.cm.probeTimeout == PROBE_TIMEOUT && em.pm.phaseTimeout == 30 &&
    em.startHour == 0 && em.loadThreshold == THRESHOLD
  }

  /** After the first round the regular SYNs are handed over, and the irregular ones wait for their
      confirmations. */
  ghost predicate HalfWay(calls: seq<R.Call>, events: seq<Event>, progress: Dumps, history: seq<Op>) {
    R.Feasible(calls, 1, PROBE_TIMEOUT) && Cold(R.Run(calls, 1, PROBE_TIMEOUT), [IRREGULAR, LATE_IRREGULAR]) &&
    events == [] && progress == Dumps([], 0) && history == RoundCalls(RegularHalf(), DumpTs(0, 0), 0) &&
    Early(AllConfirmationTimes(calls)) && Early(AllEventTimes(calls))
  }

  lemma FirstCallsAre(calls: seq<R.Call>, newIds: seq<int>)
    requires calls == [] + Loads(None, None, THRESHOLD, FIRST.cons, FIRST.events) + [R.MatchEvents(newIds)]
    ensures calls == CallsOf(FIRST, newIds)
    ensures Early(AllConfirmationTimes(calls)) && Early(AllEventTimes(calls))
  {
    assert [] + [R.LoadConfirmations(FIRST.cons)] == [R.LoadConfirmations(FIRST.cons)];
    TimesOf(FIRST, newIds);
    FirstTimes();
  }

  lemma RegularHalfIsHanded(now: Dumps)
    requires Wrote(Dumps([], 0), now, RegularHalf(), DumpTs(0, 0), [], 30)
    ensures now == Dumps([], 0) && RegularHalf()[HandedCount(RegularHalf(), DumpTs(0, 0))..] == []
  {
    FirstUnique(RegularHalf(), Reaches(DumpTs(0, 0)), 2);
  }

  /** What the contract of the first round amounts to. */
  lemma FirstRoundIs(calls: seq<R.Call>, newIds: seq<int>, queue: seq<Event>, now: Dumps)
    requires calls == [] + Loads(None, None, THRESHOLD, FIRST.cons, FIRST.events) + [R.MatchEvents(newIds)]
    requires R.Feasible(calls, 1, PROBE_TIMEOUT) && R.Returned(calls, 1, PROBE_TIMEOUT) == [] + queue[0..]
    requires Wrote(Dumps([], 0), now, queue, DumpTs(0, 0), [], 30)
    ensures HalfWay(calls, queue[HandedCount(queue, DumpTs(0, 0))..], now, [] + RoundCalls(queue, DumpTs(0, 0), 0))
  {
    FirstCallsAre(calls, newIds);
    FirstRoundReturns(calls, newIds);
    assert queue == RegularHalf();
    RegularHalfIsHanded(now);
  }

  method SetUp() returns (em: EventMatcher)
    ensures fresh(em) && fresh(em.cm) && fresh(em.pm) && em.Valid() && Configured(em)
    ensures em.cm.calls == [] && em.pm.history == [] && em.events == [] && em.written == []
  {
    var cm := new ConfirmationMatcher(1, PROBE_TIMEOUT);
    var pm := new PhaseMatcher(30);
    em := new EventMatcher(cm, pm, 0, THRESHOLD);
  }

  method FirstHalf(em: EventMatcher) returns (ghost newIds: seq<int>)
    requires em.Valid() && Configured(em) && em.cm.calls == [] && em.pm.history == [] && em.events == [] && em.written == []
    modifies em, em.cm, em.pm
    ensures em.Valid() && HalfWay(em.cm.calls, em.events, em.Progress(), em.pm.history)
    ensures em.cm.calls == CallsOf(FIRST, newIds)
  {
    FirstMatches();
    em.NothingDelivered();
    var raised;
    ghost var queue;
    raised, newIds, queue := em.Round(FIRST.cons, FIRST.events);
    FirstRoundIs(em.cm.calls, newIds, queue, em.Progress());
    FirstCallsAre(em.cm.calls, newIds);
  }

  // -- and its end ---------------------------------------------------------------------------------------

  lemma SecondCallsAre(calls: seq<R.Call>, now: seq<R.Call>, newIds: seq<int>)
    requires Early(AllConfirmationTimes(calls)) && Early(AllEventTimes(calls))
    requires now == calls + Loads(NewestOf(None, AllConfirmationTimes(calls)), NewestOf(None, AllEventTimes(calls)), THRESHOLD,
                                  SECOND.cons, SECOND.events) + [R.MatchEvents(newIds)]
    ensures now == calls + [R.LoadConfirmations(SECOND.cons)] + [R.LoadEvents(SECOND.events)] + [R.MatchEvents(newIds)]
  {
    BothAreRead(AllConfirmationTimes(calls), AllEventTimes(calls), SECOND);
    Associate(calls, [R.LoadConfirmations(SECOND.cons)], [R.LoadEvents(SECOND.events)]);
  }

  /** The file the checkpoint writes. */
  predicate HoldsHalves(written: seq<seq<Row>>) {
    |written| == 1 && RegularRow() in written[0] && IrregularRow() in written[0]
  }

  lemma SomethingIsOwed(ops: seq<Op>)
    requires ops == BothHandshakes() + Checkpoint(0)[..3]
    ensures RegularRow() in EvictRows(CellOf(ops, WEB, 30), 0) && IrregularRow() in EvictRows(CellOf(ops, WEB, 30), 0)
    ensures Owes(ops, 0, 30)
  {
    HalvesAreOwed();
    assert EvictRows(CellOf(ops, WEB, 30), 0) != [];
  }

  lemma HalvesAreWritten(now: Dumps, ops: seq<Op>)
    requires ops == BothHandshakes() + Checkpoint(0)[..3] && Dumped(Dumps([], 0), now, ops, 30)
    ensures HoldsHalves(now.written)
  {
    SomethingIsOwed(ops);
    var regular, irregular := RegularRow(), IrregularRow();
    BatchHolds(now.written[0], ops, 0, 30, WEB, regular);
    BatchHolds(now.written[0], ops, 0, 30, WEB, irregular);
  }

  lemma WroteAtCheckpoint(before: Dumps, now: Dumps, queue: seq<Event>, ts: int, ops: seq<Op>, handed: seq<Op>)
    requires Wrote(before, now, queue, ts, ops, 30) && First(queue, Reaches(ts)) < |queue|
    requires handed == ops + Adds(queue[..HandedCount(queue, ts)])
    ensures Dumped(before, now, handed + Checkpoint(before.batch)[..3], 30)
  {
  }

  lemma IrregularHalfIsHanded(now: Dumps, history: seq<Op>)
    requires history == RoundCalls(RegularHalf(), DumpTs(0, 0), 0)
    requires Wrote(Dumps([], 0), now, IrregularHalf(), DumpTs(0, 0), history, 30)
    ensures HoldsHalves(now.written)
  {
    HandedBefore();
    WroteAtCheckpoint(Dumps([], 0), now, IrregularHalf(), DumpTs(0, 0), history, BothHandshakes());
    HalvesAreWritten(now, BothHandshakes() + Checkpoint(0)[..3]);
  }

  lemma HandedBefore()
    ensures RoundCalls(RegularHalf(), DumpTs(0, 0), 0) + Adds(IrregularHalf()[..HandedCount(IrregularHalf(), DumpTs(0, 0))]) == BothHandshakes()
    ensures First(IrregularHalf(), Reaches(DumpTs(0, 0))) < |IrregularHalf()|
  {
    HandedInTwoRounds();
    FirstUnique(IrregularHalf(), Reaches(DumpTs(0, 0)), 2);
    var r, adds := RoundCalls(RegularHalf(), DumpTs(0, 0), 0), Adds(IrregularHalf()[..HandedCount(IrregularHalf(), DumpTs(0, 0))]);
    Associate(r, adds, Checkpoint(0));
    assert (r + adds + Checkpoint(0))[..|r + adds|] == r + adds;
    assert (BothHandshakes() + Checkpoint(0))[..|BothHandshakes()|] == BothHandshakes();
  }

  lemma SameEnd<T>(s: seq<T>, t: seq<T>, u: seq<T>)
    requires s + t == s + u
    ensures t == u
  {
    assert t == (s + t)[|s|..] && u == (s + u)[|s|..];
  }

  /** What the contract of the second round amounts to. */
  lemma SecondRoundIs(calls: seq<R.Call>, now: seq<R.Call>, newIds: seq<int>, queue: seq<Event>, dumps: Dumps, history: seq<Op>)
    requires HalfWay(calls, [], Dumps([], 0), history) && R.Feasible(now, 1, PROBE_TIMEOUT)
    requires now == calls + Loads(NewestOf(None, AllConfirmationTimes(calls)), NewestOf(None, AllEventTimes(calls)), THRESHOLD,
                                  SECOND.cons, SECOND.events) + [R.MatchEvents(newIds)]
    requires R.Returned(now, 1, PROBE_TIMEOUT) == R.Returned(calls, 1, PROBE_TIMEOUT) + queue[0..]
    requires Wrote(Dumps([], 0), dumps, queue, DumpTs(0, 0), history, 30)
    ensures HoldsHalves(dumps.written) && history + RoundCalls(queue, DumpTs(0, 0), 0) == BothHandshakes() + Checkpoint(0)
  {
    SecondCallsAre(calls, now, newIds);
    SecondRoundReturns(calls, now, newIds);
    SameEnd(R.Returned(calls, 1, PROBE_TIMEOUT), queue[0..], IrregularHalf());
    assert queue[0..] == queue;
    IrregularHalfIsHanded(dumps, history);
    HandedInTwoRounds();
  }

  method SecondHalf(em: EventMatcher) returns (ghost newIds: seq<int>)
    requires em.Valid() && Configured(em) && HalfWay(em.cm.calls, em.events, em.Progress(), em.pm.history)
    modifies em, em.cm, em.pm
    ensures em.Valid() && em.pm.history == BothHandshakes() + Checkpoint(0) && HoldsHalves(em.written)
    ensures em.cm.calls == old(em.cm.calls) + [R.LoadConfirmations(SECOND.cons)] + [R.LoadEvents(SECOND.events)] + [R.MatchEvents(newIds)]
  {
    ghost var calls, history, cts, ets := em.cm.calls, em.pm.history, em.cm.cts, em.cm.ets;
    em.NothingDelivered();
    assert C.Unconfirmed(SECOND.events);
    var raised;
    ghost var queue;
    raised, newIds, queue := em.Round(SECOND.cons, SECOND.events);
    SecondCallsAre(calls, em.cm.calls, newIds);
    SecondRoundIs(calls, em.cm.calls, newIds, queue, em.Progress(), history);
  }

  /** A run of the loop, from its start, over these logs: both halves of a handshake, confirmed one
      second before the regular SYN came, are written as if nothing had answered them. */
  method WritesHalvesApart() returns (em: EventMatcher, ghost ids: seq<int>, ghost moreIds: seq<int>)
    ensures em.Valid() && em.pm.history == BothHandshakes() + Checkpoint(0) && HoldsHalves(em.written)
    ensures em.cm.calls == CallsOf(FIRST, ids) + [R.LoadConfirmations(SECOND.cons)] + [R.LoadEvents(SECOND.events)] + [R.MatchEvents(moreIds)]
  {
    em := SetUp();
    ids := FirstHalf(em);
    moreIds := SecondHalf(em);
  }
}
