/** The loop of `match`, round after round: when it raises, and when it stops writing. */
module AssemblyRuns {
  import opened Collections
  import opened Events
  import opened PhaseBatches
  import opened Phases
  import opened PhaseRuns
  import opened PhaseMatching
  import opened WrittenFiles
  import opened ConfirmationMatching
  import opened EventMatching
  import C = Confirmations
  import R = ConfirmationRuns

  /** What the two readers offer to a round. */
  datatype Offer = Offer(cons: seq<Confirmation>, events: seq<Event>)

  predicate Loadable(offers: seq<Offer>) {
    forall i :: 0 <= i < |offers| ==> C.Unconfirmed(offers[i].events)
  }

  function Offers(): Offer -> bool {
    (o: Offer) => o.cons != [] || o.events != []
  }

  /** The first round that got anything got it from one log only, and there is another round. */
  predicate Raises(offers: seq<Offer>) {
    var r := First(offers, Offers());
    r + 1 < |offers| && (offers[r].cons == []) != (offers[r].events == [])
  }

  /** Readers that block until they have something never let the loop raise. */
  lemma BlockingReadersNeverRaise(offers: seq<Offer>)
    requires offers != [] && offers[0].cons != [] && offers[0].events != []
    ensures !Raises(offers)
  {
    assert Offers()(offers[0]);
  }

  /** A log that delivers nothing in the first round lets the second one raise. */
  lemma EmptyBatchRaises(offers: seq<Offer>)
    requires |offers| > 1 && (offers[0].cons == []) != (offers[0].events == [])
    ensures Raises(offers)
  {
    assert Offers()(offers[0]);
  }

  // -- which logs have delivered -----------------------------------------------------------------

  /** Whether each of the two logs has delivered anything. */
  datatype Sides = Sides(cons: bool, events: bool)

  function SidesOf(calls: seq<R.Call>): Sides {
    Sides(AllConfirmationTimes(calls) != [], AllEventTimes(calls) != [])
  }

  lemma TimesSnoc(calls: seq<R.Call>, call: R.Call)
    ensures AllConfirmationTimes(calls + [call]) == AllConfirmationTimes(calls) + AllConfirmationTimes([call])
    ensures AllEventTimes(calls + [call]) == AllEventTimes(calls) + AllEventTimes([call])
  {
    assert (calls + [call])[..|calls|] == calls;
    OneCall(call);
  }

  lemma SidesSnoc(calls: seq<R.Call>, call: R.Call)
    ensures SidesOf(calls + [call]) == Join(SidesOf(calls), SidesOf([call]))
  {
    TimesSnoc(calls, call);
  }

  lemma OneCall(call: R.Call)
    ensures AllConfirmationTimes([call]) == if call.LoadConfirmations? then ConfirmationTimes(call.cons) else []
    ensures AllEventTimes([call]) == if call.LoadEvents? then EventTimes(call.batch) else []
  {
    assert [call][..0] == [];
  }

  function Join(s: Sides, t: Sides): Sides {
    Sides(s.cons || t.cons, s.events || t.events)
  }

  lemma {:induction false} SidesConcat(s: seq<R.Call>, t: seq<R.Call>)
    ensures SidesOf(s + t) == Join(SidesOf(s), SidesOf(t))
  {
    if t == [] {
      assert s + t == s;
    } else {
      var u, last := t[..|t| - 1], t[|t| - 1];
      assert t == u + [last];
      SidesConcat(s, u);
      Associate(s, u, [last]);
      SidesSnoc(s + u, last);
      SidesSnoc(u, last);
    }
  }

  /** The first loads are of both logs. */
  lemma FirstLoads(threshold: int, o: Offer)
    ensures SidesOf(Loads(None, None, threshold, o.cons, o.events)) == Sides(o.cons != [], o.events != [])
  {
    var one, two := [R.LoadConfirmations(o.cons)], [R.LoadEvents(o.events)];
    OneCall(R.LoadConfirmations(o.cons));
    OneCall(R.LoadEvents(o.events));
    SidesConcat(one, two);
  }

  /** Which logs have delivered after a round, as long as none raised. */
  function After(s: Sides, o: Offer): Sides {
    if s == Sides(false, false) then Sides(o.cons != [], o.events != []) else s
  }

  function SidesAfter(offers: seq<Offer>): Sides {
    if offers == [] then Sides(false, false) else After(SidesAfter(offers[..|offers| - 1]), offers[|offers| - 1])
  }

  predicate OneSided(s: Sides) { s.cons != s.events }

  lemma RoundSides(calls: seq<R.Call>, cts: Option<nat>, ets: Option<nat>, threshold: int, o: Offer, newIds: seq<int>)
    requires SidesOf(calls) == Sides(cts.Some?, ets.Some?) && !OneSided(SidesOf(calls))
    ensures SidesOf(calls + Loads(cts, ets, threshold, o.cons, o.events) + [R.MatchEvents(newIds)]) == After(SidesOf(calls), o)
  {
    var loads := Loads(cts, ets, threshold, o.cons, o.events);
    OneCall(R.MatchEvents(newIds));
    SidesConcat(calls, loads);
    SidesConcat(calls + loads, [R.MatchEvents(newIds)]);
    if cts.None? {
      FirstLoads(threshold, o);
    }
  }

  /** The logs that have delivered are those of the first round that got anything. */
  lemma {:induction false} SidesAreFirst(offers: seq<Offer>)
    ensures var r := First(offers, Offers());
            SidesAfter(offers) == if r == |offers| then Sides(false, false) else Sides(offers[r].cons != [], offers[r].events != [])
  {
    if offers != [] {
      var n := |offers| - 1;
      SidesAreFirst(offers[..n]);
      var r := First(offers[..n], Offers());
      if r < n {
        FirstUnique(offers, Offers(), r);
      } else {
        FirstPrefix(offers, Offers(), n);
        assert offers[..n + 1] == offers;
      }
    }
  }

  /** The round behind `offers` raises exactly if the logs are one-sided by then. */
  lemma RaisesNext(offers: seq<Offer>, i: nat)
    requires i < |offers|
    ensures OneSided(SidesAfter(offers[..i])) ==> Raises(offers)
    ensures i + 1 == |offers| && !OneSided(SidesAfter(offers[..i])) ==> !Raises(offers)
  {
    SidesAreFirst(offers[..i]);
    var r := First(offers[..i], Offers());
    if r < i {
      FirstUnique(offers, Offers(), r);
    } else {
      assert forall j :: 0 <= j < i ==> offers[..i][j] == offers[j];
    }
  }

  // -- rounds --------------------------------------------------------------------------------------

  method OneRound(em: EventMatcher, o: Offer) returns (raised: bool)
    requires em.Valid() && C.Unconfirmed(o.events)
    modifies em, em.cm, em.pm
    ensures em.Valid() && (raised <==> old(OneSided(SidesOf(em.cm.calls))))
    ensures !raised ==> SidesOf(em.cm.calls) == After(old(SidesOf(em.cm.calls)), o)
    ensures !raised && em.loadThreshold > 0 ==> |em.cm.calls| >= old(|em.cm.calls|) + 2
  {
    ghost var calls, cts, ets := em.cm.calls, em.cm.cts, em.cm.ets;
    em.NothingDelivered();
    ghost var newIds, queue;
    raised, newIds, queue := em.Round(o.cons, o.events);
    if !raised {
      RoundSides(calls, cts, ets, em.loadThreshold, o, newIds);
      SomethingIsLoaded(cts, ets, em.loadThreshold, o);
    }
  }

  lemma SomethingIsLoaded(cts: Option<nat>, ets: Option<nat>, threshold: int, o: Offer)
    requires cts.Some? == ets.Some?
    ensures threshold > 0 ==> Loads(cts, ets, threshold, o.cons, o.events) != []
  {
    if cts.Some? {
      LoadsExactly(cts.value, ets.value, threshold, o.cons, o.events);
    }
  }

  /** Where the loop is after `i` rounds that did not raise. */
  predicate AfterRounds(calls: seq<R.Call>, offers: seq<Offer>, i: nat, threshold: int) {
    i <= |offers| && SidesOf(calls) == SidesAfter(offers[..i]) && (threshold > 0 ==> |calls| >= 2 * i) &&
    (i > 0 ==> !OneSided(SidesAfter(offers[..i - 1])))
  }

  lemma NextRound(calls: seq<R.Call>, now: seq<R.Call>, offers: seq<Offer>, i: nat, threshold: int)
    requires AfterRounds(calls, offers, i, threshold) && i < |offers| && !OneSided(SidesOf(calls))
    requires SidesOf(now) == After(SidesOf(calls), offers[i]) && (threshold > 0 ==> |now| >= |calls| + 2)
    ensures AfterRounds(now, offers, i + 1, threshold)
  {
    assert offers[..i + 1][..i] == offers[..i];
  }

  lemma LastRound(calls: seq<R.Call>, offers: seq<Offer>, threshold: int)
    requires AfterRounds(calls, offers, |offers|, threshold)
    ensures !Raises(offers)
  {
    if offers != [] {
      RaisesNext(offers, |offers| - 1);
    }
  }

  /** The loop, for as many rounds as the readers have offers: it raises if and only if the first
      round that got anything got it from one log alone, and another round follows.  With a
      positive threshold every round reads on. */
  method Assemble(em: EventMatcher, offers: seq<Offer>) returns (raised: bool)
    requires em.Valid() && em.cm.calls == [] && Loadable(offers)
    modifies em, em.cm, em.pm
    ensures em.Valid() && (raised <==> Raises(offers))
    ensures !raised && em.loadThreshold > 0 ==> |em.cm.calls| >= 2 * |offers|
  {
    for i := 0 to |offers|
      invariant em.Valid() && AfterRounds(em.cm.calls, offers, i, em.loadThreshold)
    {
      ghost var calls := em.cm.calls;
      RaisesNext(offers, i);
      raised := OneRound(em, offers[i]);
      if raised {
        return;
      }
      NextRound(calls, em.cm.calls, offers, i, em.loadThreshold);
    }
    LastRound(em.cm.calls, offers, em.loadThreshold);
    raised := false;
  }

  // -- a batch without rows -------------------------------------------------------------------------

  /** None of the events is of batch `b`, nor earlier than `ts`. */
  predicate Later(events: seq<Event>, b: int, ts: int) {
    forall i :: 0 <= i < |events| ==> events[i].batchId != b && events[i].packet.timestamp >= ts
  }

  lemma {:induction false} MatchAllLater(cache: C.Cache, events: seq<Event>, timeout: int, b: int, ts: int)
    requires Later(events, b, ts)
    ensures Later(C.MatchAll(cache, events, timeout).results, b, ts) && Later(C.MatchAll(cache, events, timeout).unmatched, b, ts)
  {
    if events != [] {
      MatchAllLater(cache, events[..|events| - 1], timeout, b, ts);
    }
  }

  lemma NextLater(s: R.State, call: R.Call, timeout: int, b: int, ts: int)
    requires R.Invariant(s) && Later(s.events, b, ts) && (call.LoadEvents? ==> Later(call.batch, b, ts))
    ensures Later(R.Next(s, call, timeout).events, b, ts)
  {
    match call
    case LoadConfirmations(_) =>
    case LoadEvents(_) =>
    case MatchEvents(_) =>
      MatchAllLater(s.cache, s.events, timeout, b, ts);
      var left := C.MatchAll(s.cache, s.events, timeout).unmatched;
      FilterMembers(left, R.OtherBatchEvent(s.order[0]));
  }

  lemma LaterConcat(s: seq<Event>, t: seq<Event>, u: seq<Event>, b: int, ts: int)
    requires s <= t && Later(t[|s|..], b, ts) && Later(u, b, ts)
    ensures s <= t + u && Later((t + u)[|s|..], b, ts)
  {
    assert (t + u)[|s|..] == t[|s|..] + u;
  }

  lemma OneCallLater(calls: seq<R.Call>, call: R.Call, batchId: int, timeout: int, b: int, ts: int)
    requires R.Feasible(calls, batchId, timeout) && R.Feasible(calls + [call], batchId, timeout)
    requires Later(R.Run(calls, batchId, timeout).events, b, ts) && (call.LoadEvents? ==> Later(call.batch, b, ts))
    ensures Later(R.Run(calls + [call], batchId, timeout).events, b, ts)
    ensures R.Returned(calls + [call], batchId, timeout) ==
            R.Returned(calls, batchId, timeout) + ResultsOf(calls, call, batchId, timeout)
    ensures Later(ResultsOf(calls, call, batchId, timeout), b, ts)
  {
    var s := R.Run(calls, batchId, timeout);
    assert (calls + [call])[..|calls|] == calls;
    RunSnoc(calls, call, batchId, timeout);
    NextLater(s, call, timeout, b, ts);
    MatchAllLater(s.cache, s.events, timeout, b, ts);
  }

  /** What the calls behind the first `k` return comes from later loads, if they load nothing else. */
  lemma {:induction false} ReturnsLater(calls: seq<R.Call>, k: nat, batchId: int, timeout: int, b: int, ts: int)
    requires k <= |calls| && R.Feasible(calls, batchId, timeout) && R.Feasible(calls[..k], batchId, timeout)
    requires Later(R.Run(calls[..k], batchId, timeout).events, b, ts)
    requires forall i :: k <= i < |calls| && calls[i].LoadEvents? ==> Later(calls[i].batch, b, ts)
    ensures Later(R.Run(calls, batchId, timeout).events, b, ts)
    ensures var was, now := R.Returned(calls[..k], batchId, timeout), R.Returned(calls, batchId, timeout);
            was <= now && Later(now[|was|..], b, ts)
  {
    if k == |calls| {
      assert calls[..k] == calls;
    } else {
      var before, last := calls[..|calls| - 1], calls[|calls| - 1];
      assert before[..k] == calls[..k] && calls == before + [last];
      ReturnsLater(before, k, batchId, timeout, b, ts);
      OneCallLater(before, last, batchId, timeout, b, ts);
      LaterConcat(R.Returned(calls[..k], batchId, timeout), R.Returned(before, batchId, timeout),
                  ResultsOf(before, last, batchId, timeout), b, ts);
    }
  }

  lemma {:induction false} AddsAddNone(events: seq<Event>, b: int, ts: int)
    requires Later(events, b, ts)
    ensures NoneAdded(Adds(events), b)
  {
    if events != [] {
      AddsAddNone(events[..|events| - 1], b, ts);
    }
  }

  lemma StillOwesNothing(ops: seq<Op>, more: seq<Op>, b: int, timeout: int)
    requires !Owes(ops, b, timeout) && NoneAdded(more, b)
    ensures !Owes(ops + more, b, timeout)
  {
    forall k ensures EvictRows(CellOf(ops + more, k, timeout), b) == [] {
      OwesNothingForEver(ops, more, k, timeout, b);
    }
  }

  /** A round over events of other batches writes nothing for a batch that owes nothing. */
  lemma RoundOwesNothing(before: Dumps, now: Dumps, queue: seq<Event>, dumpTs: int, ops: seq<Op>, timeout: int, ts: int)
    requires !Owes(ops, before.batch, timeout) && Later(queue, before.batch, ts)
    requires Wrote(before, now, queue, dumpTs, ops, timeout)
    ensures now == before && !Owes(ops + RoundCalls(queue, dumpTs, before.batch), before.batch, timeout)
  {
    var handed := queue[..HandedCount(queue, dumpTs)];
    AddsAddNone(handed, before.batch, ts);
    StillOwesNothing(ops, RoundCalls(queue, dumpTs, before.batch), before.batch, timeout);
    StillOwesNothing(ops, Adds(handed) + Checkpoint(before.batch)[..3], before.batch, timeout);
    Associate(ops, Adds(handed), Checkpoint(before.batch)[..3]);
  }

  /** How many events a round hands over. */
  lemma RoundHands(ops: seq<Op>, queue: seq<Event>, dumpTs: int, b: int)
    ensures |Handed(ops + RoundCalls(queue, dumpTs, b))| == |Handed(ops)| + HandedCount(queue, dumpTs)
  {
    RoundKeepsOrder(ops, queue, dumpTs, b);
    assert |queue[HandedCount(queue, dumpTs)..]| == |queue| - HandedCount(queue, dumpTs);
  }

  lemma LoadsBehind(calls: seq<R.Call>, loads: seq<R.Call>, now: seq<R.Call>, newIds: seq<int>, b: int, ts: int)
    requires now == calls + loads + [R.MatchEvents(newIds)]
    requires forall i :: 0 <= i < |loads| && loads[i].LoadEvents? ==> Later(loads[i].batch, b, ts)
    ensures |calls| <= |now| && now[..|calls|] == calls
    ensures forall i :: |calls| <= i < |now| && now[i].LoadEvents? ==> Later(now[i].batch, b, ts)
  {
    forall i | |calls| <= i < |now| && now[i].LoadEvents? ensures Later(now[i].batch, b, ts) {
      assert now[i] == loads[i - |calls|];
    }
  }

  lemma RoundReturnsLater(calls: seq<R.Call>, loads: seq<R.Call>, now: seq<R.Call>, newIds: seq<int>,
                          batchId: int, timeout: int, b: int, ts: int)
    requires now == calls + loads + [R.MatchEvents(newIds)]
    requires forall i :: 0 <= i < |loads| && loads[i].LoadEvents? ==> Later(loads[i].batch, b, ts)
    requires R.Feasible(calls, batchId, timeout) && R.Feasible(now, batchId, timeout)
    requires Later(R.Run(calls, batchId, timeout).events, b, ts)
    ensures Later(R.Run(now, batchId, timeout).events, b, ts)
    ensures var before, after := R.Returned(calls, batchId, timeout), R.Returned(now, batchId, timeout);
            before <= after && Later(after[|before|..], b, ts)
  {
    LoadsBehind(calls, loads, now, newIds, b, ts);
    ReturnsLater(now, |calls|, batchId, timeout, b, ts);
  }

  lemma LoadsAreLater(cts: Option<nat>, ets: Option<nat>, threshold: int, o: Offer, b: int, ts: int)
    requires Later(o.events, b, ts)
    ensures var loads := Loads(cts, ets, threshold, o.cons, o.events);
            forall i :: 0 <= i < |loads| && loads[i].LoadEvents? ==> Later(loads[i].batch, b, ts)
  {
  }

  lemma QueueLater(queue: seq<Event>, left: seq<Event>, before: seq<Event>, after: seq<Event>, b: int, ts: int)
    requires left <= queue && after == before + queue[|left|..] && Later(left, b, ts) && Later(after[|before|..], b, ts)
    ensures Later(queue, b, ts)
  {
    assert after[|before|..] == queue[|left|..];
    assert queue == left + queue[|left|..];
  }

  /** The batch that is due owes nothing, and what is on its way is later. */
  ghost predicate Stuck(em: EventMatcher, ts: int)
    reads em, em.cm, em.pm
  {
    !Owes(em.pm.history, em.batchToDump, em.pm.phaseTimeout) &&
    Later(em.events, em.batchToDump, ts) && Later(em.cm.ecache, em.batchToDump, ts)
  }

  lemma RoundStaysStuck(before: Dumps, now: Dumps, queue: seq<Event>, dumpTs: int, ops: seq<Op>, timeout: int, ts: int)
    requires !Owes(ops, before.batch, timeout) && Later(queue, before.batch, ts)
    requires Wrote(before, now, queue, dumpTs, ops, timeout)
    ensures now == before && !Owes(ops + RoundCalls(queue, dumpTs, before.batch), before.batch, timeout)
    ensures Later(queue[HandedCount(queue, dumpTs)..], before.batch, ts)
    ensures ts >= dumpTs ==> |Handed(ops + RoundCalls(queue, dumpTs, before.batch))| <= |Handed(ops)| + 1
  {
    RoundOwesNothing(before, now, queue, dumpTs, ops, timeout, ts);
    RoundHands(ops, queue, dumpTs, before.batch);
    if ts >= dumpTs && queue != [] {
      assert Reaches(dumpTs)(queue[0]);
    }
  }

  /** A round that only gets later events. */
  method LaterRound(em: EventMatcher, o: Offer, ghost ts: int) returns (raised: bool, ghost queue: seq<Event>)
    requires em.Valid() && C.Unconfirmed(o.events) && Later(o.events, em.batchToDump, ts)
    requires Later(em.events, em.batchToDump, ts) && Later(em.cm.ecache, em.batchToDump, ts)
    modifies em, em.cm, em.pm
    ensures em.Valid()
    ensures raised ==> em.pm.history == old(em.pm.history) && em.Progress() == old(em.Progress())
    ensures !raised ==> Later(queue, old(em.batchToDump), ts) && Later(em.cm.ecache, old(em.batchToDump), ts)
    ensures !raised ==> Wrote(old(em.Progress()), em.Progress(), queue, old(em.nextDumpTs), old(em.pm.history), em.pm.phaseTimeout)
    ensures !raised ==> em.pm.history == old(em.pm.history) + RoundCalls(queue, old(em.nextDumpTs), old(em.batchToDump))
    ensures !raised ==> em.events == queue[HandedCount(queue, old(em.nextDumpTs))..]
  {
    ghost var b, calls, left, was := em.batchToDump, em.cm.calls, em.events, em.cm.AllReturned();
    ghost var loads, newIds := Loads(em.cm.cts, em.cm.ets, em.loadThreshold, o.cons, o.events), [];
    LoadsAreLater(em.cm.cts, em.cm.ets, em.loadThreshold, o, b, ts);
    raised, newIds, queue := em.Round(o.cons, o.events);
    if !raised {
      RoundReturnsLater(calls, loads, em.cm.calls, newIds, em.cm.firstId, em.cm.probeTimeout, b, ts);
      QueueLater(queue, left, was, em.cm.AllReturned(), b, ts);
    }
  }

  method StuckRound(em: EventMatcher, o: Offer, ghost ts: int) returns (raised: bool)
    requires em.Valid() && Stuck(em, ts) && C.Unconfirmed(o.events) && Later(o.events, em.batchToDump, ts)
    modifies em, em.cm, em.pm
    ensures em.Valid() && (!raised ==> Stuck(em, ts)) && em.Progress() == old(em.Progress())
    ensures ts >= em.nextDumpTs ==> |Handed(em.pm.history)| <= old(|Handed(em.pm.history)|) + 1
  {
    ghost var ops, dumps, dumpTs := em.pm.history, em.Progress(), em.nextDumpTs;
    ghost var queue;
    raised, queue := LaterRound(em, o, ts);
    if !raised {
      RoundStaysStuck(dumps, em.Progress(), queue, dumpTs, ops, em.pm.phaseTimeout, ts);
    }
  }

  predicate AllLater(offers: seq<Offer>, b: int, ts: int) {
    forall i :: 0 <= i < |offers| ==> Later(offers[i].events, b, ts)
  }

  /** Once a batch that is due owes nothing and only events of other batches arrive, no file is
      ever written again; and if these are past the checkpoint, as those of later hours are, every
      round hands over one event at most. */
  method StaysStuck(em: EventMatcher, offers: seq<Offer>, ghost ts: int) returns (raised: bool)
    requires em.Valid() && Stuck(em, ts) && Loadable(offers) && AllLater(offers, em.batchToDump, ts)
    modifies em, em.cm, em.pm
    ensures em.Valid() && em.Progress() == old(em.Progress())
    ensures ts >= em.nextDumpTs ==> |Handed(em.pm.history)| <= old(|Handed(em.pm.history)|) + |offers|
  {
    raised := false;
    for i := 0 to |offers|
      invariant em.Valid() && Stuck(em, ts) && em.Progress() == old(em.Progress())
      invariant ts >= em.nextDumpTs ==> |Handed(em.pm.history)| <= old(|Handed(em.pm.history)|) + i
    {
      raised := StuckRound(em, offers[i], ts);
      if raised {
        return;
      }
    }
  }

  lemma StartsStuck(em: EventMatcher, ts: int)
    requires em.Valid() && em.cm.calls == [] && em.pm.history == []
    ensures Stuck(em, ts) && em.batchToDump == 0 && em.written == []
  {
    forall k ensures EvictRows(CellOf([], k, em.pm.phaseTimeout), 0) == [] {
      OwesNothingExactly(EMPTY_CELL, 0);
    }
    assert Handed([]) + em.events == em.events;
  }

  /** In particular nothing is ever written if no event of the first hour is logged. */
  method EmptyFirstHour(cm: ConfirmationMatcher, pm: PhaseMatcher, startHour: int, loadThreshold: int, offers: seq<Offer>)
    returns (em: EventMatcher, raised: bool)
    requires cm.Valid() && pm.Valid() && cm.calls == [] && pm.history == [] && Loadable(offers)
    requires forall i, j :: 0 <= i < |offers| && 0 <= j < |offers[i].events| ==> offers[i].events[j].batchId != 0
    modifies cm, pm
    ensures em.Valid() && em.written == []
  {
    em := new EventMatcher(cm, pm, startHour, loadThreshold);
    StartsStuck(em, 0);
    raised := StaysStuck(em, offers, 0);
  }
}
