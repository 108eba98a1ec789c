/** The confirmation matcher of `assemble`: caches of confirmations and events, matched
    in passes and evicted batch by batch. */
module ConfirmationMatching {
  import opened Collections
  import opened Events
  import opened Confirmations
  import opened ConfirmationRuns

  // -- newest time stamps -------------------------------------------------------------------

  function Later(newest: Option<nat>, ts: nat): Option<nat> {
    if newest.None? || newest.value < ts then Some(ts) else newest
  }

  function NewestOf(newest: Option<nat>, times: seq<nat>): Option<nat> {
    if times == [] then newest else Later(NewestOf(newest, times[..|times| - 1]), times[|times| - 1])
  }

  function ConfirmationTimes(cons: seq<Confirmation>): seq<nat> {
    seq(|cons|, i requires 0 <= i < |cons| => cons[i].timestamp)
  }

  function EventTimes(events: seq<Event>): seq<nat> {
    seq(|events|, i requires 0 <= i < |events| => events[i].packet.timestamp)
  }

  /** Time stamps of everything a reader delivered, in order. */
  function AllConfirmationTimes(calls: seq<Call>): seq<nat> {
    if calls == [] then []
    else
      var n := |calls| - 1;
      AllConfirmationTimes(calls[..n]) + if calls[n].LoadConfirmations? then ConfirmationTimes(calls[n].cons) else []
  }

  function AllEventTimes(calls: seq<Call>): seq<nat> {
    if calls == [] then []
    else
      var n := |calls| - 1;
      AllEventTimes(calls[..n]) + if calls[n].LoadEvents? then EventTimes(calls[n].batch) else []
  }

  /** Nothing, or the largest of all. */
  lemma {:induction false} NewestIsMaximum(times: seq<nat>)
    ensures NewestOf(None, times).None? <==> times == []
    ensures NewestOf(None, times).Some? ==> NewestOf(None, times).value in times
    ensures forall i :: 0 <= i < |times| ==> NewestOf(None, times).Some? && times[i] <= NewestOf(None, times).value
  {
    if times != [] {
      var n := |times| - 1;
      assert times == times[..n] + [times[n]];
      NewestIsMaximum(times[..n]);
    }
  }

  lemma {:induction false} NewestConcat(newest: Option<nat>, s: seq<nat>, t: seq<nat>)
    ensures NewestOf(newest, s + t) == NewestOf(NewestOf(newest, s), t)
  {
    if t == [] {
      assert s + t == s;
    } else {
      var n := |t| - 1;
      assert (s + t)[..|s + t| - 1] == s + t[..n];
      NewestConcat(newest, s, t[..n]);
    }
  }

  // -- loading and evicting one list ------------------------------------------------------------

  /** What a call after `calls` returns. */
  function ResultsOf(calls: seq<Call>, call: Call, batchId: int, timeout: int): seq<Event>
    requires Feasible(calls, batchId, timeout)
  {
    if call.MatchEvents? then
      MatchAll(Run(calls, batchId, timeout).cache, Run(calls, batchId, timeout).events, timeout).results
    else []
  }

  lemma RunSnoc(calls: seq<Call>, call: Call, batchId: int, timeout: int)
    requires Feasible(calls, batchId, timeout) && Possible(Run(calls, batchId, timeout), call)
    ensures Feasible(calls + [call], batchId, timeout)
    ensures Run(calls + [call], batchId, timeout) == Next(Run(calls, batchId, timeout), call, timeout)
    ensures Returned(calls + [call], batchId, timeout) ==
            Returned(calls, batchId, timeout) + ResultsOf(calls, call, batchId, timeout)
    ensures AllConfirmationTimes(calls + [call]) ==
            AllConfirmationTimes(calls) + if call.LoadConfirmations? then ConfirmationTimes(call.cons) else []
    ensures AllEventTimes(calls + [call]) == AllEventTimes(calls) + if call.LoadEvents? then EventTimes(call.batch) else []
  {
    assert (calls + [call])[..|calls|] == calls;
  }

  lemma IdsSnoc(events: seq<Event>, e: Event)
    ensures Ids(events + [e]) == Ids(events) + {e.batchId}
  {
    var all := events + [e];
    forall b | b in Ids(events) + {e.batchId} ensures b in Ids(all) {
      if b == e.batchId {
        assert all[|events|].batchId == b;
      } else {
        var i :| 0 <= i < |events| && events[i].batchId == b;
        assert all[i].batchId == b;
      }
    }
  }

  /** The list comprehensions of the two evictions. */
  method KeepOthers<T>(s: seq<T>, keep: T -> bool) returns (kept: seq<T>)
    ensures kept == Filter(s, keep)
  {
    kept := [];
    for i := 0 to |s|
      invariant kept == Filter(s[..i], keep)
    {
      assert s[..i + 1] == s[..i] + [s[i]];
      FilterSnoc(s[..i], s[i], keep);
      if keep(s[i]) {
        kept := kept + [s[i]];
      }
    }
    assert s[..|s|] == s;
  }

  /** `list(ids)`: any order. */
  method ListOf<T(==)>(ids: set<T>) returns (list: seq<T>)
    ensures NoDuplicates(list) && Elements(list) == ids
  {
    list := [];
    var todo := ids;
    while todo != {}
      invariant NoDuplicates(list) && todo <= ids && Elements(list) == ids - todo
    {
      var id :| id in todo;
      forall i | 0 <= i < |list| ensures list[i] != id {
        assert list[i] in Elements(list);
      }
      ElementsConcat(list, [id]);
      assert [id][0] in Elements([id]);
      assert Elements([id]) == {id};
      list, todo := list + [id], todo - {id};
    }
  }

  /** The list of `u` is filtered, and noted if it became empty, unless it is still to do. */
  ghost predicate EvictedAt(d: Cache, e: Cache, todo: set<Word>, emptyKeys: set<Word>, b: int, u: Word) {
    (u in e <==> u in d) && (u in emptyKeys ==> u in e) &&
    (u in e && u in todo ==> e[u] == d[u] && u !in emptyKeys) &&
    (u in e && u !in todo ==> e[u] == Filter(d[u], OtherBatch(b)) && (u in emptyKeys <==> e[u] == []))
  }

  lemma EvictedEverywhere(d: Cache, e: Cache, emptyKeys: set<Word>, b: int)
    requires exists f: Cache :: e == f - emptyKeys && forall u :: EvictedAt(d, f, {}, emptyKeys, b, u)
    ensures e == EvictCache(d, b)
  {
    var f: Cache :| e == f - emptyKeys && forall u :: EvictedAt(d, f, {}, emptyKeys, b, u);
    forall u: Word ensures u in e <==> u in EvictCache(d, b) {
      assert EvictedAt(d, f, {}, emptyKeys, b, u);
    }
    forall u: Word | u in e ensures e[u] == EvictCache(d, b)[u] {
      assert EvictedAt(d, f, {}, emptyKeys, b, u);
    }
  }

  class ConfirmationMatcher {
    var ccache: Cache
    var ecache: seq<Event>
    var ccnt: int
    var cts: Option<nat>
    var ets: Option<nat>
    var batchIdOrder: seq<int>
    var observedBatchIds: set<int>
    const probeTimeout: int
    /** The batch the readers start with. */
    ghost const firstId: int
    /** Every call so far. */
    ghost var calls: seq<Call>

    ghost function Now(): State
      reads `ccache, `ecache, `batchIdOrder, `observedBatchIds
    {
      State(ccache, ecache, batchIdOrder, observedBatchIds)
    }

    ghost predicate Valid()
      reads this
    {
      Feasible(calls, firstId, probeTimeout) && Now() == Run(calls, firstId, probeTimeout) &&
      ccnt == Total(ccache) &&
      cts == NewestOf(None, AllConfirmationTimes(calls)) && ets == NewestOf(None, AllEventTimes(calls))
    }

    constructor (batchId: int, timeout: int)
      ensures Valid() && calls == [] && firstId == batchId && probeTimeout == timeout
    {
      ccache, ecache, ccnt := map[], [], 0;
      cts, ets := None, None;
      batchIdOrder := [batchId - 1, batchId];
      observedBatchIds := {batchId - 1, batchId};
      probeTimeout := timeout;
      firstId := batchId;
      calls := [];
    }

    /** All events returned so far. */
    ghost function AllReturned(): seq<Event>
      reads `calls
      requires Feasible(calls, firstId, probeTimeout)
    {
      Returned(calls, firstId, probeTimeout)
    }

    /** Notes a call whose effect is in the fields. */
    ghost method Advance(call: Call)
      requires Feasible(calls, firstId, probeTimeout) && Possible(Run(calls, firstId, probeTimeout), call)
      requires Now() == Next(Run(calls, firstId, probeTimeout), call, probeTimeout)
      requires ccnt == Total(ccache)
      requires cts == NewestOf(NewestOf(None, AllConfirmationTimes(calls)),
                               if call.LoadConfirmations? then ConfirmationTimes(call.cons) else [])
      requires ets == NewestOf(NewestOf(None, AllEventTimes(calls)), if call.LoadEvents? then EventTimes(call.batch) else [])
      modifies `calls
      ensures Valid() && calls == old(calls) + [call]
      ensures AllReturned() == old(AllReturned()) + ResultsOf(old(calls), call, firstId, probeTimeout)
    {
      RunSnoc(calls, call, firstId, probeTimeout);
      NewestConcat(None, AllConfirmationTimes(calls), if call.LoadConfirmations? then ConfirmationTimes(call.cons) else []);
      NewestConcat(None, AllEventTimes(calls), if call.LoadEvents? then EventTimes(call.batch) else []);
      calls := calls + [call];
    }

    // -- confirmations --------------------------------------------------------------------------

    /** The loop of `load_confirmations`, one confirmation. */
    method AddConfirmation(con: Confirmation)
      modifies `ccache, `cts
      ensures ccache == old(ccache)[con.userid := Get(old(ccache), con.userid) + [con]]
      ensures cts == Later(old(cts), con.timestamp)
      ensures Total(ccache) == Total(old(ccache)) + 1
    {
      TotalUpdate(ccache, con.userid, Get(ccache, con.userid) + [con]);
      ccache := ccache[con.userid := Get(ccache, con.userid) + [con]];
      if cts.None? || cts.value < con.timestamp {
        cts := Some(con.timestamp);
      }
    }

    method AddConfirmations(confirmations: seq<Confirmation>)
      modifies `ccache, `cts
      ensures ccache == Load(old(ccache), confirmations)
      ensures cts == NewestOf(old(cts), ConfirmationTimes(confirmations))
      ensures Total(ccache) == Total(old(ccache)) + |confirmations|
    {
      var times := ConfirmationTimes(confirmations);
      for i := 0 to |confirmations|
        invariant ccache == Load(old(ccache), confirmations[..i])
        invariant cts == NewestOf(old(cts), times[..i])
        invariant Total(ccache) == Total(old(ccache)) + i
      {
        assert confirmations[..i + 1][..i] == confirmations[..i] && times[..i + 1][..i] == times[..i];
        AddConfirmation(confirmations[i]);
      }
      assert confirmations[..|confirmations|] == confirmations && times[..|times|] == times;
    }

    /** `load_confirmations`; `confirmations` is the reader's next batch. */
    method LoadConfirmationBatch(confirmations: seq<Confirmation>)
      requires Valid()
      modifies `ccache, `cts, `ccnt, `calls
      ensures Valid() && calls == old(calls) + [LoadConfirmations(confirmations)]
      ensures AllReturned() == old(AllReturned())
    {
      AddConfirmations(confirmations);
      ccnt := ccnt + |confirmations|;
      Advance(LoadConfirmations(confirmations));
    }

    /** `find_confirmation` for the request and the time stamp of `event`. */
    method FindConfirmation(pktTs: nat, req: ProbeRequest, ghost event: Event) returns (match': Option<Confirmation>)
      requires event.request == Some(req) && event.packet.timestamp == pktTs && CacheOk(ccache)
      modifies `ccache, `ccnt
      ensures var cons := Get(old(ccache), req.userid);
              var i := First(cons, Fitting(event, probeTimeout));
              if i < |cons| then match' == Some(cons[i]) && ccache == Without(old(ccache), req.userid, i) && ccnt == old(ccnt) - 1
              else match' == None && ccache == old(ccache) && ccnt == old(ccnt)
    {
      var uid := req.userid;
      // Reading a missing user id puts an empty list there.
      ccache := ccache[uid := Get(ccache, uid)];
      var confirmations := ccache[uid];
      var start := |ccache[uid]|;
      match' := None;
      var i := 0;
      while i < |confirmations| &&
            !(IsMatch(req, confirmations[i]) && Distance(confirmations[i].timestamp, pktTs) <= probeTimeout)
        invariant i <= |confirmations|
        invariant forall j :: 0 <= j < i ==> !Fitting(event, probeTimeout)(confirmations[j])
      {
        i := i + 1;
      }
      FirstUnique(confirmations, Fitting(event, probeTimeout), i);
      if i < |confirmations| {
        match' := Some(confirmations[i]);
        var before := |ccache[uid]|;
        assert start == before;
        confirmations := Delete(confirmations, i);
        ccache := ccache[uid := confirmations];
        var after := |ccache[uid]|;
        assert before == after + 1;
        ccnt := ccnt - 1;
      }
      if |confirmations| == 0 {
        ccache := ccache - {uid};
      }
    }

    // -- events ---------------------------------------------------------------------------------------

    method AddEvents(batch: seq<Event>)
      modifies `ecache, `ets
      ensures ecache == old(ecache) + batch
      ensures ets == NewestOf(old(ets), EventTimes(batch))
    {
      var times := EventTimes(batch);
      for i := 0 to |batch|
        invariant ets == NewestOf(old(ets), times[..i])
        invariant ecache == old(ecache)
      {
        assert times[..i + 1][..i] == times[..i];
        if ets.None? || ets.value < batch[i].packet.timestamp {
          ets := Some(batch[i].packet.timestamp);
        }
      }
      assert times[..|times|] == times;
      ecache := ecache + batch;
    }

    /** `load_events`; `batch` is the reader's next batch of fresh events. */
    method LoadEventBatch(batch: seq<Event>)
      requires Valid() && Unconfirmed(batch)
      modifies `ecache, `ets, `calls
      ensures Valid() && calls == old(calls) + [LoadEvents(batch)]
      ensures AllReturned() == old(AllReturned())
    {
      AddEvents(batch);
      Advance(LoadEvents(batch));
    }

    /** One turn of the loop of `match_events`. */
    method MatchEvent(event: Event, results: seq<Event>, unmatched: seq<Event>) returns (r: seq<Event>, u: seq<Event>)
      requires CacheOk(ccache) && event.confirmation.None?
      modifies `ccache, `ccnt
      ensures Matching(ccache, r, u) == MatchOne(Matching(old(ccache), results, unmatched), event, probeTimeout)
      ensures ccnt - Total(ccache) == old(ccnt) - Total(old(ccache))
    {
      r, u := results, unmatched;
      if event.request.Some? {
        var con := FindConfirmation(event.packet.timestamp, event.request.value, event);
        if con.Some? {
          WithoutTotal(old(ccache), event.request.value.userid,
                       First(Get(old(ccache), event.request.value.userid), Fitting(event, probeTimeout)));
          r := r + [event.(confirmation := con)];
        } else {
          u := u + [event];
        }
      } else {
        r := r + [event];
      }
    }

    method MatchCached() returns (results: seq<Event>, unmatched: seq<Event>, idsInBatch: set<int>)
      requires CacheOk(ccache) && Unconfirmed(ecache)
      modifies `ccache, `ccnt
      ensures Matching(ccache, results, unmatched) == MatchAll(old(ccache), ecache, probeTimeout)
      ensures ccnt - Total(ccache) == old(ccnt) - Total(old(ccache))
      ensures idsInBatch == Ids(ecache)
    {
      results, unmatched, idsInBatch := [], [], {};
      for i := 0 to |ecache|
        invariant Matching(ccache, results, unmatched) == MatchAll(old(ccache), ecache[..i], probeTimeout)
        invariant ccnt - Total(ccache) == old(ccnt) - Total(old(ccache))
        invariant idsInBatch == Ids(ecache[..i])
      {
        assert ecache[..i + 1][..i] == ecache[..i];
        IdsSnoc(ecache[..i], ecache[i]);
        assert ecache[..i + 1] == ecache[..i] + [ecache[i]];
        MatchAllOk(old(ccache), ecache[..i], probeTimeout);
        idsInBatch := idsInBatch + {ecache[i].batchId};
        results, unmatched := MatchEvent(ecache[i], results, unmatched);
      }
      assert ecache[..|ecache|] == ecache;
    }

    /** One list of `evict_confirmations`. */
    method EvictFrom(key: Word, batchId: int)
      requires key in ccache
      modifies `ccache, `ccnt
      ensures ccache == old(ccache)[key := Filter(old(ccache)[key], OtherBatch(batchId))]
      ensures ccnt - Total(ccache) == old(ccnt) - Total(old(ccache))
    {
      var confirmations := KeepOthers(ccache[key], OtherBatch(batchId));
      ccnt := ccnt - (|ccache[key]| - |confirmations|);
      TotalUpdate(ccache, key, confirmations);
      ccache := ccache[key := confirmations];
    }

    /** `evict_confirmations` */
    method EvictConfirmationBatch(batchId: int)
      modifies `ccache, `ccnt
      ensures ccache == EvictCache(old(ccache), batchId)
      ensures ccnt - Total(ccache) == old(ccnt) - Total(old(ccache))
    {
      var todo, emptyKeys: set<Word> := ccache.Keys, {};
      while todo != {}
        invariant todo <= ccache.Keys && ccnt - Total(ccache) == old(ccnt) - Total(old(ccache))
        invariant forall u :: EvictedAt(old(ccache), ccache, todo, emptyKeys, batchId, u)
      {
        var key :| key in todo;
        ghost var before, open, empty := ccache, todo, emptyKeys;
        assert EvictedAt(old(ccache), ccache, todo, emptyKeys, batchId, key);
        EvictFrom(key, batchId);
        if |ccache[key]| == 0 {
          emptyKeys := emptyKeys + {key};
        }
        todo := todo - {key};
        forall u ensures EvictedAt(old(ccache), ccache, todo, emptyKeys, batchId, u) {
          assert EvictedAt(old(ccache), before, open, empty, batchId, u);
        }
      }
      assert forall u :: u in emptyKeys ==> EvictedAt(old(ccache), ccache, todo, emptyKeys, batchId, u);
      DeleteEmpty(emptyKeys);
      EvictedEverywhere(old(ccache), ccache, emptyKeys, batchId);
    }

    method DeleteEmpty(emptyKeys: set<Word>)
      requires forall u :: u in emptyKeys ==> u in ccache && ccache[u] == []
      modifies `ccache
      ensures ccache == old(ccache) - emptyKeys && Total(ccache) == Total(old(ccache))
    {
      var todo := emptyKeys;
      while todo != {}
        invariant todo <= emptyKeys && ccache == old(ccache) - (emptyKeys - todo) && Total(ccache) == Total(old(ccache))
      {
        var key :| key in todo;
        TotalDelete(ccache, key);
        ccache, todo := ccache - {key}, todo - {key};
      }
    }

    /** The window of batch ids at a rollover. */
    method SlideWindow(oldestId: int) returns (newIds: seq<int>)
      requires batchIdOrder != [] && batchIdOrder[0] == oldestId
      modifies `batchIdOrder, `observedBatchIds
      ensures NoDuplicates(newIds) && Elements(newIds) == old(observedBatchIds) - Elements(old(batchIdOrder))
      ensures batchIdOrder == old(batchIdOrder)[1..] + newIds && observedBatchIds == old(observedBatchIds) - {oldestId}
    {
      newIds := ListOf(observedBatchIds - Elements(batchIdOrder));
      batchIdOrder := batchIdOrder + newIds;
      observedBatchIds := observedBatchIds - {oldestId};
      batchIdOrder := batchIdOrder[1..];
    }

    method EvictOldestBatch() returns (newIds: seq<int>)
      requires batchIdOrder != []
      modifies `ccache, `ccnt, `ecache, `batchIdOrder, `observedBatchIds
      ensures NoDuplicates(newIds) && Elements(newIds) == old(observedBatchIds) - Elements(old(batchIdOrder))
      ensures var b := old(batchIdOrder)[0];
              Now() == State(EvictCache(old(ccache), b), Filter(old(ecache), OtherBatchEvent(b)),
                             old(batchIdOrder)[1..] + newIds, old(observedBatchIds) - {b})
      ensures ccnt - Total(ccache) == old(ccnt) - Total(old(ccache))
    {
      var oldestId := batchIdOrder[0];
      EvictConfirmationBatch(oldestId);
      ecache := KeepOthers(ecache, OtherBatchEvent(oldestId));
      newIds := SlideWindow(oldestId);
    }

    /** The end of a pass: batch ids are noted, and a third one lets the oldest batch go. */
    method NoteBatches(unmatched: seq<Event>, idsInBatch: set<int>) returns (newIds: seq<int>)
      requires batchIdOrder != []
      modifies `ccache, `ccnt, `ecache, `batchIdOrder, `observedBatchIds
      ensures var b, seen := old(batchIdOrder)[0], old(observedBatchIds) + idsInBatch;
              if |seen| >= 3 then
                NoDuplicates(newIds) && Elements(newIds) == seen - Elements(old(batchIdOrder)) &&
                Now() == State(EvictCache(old(ccache), b), Filter(unmatched, OtherBatchEvent(b)), old(batchIdOrder)[1..] + newIds, seen - {b})
              else newIds == [] && Now() == State(old(ccache), unmatched, old(batchIdOrder), seen)
      ensures ccnt - Total(ccache) == old(ccnt) - Total(old(ccache))
    {
      ecache := unmatched;
      observedBatchIds := observedBatchIds + idsInBatch;
      newIds := [];
      if |observedBatchIds| >= 3 {
        newIds := EvictOldestBatch();
      }
    }

    method MatchAndEvict() returns (results: seq<Event>, newIds: seq<int>)
      requires Invariant(Now()) && ccnt == Total(ccache)
      modifies `ccache, `ecache, `ccnt, `batchIdOrder, `observedBatchIds
      ensures Possible(old(Now()), MatchEvents(newIds)) && Now() == Next(old(Now()), MatchEvents(newIds), probeTimeout)
      ensures results == MatchAll(old(ccache), old(ecache), probeTimeout).results
      ensures ccnt == Total(ccache)
    {
      var unmatched, idsInBatch;
      results, unmatched, idsInBatch := MatchCached();
      newIds := NoteBatches(unmatched, idsInBatch);
    }

    /** `match_events` */
    method MatchEventsPass() returns (results: seq<Event>, ghost newIds: seq<int>)
      requires Valid()
      modifies `ccache, `ecache, `ccnt, `batchIdOrder, `observedBatchIds, `calls
      ensures Valid() && calls == old(calls) + [MatchEvents(newIds)]
      ensures results == MatchAll(old(ccache), old(ecache), probeTimeout).results
      ensures AllReturned() == old(AllReturned()) + results
    {
      results, newIds := MatchAndEvict();
      Advance(MatchEvents(newIds));
    }
  }
}
