/** The confirmation matcher after every sequence of calls. */
module ConfirmationRuns {
  import opened Collections
  import opened Events
  import opened Confirmations

  // -- calls ---------------------------------------------------------------------------------

  datatype State = State(cache: Cache, events: seq<Event>, order: seq<int>, observed: set<int>)

  /** `newIds` is the order in which a pass lists the batch ids it meets first. */
  datatype Call =
    | LoadConfirmations(cons: seq<Confirmation>)
    | LoadEvents(batch: seq<Event>)
    | MatchEvents(newIds: seq<int>)

  /** The readers have opened their first file already. */
  function Initial(batchId: int): State {
    State(map[], [], [batchId - 1, batchId], {batchId - 1, batchId})
  }

  function Load(cache: Cache, cons: seq<Confirmation>): Cache {
    if cons == [] then cache
    else
      var before := Load(cache, cons[..|cons| - 1]);
      var con := cons[|cons| - 1];
      before[con.userid := Get(before, con.userid) + [con]]
  }

  function OtherBatch(b: int): Confirmation -> bool {
    (con: Confirmation) => con.batchId != b
  }

  function EvictCache(cache: Cache, b: int): Cache {
    map u | u in cache && Filter(cache[u], OtherBatch(b)) != [] :: Filter(cache[u], OtherBatch(b))
  }

  function OtherBatchEvent(b: int): Event -> bool {
    (e: Event) => e.batchId != b
  }

  function Ids(events: seq<Event>): set<int> {
    set i | 0 <= i < |events| :: events[i].batchId
  }

  /** A third batch id has shown up: the oldest batch goes. */
  predicate RollsOver(s: State) {
    |s.observed + Ids(s.events)| >= 3
  }

  /** Unmatched data of batch `b` leaves after the pass `m`. */
  function EvictOldest(s: State, m: Matching, newIds: seq<int>): State
    requires s.order != []
  {
    var b := s.order[0];
    State(EvictCache(m.cache, b), Filter(m.unmatched, OtherBatchEvent(b)),
          s.order[1..] + newIds, s.observed + Ids(s.events) - {b})
  }

  predicate Possible(s: State, call: Call) {
    match call
    case LoadConfirmations(_) => true
    case LoadEvents(batch) => Unconfirmed(batch)
    case MatchEvents(newIds) =>
      NoDuplicates(newIds) &&
      Elements(newIds) == if RollsOver(s) then s.observed + Ids(s.events) - Elements(s.order) else {}
  }

  function Next(s: State, call: Call, timeout: int): State
    requires s.order != []
  {
    match call
    case LoadConfirmations(cons) => s.(cache := Load(s.cache, cons))
    case LoadEvents(batch) => s.(events := s.events + batch)
    case MatchEvents(newIds) =>
      var m := MatchAll(s.cache, s.events, timeout);
      if RollsOver(s) then EvictOldest(s, m, newIds)
      else s.(cache := m.cache, events := m.unmatched, observed := s.observed + Ids(s.events))
  }

  // -- reachable states ------------------------------------------------------------------------

  /** `order` lists the observed ids once each, and never fewer than two. */
  predicate Window(s: State) {
    Elements(s.order) == s.observed && NoDuplicates(s.order) && |s.order| >= 2
  }

  predicate Invariant(s: State) {
    Window(s) && CacheOk(s.cache) && Unconfirmed(s.events)
  }

  predicate Feasible(calls: seq<Call>, batchId: int, timeout: int)
    decreases |calls|, 0
  {
    calls == [] ||
    (var n := |calls| - 1;
     Feasible(calls[..n], batchId, timeout) && Possible(Run(calls[..n], batchId, timeout), calls[n]))
  }

  function Run(calls: seq<Call>, batchId: int, timeout: int): (s: State)
    requires Feasible(calls, batchId, timeout)
    ensures Invariant(s)
    decreases |calls|, 1
  {
    if calls == [] then InitialInvariant(batchId); Initial(batchId)
    else
      var n := |calls| - 1;
      var s := Run(calls[..n], batchId, timeout);
      NextKeepsInvariant(s, calls[n], timeout);
      Next(s, calls[n], timeout)
  }

  lemma InitialInvariant(batchId: int)
    ensures Invariant(Initial(batchId))
  {
    var s := Initial(batchId);
    assert s.order[0] in Elements(s.order) && s.order[1] in Elements(s.order);
  }

  lemma {:induction false} LoadOk(cache: Cache, cons: seq<Confirmation>)
    requires CacheOk(cache)
    ensures CacheOk(Load(cache, cons))
  {
    if cons != [] {
      LoadOk(cache, cons[..|cons| - 1]);
    }
  }

  lemma EvictCacheOk(cache: Cache, b: int)
    requires CacheOk(cache)
    ensures CacheOk(EvictCache(cache, b))
  {
    var d: Cache := EvictCache(cache, b);
    forall u: Word, i: int | u in d && 0 <= i < |d[u]| ensures d[u][i].userid == u {
      FilterMembers(cache[u], OtherBatch(b));
      assert d[u][i] in cache[u];
    }
  }

  lemma PairElements(order: seq<int>)
    requires |order| == 2
    ensures |Elements(order)| <= 2
  {
    assert order[0] in Elements(order) && order[1] in Elements(order);
    assert Elements(order) == {order[0], order[1]};
  }

  lemma SameUnlessNew(order: seq<int>, newIds: seq<int>, observed: set<int>)
    requires Elements(order) <= observed && Elements(newIds) == observed - Elements(order)
    ensures newIds == [] ==> observed == Elements(order)
  {
    if newIds == [] {
      forall x | x in observed ensures x in Elements(order) {
        assert x !in Elements(newIds);
      }
    }
  }

  /** Three ids are observed, so that new ids come in if there were only two. */
  lemma StaysTwo(order: seq<int>, newIds: seq<int>, observed: set<int>)
    requires Elements(order) <= observed && |order| >= 2 && |observed| >= 3
    requires Elements(newIds) == observed - Elements(order)
    ensures |order| == 2 ==> newIds != []
  {
    if |order| == 2 {
      PairElements(order);
      SameUnlessNew(order, newIds, observed);
    }
  }

  lemma FirstLeaves(order: seq<int>)
    requires NoDuplicates(order) && order != []
    ensures Elements(order[1..]) == Elements(order) - {order[0]}
  {
    var b := order[0];
    assert order == [b] + order[1..];
    ElementsConcat([b], order[1..]);
    assert [b][0] in Elements([b]);
    forall x | x in Elements(order[1..]) ensures x != b {
      var i :| 0 <= i < |order[1..]| && order[1..][i] == x;
      assert order[i + 1] == x;
    }
  }

  /** Sliding the window: the oldest id leaves, ids seen for the first time join at the end. */
  lemma WindowSlides(order: seq<int>, newIds: seq<int>, observed: set<int>)
    requires Elements(order) <= observed && NoDuplicates(order) && |order| >= 2 && |observed| >= 3
    requires NoDuplicates(newIds) && Elements(newIds) == observed - Elements(order)
    ensures var after := order[1..] + newIds;
            Elements(after) == observed - {order[0]} && NoDuplicates(after) && |after| >= 2
  {
    var after := order[1..] + newIds;
    FirstLeaves(order);
    ElementsConcat(order[1..], newIds);
    StaysTwo(order, newIds, observed);
    assert order[0] in Elements(order);
    forall i, j | 0 <= i < j < |after| ensures after[i] != after[j] {
      if i < |order| - 1 <= j {
        assert order[i + 1] in Elements(order);
        assert newIds[j - (|order| - 1)] in Elements(newIds);
      }
    }
  }

  lemma MatchKeepsInvariant(s: State, newIds: seq<int>, timeout: int)
    requires Invariant(s) && Possible(s, MatchEvents(newIds))
    ensures Invariant(Next(s, MatchEvents(newIds), timeout))
  {
    var m := MatchAll(s.cache, s.events, timeout);
    var observed := s.observed + Ids(s.events);
    MatchAllOk(s.cache, s.events, timeout);
    KeptStayUnconfirmed(s.cache, s.events, timeout);
    if RollsOver(s) {
      EvictCacheOk(m.cache, s.order[0]);
      WindowSlides(s.order, newIds, observed);
      FilterMembers(m.unmatched, OtherBatchEvent(s.order[0]));
    } else {
      NothingNew(s);
    }
  }

  /** Two ids are observed from the start, so that two is all there are before a rollover. */
  lemma NothingNew(s: State)
    requires Window(s) && !RollsOver(s)
    ensures s.observed + Ids(s.events) == s.observed
  {
    var two := {s.order[0], s.order[1]};
    assert s.order[0] in Elements(s.order) && s.order[1] in Elements(s.order);
    assert |two| == 2;
    assert two <= s.observed + Ids(s.events);
    SameSize(two, s.observed + Ids(s.events));
  }

  lemma SameSize(s: set<int>, t: set<int>)
    requires s <= t && |t| <= |s|
    ensures s == t
  {
    assert |t - s| == |t| - |s|;
  }

  lemma NextKeepsInvariant(s: State, call: Call, timeout: int)
    requires Invariant(s) && Possible(s, call)
    ensures Invariant(Next(s, call, timeout))
  {
    match call
    case LoadConfirmations(cons) => LoadOk(s.cache, cons);
    case LoadEvents(_) =>
    case MatchEvents(newIds) => MatchKeepsInvariant(s, newIds, timeout);
  }

  // -- what is returned and what is evicted --------------------------------------------------------

  /** All events returned by `match_events` so far. */
  function Returned(calls: seq<Call>, batchId: int, timeout: int): seq<Event>
    requires Feasible(calls, batchId, timeout)
  {
    if calls == [] then []
    else
      var n := |calls| - 1;
      var s := Run(calls[..n], batchId, timeout);
      Returned(calls[..n], batchId, timeout) +
      if calls[n].MatchEvents? then MatchAll(s.cache, s.events, timeout).results else []
  }

  function LoadedEvents(calls: seq<Call>, x: Event): nat {
    if calls == [] then 0
    else
      var n := |calls| - 1;
      LoadedEvents(calls[..n], x) + if calls[n].LoadEvents? then multiset(calls[n].batch)[x] else 0
  }

  function LoadedConfirmations(calls: seq<Call>, con: Confirmation): nat {
    if calls == [] then 0
    else
      var n := |calls| - 1;
      LoadedConfirmations(calls[..n], con) + if calls[n].LoadConfirmations? then multiset(calls[n].cons)[con] else 0
  }

  /** The call throws away what is left of batch `b`. */
  predicate Evicts(s: State, call: Call, b: int) {
    call.MatchEvents? && RollsOver(s) && s.order != [] && s.order[0] == b
  }

  function EvictedEvents(calls: seq<Call>, batchId: int, timeout: int, x: Event): nat
    requires Feasible(calls, batchId, timeout)
  {
    if calls == [] then 0
    else
      var n := |calls| - 1;
      var s := Run(calls[..n], batchId, timeout);
      EvictedEvents(calls[..n], batchId, timeout, x) +
      if Evicts(s, calls[n], x.batchId) then multiset(MatchAll(s.cache, s.events, timeout).unmatched)[x] else 0
  }

  function EvictedConfirmations(calls: seq<Call>, batchId: int, timeout: int, con: Confirmation): nat
    requires Feasible(calls, batchId, timeout)
  {
    if calls == [] then 0
    else
      var n := |calls| - 1;
      var s := Run(calls[..n], batchId, timeout);
      EvictedConfirmations(calls[..n], batchId, timeout, con) +
      if Evicts(s, calls[n], con.batchId) then Cached(MatchAll(s.cache, s.events, timeout).cache, con) else 0
  }

  // -- conservation over runs -------------------------------------------------------------------------

  lemma {:induction false} LoadCached(cache: Cache, cons: seq<Confirmation>, con: Confirmation)
    ensures Cached(Load(cache, cons), con) == Cached(cache, con) + multiset(cons)[con]
  {
    if cons != [] {
      var n := |cons| - 1;
      LoadCached(cache, cons[..n], con);
      CountLast(cons, con);
      CountSnoc(Get(Load(cache, cons[..n]), cons[n].userid), cons[n], con);
    }
  }

  lemma EvictCacheCached(cache: Cache, b: int, con: Confirmation)
    ensures Cached(EvictCache(cache, b), con) == if con.batchId == b then 0 else Cached(cache, con)
  {
    FilterMultiset(Get(cache, con.userid), OtherBatch(b), con);
  }

  /** A pass, with its eviction, neither loses nor doubles an event. */
  lemma MatchConservesEvents(s: State, newIds: seq<int>, timeout: int, x: Event)
    requires Invariant(s) && Possible(s, MatchEvents(newIds))
    ensures var m := MatchAll(s.cache, s.events, timeout);
            multiset(Next(s, MatchEvents(newIds), timeout).events)[x] + multiset(Bares(m.results))[x] +
            (if Evicts(s, MatchEvents(newIds), x.batchId) then multiset(m.unmatched)[x] else 0) == multiset(s.events)[x]
  {
    PassConservesEvents(s.cache, s.events, timeout, x);
    FilterMultiset(MatchAll(s.cache, s.events, timeout).unmatched, OtherBatchEvent(s.order[0]), x);
  }

  lemma MatchConservesConfirmations(s: State, newIds: seq<int>, timeout: int, con: Confirmation)
    requires Invariant(s) && Possible(s, MatchEvents(newIds))
    ensures var m := MatchAll(s.cache, s.events, timeout);
            Cached(Next(s, MatchEvents(newIds), timeout).cache, con) + multiset(Assigned(m.results))[con] +
            (if Evicts(s, MatchEvents(newIds), con.batchId) then Cached(m.cache, con) else 0) == Cached(s.cache, con)
  {
    PassConservesConfirmations(s.cache, s.events, timeout, con);
    EvictCacheCached(MatchAll(s.cache, s.events, timeout).cache, s.order[0], con);
  }

  /** After any run every loaded event was returned, is cached, or was evicted, each exactly
      as often as it was loaded. */
  lemma {:induction false} EventsAreConserved(calls: seq<Call>, batchId: int, timeout: int, x: Event)
    requires Feasible(calls, batchId, timeout)
    ensures multiset(Bares(Returned(calls, batchId, timeout)))[x] + multiset(Run(calls, batchId, timeout).events)[x] +
            EvictedEvents(calls, batchId, timeout, x) == LoadedEvents(calls, x)
  {
    if calls != [] {
      var n := |calls| - 1;
      var s := Run(calls[..n], batchId, timeout);
      EventsAreConserved(calls[..n], batchId, timeout, x);
      assert Returned(calls[..n], batchId, timeout) + [] == Returned(calls[..n], batchId, timeout);
      match calls[n]
      case LoadConfirmations(_) =>
      case LoadEvents(batch) => CountConcat(s.events, batch, x);
      case MatchEvents(newIds) =>
        var results := MatchAll(s.cache, s.events, timeout).results;
        MatchConservesEvents(s, newIds, timeout, x);
        BaresConcat(Returned(calls[..n], batchId, timeout), results);
        CountConcat(Bares(Returned(calls[..n], batchId, timeout)), Bares(results), x);
    }
  }

  /** After any run every loaded confirmation was assigned to an event, is cached, or was
      evicted, each exactly as often as it was loaded; none is assigned twice. */
  lemma {:induction false} ConfirmationsAreConserved(calls: seq<Call>, batchId: int, timeout: int, con: Confirmation)
    requires Feasible(calls, batchId, timeout)
    ensures multiset(Assigned(Returned(calls, batchId, timeout)))[con] + Cached(Run(calls, batchId, timeout).cache, con) +
            EvictedConfirmations(calls, batchId, timeout, con) == LoadedConfirmations(calls, con)
  {
    if calls != [] {
      var n := |calls| - 1;
      var s := Run(calls[..n], batchId, timeout);
      ConfirmationsAreConserved(calls[..n], batchId, timeout, con);
      assert Returned(calls[..n], batchId, timeout) + [] == Returned(calls[..n], batchId, timeout);
      match calls[n]
      case LoadConfirmations(cons) => LoadCached(s.cache, cons, con);
      case LoadEvents(_) =>
      case MatchEvents(newIds) =>
        var results := MatchAll(s.cache, s.events, timeout).results;
        MatchConservesConfirmations(s, newIds, timeout, con);
        BaresConcat(Returned(calls[..n], batchId, timeout), results);
        CountConcat(Assigned(Returned(calls[..n], batchId, timeout)), Assigned(results), con);
    }
  }

  /** Every event ever returned was not probed or carries a confirmation that fits it. */
  lemma {:induction false} ReturnedAreSound(calls: seq<Call>, batchId: int, timeout: int)
    requires Feasible(calls, batchId, timeout)
    ensures forall i :: 0 <= i < |Returned(calls, batchId, timeout)| ==>
              SoundResult(Returned(calls, batchId, timeout)[i], timeout)
  {
    if calls != [] {
      var n := |calls| - 1;
      var s := Run(calls[..n], batchId, timeout);
      ReturnedAreSound(calls[..n], batchId, timeout);
      ResultsAreSound(s.cache, s.events, timeout);
    }
  }

  lemma EvictCacheKeepsHopeless(cache: Cache, b: int, e: Event, timeout: int)
    requires Hopeless(cache, e, timeout)
    ensures Hopeless(EvictCache(cache, b), e, timeout)
  {
    var d: Cache := EvictCache(cache, b);
    forall u: Word, i: int | u in d && 0 <= i < |d[u]| ensures !Fits(e, d[u][i], timeout) {
      FilterMembers(cache[u], OtherBatch(b));
      assert d[u][i] in cache[u];
    }
  }

  /** Right after `match_events`, eviction included, no waiting event fits a cached confirmation. */
  lemma MatchSaturates(s: State, newIds: seq<int>, timeout: int)
    requires Invariant(s) && Possible(s, MatchEvents(newIds))
    ensures var t := Next(s, MatchEvents(newIds), timeout);
            AllHopeless(t.cache, t.events, timeout)
  {
    var m := MatchAll(s.cache, s.events, timeout);
    MatchAllSaturates(s.cache, s.events, timeout);
    if RollsOver(s) {
      var b := s.order[0];
      var kept := Filter(m.unmatched, OtherBatchEvent(b));
      FilterMembers(m.unmatched, OtherBatchEvent(b));
      forall j | 0 <= j < |kept| ensures kept[j].request.Some? && Hopeless(EvictCache(m.cache, b), kept[j], timeout) {
        assert kept[j] in m.unmatched;
        EvictCacheKeepsHopeless(m.cache, b, kept[j], timeout);
      }
    }
  }

  /** After a rollover nothing of the evicted batch is left, and its id is not observed. */
  lemma RolloverRemovesBatch(s: State, newIds: seq<int>, timeout: int, x: Event, con: Confirmation)
    requires Invariant(s) && Possible(s, MatchEvents(newIds)) && RollsOver(s)
    requires x.batchId == con.batchId == s.order[0]
    ensures var t := Next(s, MatchEvents(newIds), timeout);
            x !in t.events && Cached(t.cache, con) == 0 && s.order[0] !in t.order
  {
    var m := MatchAll(s.cache, s.events, timeout);
    var t := Next(s, MatchEvents(newIds), timeout);
    MatchKeepsInvariant(s, newIds, timeout);
    FilterMembers(m.unmatched, OtherBatchEvent(s.order[0]));
    EvictCacheCached(m.cache, s.order[0], con);
    ElementsMember(t.order, s.order[0]);
  }
}
