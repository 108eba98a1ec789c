/** Matching logged probe confirmations to events: what one pass assigns, what an
    eviction removes, and what every sequence of calls conserves. */
module Confirmations {
  import opened Collections
  import opened Events

  // -- one event --------------------------------------------------------------------------

  /** `is_match`: all six key fields. */
  predicate IsMatch(req: ProbeRequest, con: Confirmation) {
    req.saddr == con.src && req.daddr == con.dst && req.sport == con.sport && req.dport == con.dport &&
    req.probeMethod == con.probeMethod && req.userid == con.userid
  }

  function Distance(a: nat, b: nat): nat {
    if a > b then a - b else b - a
  }

  /** `con` may confirm the probe made for `e`. */
  predicate Fits(e: Event, con: Confirmation, timeout: int) {
    e.request.Some? && IsMatch(e.request.value, con) && Distance(con.timestamp, e.packet.timestamp) <= timeout
  }

  function Fitting(e: Event, timeout: int): Confirmation -> bool {
    con => Fits(e, con, timeout)
  }

  type Cache = map<Word, seq<Confirmation>>

  /** Lists are never empty and hold the confirmations of their user id. */
  predicate CacheOk(cache: Cache) {
    forall u :: u in cache ==> cache[u] != [] && forall i :: 0 <= i < |cache[u]| ==> cache[u][i].userid == u
  }

  /** The cache without entry `i` of `u`. */
  function Without(cache: Cache, u: Word, i: nat): Cache
    requires i < |Get(cache, u)|
  {
    if |cache[u]| == 1 then cache - {u} else cache[u := Delete(cache[u], i)]
  }

  datatype Matching = Matching(cache: Cache, results: seq<Event>, unmatched: seq<Event>)

  /** One turn of the loop in `match_events`: the oldest fitting confirmation is taken. */
  function MatchOne(m: Matching, e: Event, timeout: int): Matching {
    if e.request.None? then m.(results := m.results + [e])
    else
      var u := e.request.value.userid;
      var cons := Get(m.cache, u);
      var i := First(cons, Fitting(e, timeout));
      if i < |cons| then
        m.(cache := Without(m.cache, u, i), results := m.results + [e.(confirmation := Some(cons[i]))])
      else m.(unmatched := m.unmatched + [e])
  }

  function MatchAll(cache: Cache, events: seq<Event>, timeout: int): Matching {
    if events == [] then Matching(cache, [], [])
    else MatchOne(MatchAll(cache, events[..|events| - 1], timeout), events[|events| - 1], timeout)
  }

  lemma WithoutOk(cache: Cache, u: Word, i: nat)
    requires CacheOk(cache) && i < |Get(cache, u)|
    ensures CacheOk(Without(cache, u, i))
  {
    if |cache[u]| > 1 {
      assert forall j :: 0 <= j < |Delete(cache[u], i)| ==> Delete(cache[u], i)[j] in cache[u];
    }
  }

  lemma {:induction false} MatchAllOk(cache: Cache, events: seq<Event>, timeout: int)
    requires CacheOk(cache)
    ensures CacheOk(MatchAll(cache, events, timeout).cache)
  {
    if events != [] {
      var n := |events| - 1;
      var e := events[n];
      var m := MatchAll(cache, events[..n], timeout);
      MatchAllOk(cache, events[..n], timeout);
      if e.request.Some? {
        var u := e.request.value.userid;
        var i := First(Get(m.cache, u), Fitting(e, timeout));
        if i < |Get(m.cache, u)| {
          WithoutOk(m.cache, u, i);
        }
      }
    }
  }

  // -- soundness and saturation ------------------------------------------------------------------

  /** A returned event was not probed, or carries a confirmation that fits it. */
  predicate SoundResult(e: Event, timeout: int) {
    if e.request.None? then true
    else e.confirmation.Some? && Fits(e, e.confirmation.value, timeout)
  }

  lemma {:induction false} ResultsAreSound(cache: Cache, events: seq<Event>, timeout: int)
    ensures forall i :: 0 <= i < |MatchAll(cache, events, timeout).results| ==>
              SoundResult(MatchAll(cache, events, timeout).results[i], timeout)
  {
    if events != [] {
      ResultsAreSound(cache, events[..|events| - 1], timeout);
    }
  }

  /** Nothing in the cache fits `e`. */
  predicate Hopeless(cache: Cache, e: Event, timeout: int) {
    forall u, i :: u in cache && 0 <= i < |cache[u]| ==> !Fits(e, cache[u][i], timeout)
  }

  lemma WithoutKeepsHopeless(cache: Cache, u: Word, i: nat, e: Event, timeout: int)
    requires i < |Get(cache, u)| && Hopeless(cache, e, timeout)
    ensures Hopeless(Without(cache, u, i), e, timeout)
  {
    var d := Without(cache, u, i);
    forall v, j | v in d && 0 <= j < |d[v]| ensures !Fits(e, d[v][j], timeout) {
      if v == u {
        assert d[v][j] == if j < i then cache[u][j] else cache[u][j + 1];
      } else {
        assert d[v] == cache[v];
      }
    }
  }

  lemma NotFoundIsHopeless(cache: Cache, e: Event, timeout: int)
    requires CacheOk(cache) && e.request.Some?
    requires First(Get(cache, e.request.value.userid), Fitting(e, timeout)) == |Get(cache, e.request.value.userid)|
    ensures Hopeless(cache, e, timeout)
  {
    forall u, i | u in cache && 0 <= i < |cache[u]| ensures !Fits(e, cache[u][i], timeout) {
      if u == e.request.value.userid {
        assert !Fitting(e, timeout)(cache[u][i]);
      }
    }
  }

  /** No event of `left` is unprobed or fits a confirmation of the cache. */
  predicate AllHopeless(cache: Cache, left: seq<Event>, timeout: int) {
    forall j :: 0 <= j < |left| ==> left[j].request.Some? && Hopeless(cache, left[j], timeout)
  }

  lemma MatchOneSaturates(m: Matching, e: Event, timeout: int)
    requires CacheOk(m.cache) && AllHopeless(m.cache, m.unmatched, timeout)
    ensures AllHopeless(MatchOne(m, e, timeout).cache, MatchOne(m, e, timeout).unmatched, timeout)
  {
    if e.request.Some? {
      var u := e.request.value.userid;
      var i := First(Get(m.cache, u), Fitting(e, timeout));
      if i < |Get(m.cache, u)| {
        forall j | 0 <= j < |m.unmatched| ensures Hopeless(Without(m.cache, u, i), m.unmatched[j], timeout) {
          WithoutKeepsHopeless(m.cache, u, i, m.unmatched[j], timeout);
        }
      } else {
        NotFoundIsHopeless(m.cache, e, timeout);
      }
    }
  }

  /** Saturation: after a pass no event left in the cache fits a confirmation left in the cache. */
  lemma {:induction false} MatchAllSaturates(cache: Cache, events: seq<Event>, timeout: int)
    requires CacheOk(cache)
    ensures AllHopeless(MatchAll(cache, events, timeout).cache, MatchAll(cache, events, timeout).unmatched, timeout)
  {
    if events != [] {
      var n := |events| - 1;
      MatchAllSaturates(cache, events[..n], timeout);
      MatchAllOk(cache, events[..n], timeout);
      MatchOneSaturates(MatchAll(cache, events[..n], timeout), events[n], timeout);
    }
  }

  // -- conservation of one pass -----------------------------------------------------------------------

  /** The event as it was loaded. */
  function Bare(e: Event): Event {
    e.(confirmation := None)
  }

  function Bares(events: seq<Event>): seq<Event> {
    if events == [] then [] else Bares(events[..|events| - 1]) + [Bare(events[|events| - 1])]
  }

  /** The confirmations the events carry. */
  function Assigned(events: seq<Event>): seq<Confirmation> {
    if events == [] then []
    else
      var e := events[|events| - 1];
      Assigned(events[..|events| - 1]) + if e.confirmation.Some? then [e.confirmation.value] else []
  }

  lemma {:induction false} BaresConcat(s: seq<Event>, t: seq<Event>)
    ensures Bares(s + t) == Bares(s) + Bares(t)
    ensures Assigned(s + t) == Assigned(s) + Assigned(t)
  {
    if t == [] {
      assert s + t == s;
    } else {
      assert (s + t)[..|s + t| - 1] == s + t[..|t| - 1];
      BaresConcat(s, t[..|t| - 1]);
    }
  }

  /** Copies of `con` in the cache. */
  function Cached(cache: Cache, con: Confirmation): nat {
    multiset(Get(cache, con.userid))[con]
  }

  lemma WithoutCached(cache: Cache, u: Word, i: nat, con: Confirmation)
    requires CacheOk(cache) && i < |Get(cache, u)|
    ensures Cached(Without(cache, u, i), con) == Cached(cache, con) - if con == cache[u][i] then 1 else 0
  {
    assert cache[u][i].userid == u;
    DeleteMultiset(cache[u], i);
    if u == con.userid && |cache[u]| == 1 {
      assert cache[u] == [cache[u][0]];
    }
  }

  predicate Unconfirmed(events: seq<Event>) {
    forall i :: 0 <= i < |events| ==> events[i].confirmation.None?
  }

  lemma ResultsSnoc(results: seq<Event>, e: Event)
    ensures Bares(results + [e]) == Bares(results) + [Bare(e)]
    ensures Assigned(results + [e]) == Assigned(results) + if e.confirmation.Some? then [e.confirmation.value] else []
  {
    assert (results + [e])[..|results|] == results;
  }

  /** Copies of the event `x` among the returned and the kept ones. */
  function Placed(m: Matching, x: Event): nat {
    multiset(Bares(m.results))[x] + multiset(m.unmatched)[x]
  }

  lemma MatchOnePlaces(m: Matching, e: Event, timeout: int, x: Event)
    requires e.confirmation.None?
    ensures Placed(MatchOne(m, e, timeout), x) == Placed(m, x) + AsNat(e == x)
  {
    var p := MatchOne(m, e, timeout);
    if |p.results| > |m.results| {
      var r := p.results[|m.results|];
      assert p.results == m.results + [r] && Bare(r) == e;
      ResultsSnoc(m.results, r);
      CountSnoc(Bares(m.results), e, x);
    } else {
      CountSnoc(m.unmatched, e, x);
    }
  }

  /** Every event of a pass is either returned or kept, once. */
  lemma {:induction false} PassConservesEvents(cache: Cache, events: seq<Event>, timeout: int, x: Event)
    requires Unconfirmed(events)
    ensures Placed(MatchAll(cache, events, timeout), x) == multiset(events)[x]
  {
    if events != [] {
      var n := |events| - 1;
      PassConservesEvents(cache, events[..n], timeout, x);
      MatchOnePlaces(MatchAll(cache, events[..n], timeout), events[n], timeout, x);
      CountLast(events, x);
    }
  }

  lemma {:induction false} KeptStayUnconfirmed(cache: Cache, events: seq<Event>, timeout: int)
    requires Unconfirmed(events)
    ensures Unconfirmed(MatchAll(cache, events, timeout).unmatched)
  {
    if events != [] {
      KeptStayUnconfirmed(cache, events[..|events| - 1], timeout);
    }
  }

  /** Copies of `con` in the cache or assigned. */
  function Held(m: Matching, con: Confirmation): nat {
    Cached(m.cache, con) + multiset(Assigned(m.results))[con]
  }

  lemma MatchOneHolds(m: Matching, e: Event, timeout: int, con: Confirmation)
    requires CacheOk(m.cache) && e.confirmation.None?
    ensures Held(MatchOne(m, e, timeout), con) == Held(m, con)
  {
    if e.request.None? {
      ResultsSnoc(m.results, e);
      assert Assigned(m.results) + [] == Assigned(m.results);
    } else {
      var u := e.request.value.userid;
      var cons := Get(m.cache, u);
      var i := First(cons, Fitting(e, timeout));
      if i < |cons| {
        WithoutCached(m.cache, u, i, con);
        ResultsSnoc(m.results, e.(confirmation := Some(cons[i])));
        CountSnoc(Assigned(m.results), cons[i], con);
      }
    }
  }

  /** Every confirmation is still cached or assigned to exactly one event. */
  lemma {:induction false} PassConservesConfirmations(cache: Cache, events: seq<Event>, timeout: int, con: Confirmation)
    requires CacheOk(cache) && Unconfirmed(events)
    ensures Held(MatchAll(cache, events, timeout), con) == Cached(cache, con)
  {
    if events != [] {
      var n := |events| - 1;
      PassConservesConfirmations(cache, events[..n], timeout, con);
      MatchAllOk(cache, events[..n], timeout);
      MatchOneHolds(MatchAll(cache, events[..n], timeout), events[n], timeout, con);
    }
  }

  lemma WithoutTotal(cache: Cache, u: Word, i: nat)
    requires i < |Get(cache, u)|
    ensures Total(Without(cache, u, i)) == Total(cache) - 1
  {
    TotalDelete(cache, u);
    TotalUpdate(cache, u, Delete(cache[u], i));
  }
}
