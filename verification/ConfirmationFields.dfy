/** What the confirmation matcher promises, in plain fields of requests and confirmations. */
module ConfirmationFields {
  import opened Collections
  import opened Events
  import opened Confirmations
  import opened ConfirmationRuns

  /** Equal addresses, ports, method and user id, and times at most `timeout` apart. */
  predicate Confirms(con: Confirmation, e: Event, timeout: int) {
    e.request.Some? &&
    con.src == e.request.value.saddr && con.dst == e.request.value.daddr &&
    con.sport == e.request.value.sport && con.dport == e.request.value.dport &&
    con.probeMethod == e.request.value.probeMethod && con.userid == e.request.value.userid &&
    e.packet.timestamp - timeout <= con.timestamp <= e.packet.timestamp + timeout
  }

  lemma FittingMeans(e: Event, con: Confirmation, timeout: int)
    ensures Fits(e, con, timeout) <==> Confirms(con, e, timeout)
  {
  }

  /** Every event ever returned was not probed or carries a confirmation of its probe. */
  lemma ReturnedAreConfirmed(calls: seq<Call>, batchId: int, timeout: int, i: nat)
    requires Feasible(calls, batchId, timeout) && i < |Returned(calls, batchId, timeout)|
    ensures var e := Returned(calls, batchId, timeout)[i];
            e.request.Some? ==> e.confirmation.Some? && Confirms(e.confirmation.value, e, timeout)
  {
    ReturnedAreSound(calls, batchId, timeout);
    var e := Returned(calls, batchId, timeout)[i];
    assert SoundResult(e, timeout);
    if e.request.Some? {
      FittingMeans(e, e.confirmation.value, timeout);
    }
  }

  /** After a pass nothing left in the cache confirms an event that is left. */
  lemma NothingConfirmsLeftOver(s: State, newIds: seq<int>, timeout: int, j: nat, u: Word, i: nat)
    requires Invariant(s) && Possible(s, MatchEvents(newIds))
    requires var t := Next(s, MatchEvents(newIds), timeout);
             j < |t.events| && u in t.cache && i < |t.cache[u]|
    ensures var t := Next(s, MatchEvents(newIds), timeout);
            t.events[j].request.Some? && !Confirms(t.cache[u][i], t.events[j], timeout)
  {
    var t := Next(s, MatchEvents(newIds), timeout);
    MatchSaturates(s, newIds, timeout);
    assert Hopeless(t.cache, t.events[j], timeout);
    FittingMeans(t.events[j], t.cache[u][i], timeout);
  }

  /** The oldest confirmation of a probe is taken, and only that leaves the cache. */
  lemma OldestIsTaken(m: Matching, e: Event, timeout: int, i: nat)
    requires e.request.Some? && i < |Get(m.cache, e.request.value.userid)|
    requires var cons := Get(m.cache, e.request.value.userid);
             Confirms(cons[i], e, timeout) && forall j :: 0 <= j < i ==> !Confirms(cons[j], e, timeout)
    ensures var u := e.request.value.userid;
            var cons, p := Get(m.cache, u), MatchOne(m, e, timeout);
            p.results == m.results + [e.(confirmation := Some(cons[i]))] && p.unmatched == m.unmatched &&
            Get(p.cache, u) == cons[..i] + cons[i + 1..] &&
            forall v :: v != u ==> Get(p.cache, v) == Get(m.cache, v)
  {
    var cons := Get(m.cache, e.request.value.userid);
    forall j | 0 <= j < |cons| ensures Fitting(e, timeout)(cons[j]) == Confirms(cons[j], e, timeout) {
      FittingMeans(e, cons[j], timeout);
    }
    FirstUnique(cons, Fitting(e, timeout), i);
    if |cons| == 1 {
      assert cons[..i] + cons[i + 1..] == [];
    }
  }
}
