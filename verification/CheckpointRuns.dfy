/** Whole runs of the assembly loop: what an eviction meets, and where every event is. */
module CheckpointRuns {
  import opened Collections
  import opened Events
  import opened Phases
  import opened PhaseSteps
  import opened PhaseRuns
  import opened PhaseCheckpoints
  import opened EventMatching
  import opened WrittenFiles
  import C = Confirmations
  import R = ConfirmationRuns

  // -- evictions ------------------------------------------------------------------------------

  /** At an eviction no SYN of a key still fits another if and only if one match each was enough
      when the checkpoint began. */
  lemma EvictsPhasesExactly(ops: seq<Op>, i: nat, startHour: int, k: Key, timeout: int)
    requires WellScheduled(ops, startHour) && i < |ops| && ops[i].EvictBatch?
    ensures i >= 4 && (PhasesSaturated(CellOf(ops[..i], k, timeout), timeout) <==>
                       OneMatchEnough(AcksPass(CellOf(ops[..i - 3], k, timeout)), timeout))
  {
    CellBeforeEviction(ops, i, startHour, k, timeout);
    CheckpointLeavesPhasesExactly(ops[..i - 3], k, timeout);
  }

  // -- where every event is --------------------------------------------------------------------------

  /** How often `x` was handed over and filtered: a RST, a retransmit, or neither SYN nor ACK. */
  function Filtered(ops: seq<Op>, x: Event): nat {
    if ops == [] then 0
    else
      var before := ops[..|ops| - 1];
      Filtered(before, x) + if ops[|ops| - 1] == AddEvent(x) && !(Accepted(before, x) && Relevant(x)) then 1 else 0
  }

  lemma {:induction false} HandedCounts(ops: seq<Op>, x: Event)
    ensures multiset(Handed(ops))[x] == Given(ops, x) + Filtered(ops, x)
  {
    if ops != [] {
      var n := |ops| - 1;
      HandedCounts(ops[..n], x);
      if ops[n].AddEvent? {
        CountSnoc(Handed(ops[..n]), ops[n].e, x);
      } else {
        assert Handed(ops[..n]) + [] == Handed(ops[..n]);
      }
    }
  }

  /** After every round, an event was loaded as often as it was evicted unmatched or waits in the
      cache or was returned; and a returned one is, as often, in the queue, filtered, in the
      lists of its key, in a file, or dropped as a stale ACK or repeated connection. */
  lemma EveryEventIsSomewhere(em: EventMatcher, x: Event, e: Event)
    requires em.Valid()
    ensures R.LoadedEvents(em.cm.calls, x) ==
            multiset(C.Bares(em.cm.AllReturned()))[x] + multiset(em.cm.ecache)[x] +
            R.EvictedEvents(em.cm.calls, em.cm.firstId, em.cm.probeTimeout, x)
    ensures multiset(em.cm.AllReturned())[e] ==
            multiset(em.events)[e] + Filtered(em.pm.history, e) +
            CellOcc(em.pm.CellAt(KeyOf(e)), e) + FilesOcc(em.written, e) + Dropped(em.pm.history, e, em.pm.phaseTimeout)
  {
    R.EventsAreConserved(em.cm.calls, em.cm.firstId, em.cm.probeTimeout, x);
    CountConcat(Handed(em.pm.history), em.events, e);
    HandedCounts(em.pm.history, e);
    Conservation(em.pm.history, e, em.pm.phaseTimeout);
    FilesHoldWritten(em.written, em.pm.history, em.pm.phaseTimeout, e);
  }
}
