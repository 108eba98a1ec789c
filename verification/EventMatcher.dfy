/** The outer loop of `assemble`: confirmed events go to the phase matcher, and at
    every checkpoint the oldest batch is written. */
module EventMatching {
  import opened Collections
  import opened Events
  import opened Phases
  import opened PhaseSteps
  import opened PhaseRuns
  import opened PhaseMatching
  import opened WrittenFiles
  import C = Confirmations
  import R = ConfirmationRuns
  import opened ConfirmationMatching

  const HOUR := 3600 * MICROS_PER_SECOND

  /** The time from which batch `b` is written: half an hour after it is over. */
  function DumpTs(startHour: int, b: int): int {
    startHour + HOUR + HOUR / 2 + b * HOUR
  }

  /** `add_event` for each event. */
  function Adds(events: seq<Event>): seq<Op> {
    if events == [] then [] else Adds(events[..|events| - 1]) + [AddEvent(events[|events| - 1])]
  }

  function Checkpoint(b: int): seq<Op> {
    [TryMatchEverything, FindRepeatedConnections, EvictRetransmits(b), EvictBatch(b)]
  }

  /** The events handed to the phase matcher, in order. */
  function Handed(ops: seq<Op>): seq<Event> {
    if ops == [] then []
    else
      var op := ops[|ops| - 1];
      Handed(ops[..|ops| - 1]) + if op.AddEvent? then [op.e] else []
  }

  function Reaches(ts: int): Event -> bool {
    (e: Event) => e.packet.timestamp >= ts
  }

  /** How many of the events one round hands over: all, or up to the first at or past `ts`. */
  function HandedCount(events: seq<Event>, ts: int): (n: nat)
    ensures n <= |events|
  {
    var i := First(events, Reaches(ts));
    if i < |events| then i + 1 else i
  }

  /** A round hands over everything in front of the first event at or past the checkpoint, and that
      event. */
  lemma HandedExactly(events: seq<Event>, ts: int)
    ensures var n := HandedCount(events, ts);
            (forall i :: 0 <= i < n - 1 ==> events[i].packet.timestamp < ts) &&
            (n < |events| ==> n > 0 && events[n - 1].packet.timestamp >= ts)
  {
    var i := First(events, Reaches(ts));
    forall j | 0 <= j < i ensures events[j].packet.timestamp < ts {
      assert !Reaches(ts)(events[j]);
    }
  }

  lemma HandedSnoc(ops: seq<Op>, op: Op)
    ensures Handed(ops + [op]) == Handed(ops) + if op.AddEvent? then [op.e] else []
  {
    assert (ops + [op])[..|ops|] == ops;
  }

  lemma AddsSnoc(events: seq<Event>, e: Event)
    ensures Adds(events + [e]) == Adds(events) + [AddEvent(e)]
  {
    assert (events + [e])[..|events|] == events;
  }

  lemma {:induction false} HandedAdds(ops: seq<Op>, events: seq<Event>)
    ensures Handed(ops + Adds(events)) == Handed(ops) + events
  {
    if events == [] {
      assert ops + Adds(events) == ops && Handed(ops) + events == Handed(ops);
    } else {
      var n := |events| - 1;
      HandedAdds(ops, events[..n]);
      Associate(ops, Adds(events[..n]), [AddEvent(events[n])]);
      HandedSnoc(ops + Adds(events[..n]), AddEvent(events[n]));
      Associate(Handed(ops), events[..n], [events[n]]);
      assert events[..n] + [events[n]] == events;
    }
  }

  lemma HandedCheckpoint(ops: seq<Op>, b: int)
    ensures Handed(ops + Checkpoint(b)) == Handed(ops)
  {
    HandedSnoc(ops, TryMatchEverything);
    HandedSnoc(ops + [TryMatchEverything], FindRepeatedConnections);
    HandedSnoc(ops + [TryMatchEverything] + [FindRepeatedConnections], EvictRetransmits(b));
    HandedSnoc(ops + [TryMatchEverything] + [FindRepeatedConnections] + [EvictRetransmits(b)], EvictBatch(b));
    assert ops + Checkpoint(b) ==
           ops + [TryMatchEverything] + [FindRepeatedConnections] + [EvictRetransmits(b)] + [EvictBatch(b)];
  }

  lemma {:induction false} ScheduleAdds(ops: seq<Op>, events: seq<Event>, startHour: int)
    requires WellScheduled(ops, startHour)
    ensures WellScheduled(ops + Adds(events), startHour)
  {
    if events == [] {
      assert ops + Adds(events) == ops;
    } else {
      var n := |events| - 1;
      ScheduleAdds(ops, events[..n], startHour);
      Associate(ops, Adds(events[..n]), [AddEvent(events[n])]);
      ScheduleExtends(ops + Adds(events[..n]), AddEvent(events[n]), startHour);
    }
  }

  /** The calls one round makes on the phase matcher. */
  function RoundCalls(events: seq<Event>, ts: int, b: int): seq<Op> {
    Adds(events[..HandedCount(events, ts)]) + if First(events, Reaches(ts)) < |events| then Checkpoint(b) else []
  }

  lemma RoundKeepsOrder(ops: seq<Op>, events: seq<Event>, ts: int, b: int)
    ensures Handed(ops + RoundCalls(events, ts, b)) + events[HandedCount(events, ts)..] == Handed(ops) + events
  {
    var n := HandedCount(events, ts);
    var adds := Adds(events[..n]);
    HandedAdds(ops, events[..n]);
    HandedCheckpoint(ops + adds, b);
    Associate(ops, adds, Checkpoint(b));
    assert adds + [] == adds;
    Associate(Handed(ops), events[..n], events[n..]);
    assert events[..n] + events[n..] == events;
  }

  lemma RoundKeepsSchedule(ops: seq<Op>, events: seq<Event>, b: int, startHour: int)
    requires WellScheduled(ops, startHour)
    ensures WellScheduled(ops + RoundCalls(events, DumpTs(startHour, b), b), startHour)
  {
    var i := First(events, Reaches(DumpTs(startHour, b)));
    var n := HandedCount(events, DumpTs(startHour, b));
    var adds := Adds(events[..n]);
    ScheduleAdds(ops, events[..n], startHour);
    if i < |events| {
      assert adds[|adds| - 1] == AddEvent(events[..n][|events[..n]| - 1]);
      CheckpointExtends(ops + adds, b, startHour);
      assert ops + (adds + Checkpoint(b)) == ops + adds + Checkpoint(b);
    } else {
      assert ops + (adds + []) == ops + adds;
    }
  }

  // -- checkpoints --------------------------------------------------------------------------

  /** The eviction at call `i` ends a checkpoint, which an event past its time set off. */
  predicate CheckpointAt(ops: seq<Op>, i: nat, startHour: int)
    requires i < |ops| && ops[i].EvictBatch?
  {
    i >= 4 && ops[i - 3..i + 1] == Checkpoint(ops[i].b) &&
    ops[i - 4].AddEvent? && ops[i - 4].e.packet.timestamp >= DumpTs(startHour, ops[i].b)
  }

  predicate WellScheduled(ops: seq<Op>, startHour: int) {
    forall i :: 0 <= i < |ops| && ops[i].EvictBatch? ==> CheckpointAt(ops, i, startHour)
  }

  /** An eviction of batch `b` follows an event at least half an hour behind the end of its hour, and
      the three other calls of the checkpoint. */
  lemma EvictionsAreLate(ops: seq<Op>, i: nat, startHour: int)
    requires WellScheduled(ops, startHour) && i < |ops| && ops[i].EvictBatch?
    ensures i >= 4 && ops[i - 4].AddEvent? &&
            ops[i - 4].e.packet.timestamp >= startHour + (ops[i].b * 3600 + 5400) * 1_000_000
    ensures ops[i - 3] == TryMatchEverything && ops[i - 2] == FindRepeatedConnections && ops[i - 1] == EvictRetransmits(ops[i].b)
  {
    assert CheckpointAt(ops, i, startHour);
    var c := ops[i - 3..i + 1];
    assert ops[i - 3] == c[0] && ops[i - 2] == c[1] && ops[i - 1] == c[2];
  }

  lemma ScheduleExtends(ops: seq<Op>, op: Op, startHour: int)
    requires WellScheduled(ops, startHour) && !op.EvictBatch?
    ensures WellScheduled(ops + [op], startHour)
  {
    var all := ops + [op];
    forall i | 0 <= i < |all| && all[i].EvictBatch? ensures CheckpointAt(all, i, startHour) {
      assert CheckpointAt(ops, i, startHour);
      assert all[i - 3..i + 1] == ops[i - 3..i + 1];
    }
  }

  lemma CheckpointExtends(ops: seq<Op>, b: int, startHour: int)
    requires WellScheduled(ops, startHour)
    requires ops != [] && ops[|ops| - 1].AddEvent? && ops[|ops| - 1].e.packet.timestamp >= DumpTs(startHour, b)
    ensures WellScheduled(ops + Checkpoint(b), startHour)
  {
    var all := ops + Checkpoint(b);
    forall i | 0 <= i < |all| && all[i].EvictBatch? ensures CheckpointAt(all, i, startHour) {
      if i < |ops| {
        assert CheckpointAt(ops, i, startHour);
        assert all[i - 3..i + 1] == ops[i - 3..i + 1];
      } else {
        assert all[i - 3..i + 1] == Checkpoint(b);
      }
    }
  }

  lemma CallsBeforeEviction(ops: seq<Op>, i: nat, startHour: int)
    requires WellScheduled(ops, startHour) && i < |ops| && ops[i].EvictBatch?
    ensures i >= 4 && ops[..i] == ops[..i - 3] + [TryMatchEverything] + [FindRepeatedConnections] + [EvictRetransmits(ops[i].b)]
  {
    assert CheckpointAt(ops, i, startHour);
    assert ops[i - 3] == ops[i - 3..i + 1][0] && ops[i - 2] == ops[i - 3..i + 1][1] && ops[i - 1] == ops[i - 3..i + 1][2];
  }

  /** An eviction meets the lists as the matching calls of its checkpoint left them. */
  lemma CellBeforeEviction(ops: seq<Op>, i: nat, startHour: int, k: Key, timeout: int)
    requires WellScheduled(ops, startHour) && i < |ops| && ops[i].EvictBatch?
    ensures i >= 4
    ensures CellOf(ops[..i], k, timeout) == CellOf(ops[..i - 3] + [TryMatchEverything] + [FindRepeatedConnections], k, timeout)
  {
    CallsBeforeEviction(ops, i, startHour);
    CellOfSnoc(ops[..i - 3] + [TryMatchEverything] + [FindRepeatedConnections], EvictRetransmits(ops[i].b), k, timeout);
  }

  /** Whenever the outer loop evicts a batch, no waiting ACK matches a SYN of its key, and no
      acknowledged regular SYN falls into the window of a two-phase record.  SYNs that still fit
      each other may remain: `CheckpointRuns.EvictsPhasesExactly`. */
  lemma EvictsAfterCheckpoint(ops: seq<Op>, i: nat, startHour: int, k: Key, timeout: int)
    requires WellScheduled(ops, startHour) && i < |ops| && ops[i].EvictBatch?
    ensures var c := CellOf(ops[..i], k, timeout);
            Saturated(c) &&
            forall r :: r in c.regularAcked ==>
              r.rsyn.Some? && !Repeats(c.twoPhaseNoAck, r, timeout) && !Repeats(c.twoPhase, r, timeout)
  {
    CellBeforeEviction(ops, i, startHour, k, timeout);
    CheckpointSaturates(ops[..i - 3], k, timeout);
  }

  /** The batch that is due and the files written so far. */
  datatype Dumps = Dumps(written: seq<seq<Row>>, batch: nat)

  /** A checkpoint after the calls `ops`: if anything is owed, a file with exactly that, and the
      next batch is due; otherwise nothing. */
  ghost predicate Dumped(before: Dumps, now: Dumps, ops: seq<Op>, timeout: int) {
    if Owes(ops, before.batch, timeout) then
      |now.written| == |before.written| + 1 && before.written <= now.written && now.batch == before.batch + 1 &&
      HoldsBatch(now.written[|before.written|], ops, before.batch, timeout)
    else now == before
  }

  /** A round over the queue `events` after the calls `ops`, with a checkpoint due at `ts`: it
      wrote what that owed, or nothing if no event reached it. */
  ghost predicate Wrote(before: Dumps, now: Dumps, events: seq<Event>, ts: int, ops: seq<Op>, timeout: int) {
    if First(events, Reaches(ts)) < |events| then
      Dumped(before, now, ops + Adds(events[..HandedCount(events, ts)]) + Checkpoint(before.batch)[..3], timeout)
    else now == before
  }

  /** After `i` turns over the queue the calls went from `before` to `now`; the last turn
      reached the checkpoint, or none did. */
  predicate Turned(events: seq<Event>, i: nat, reached: bool, ts: int, b: int, before: seq<Op>, now: seq<Op>) {
    i <= |events| &&
    (if reached then i > 0 && First(events, Reaches(ts)) == i - 1 else First(events[..i], Reaches(ts)) == i) &&
    now == before + Adds(events[..i]) + if reached then Checkpoint(b) else []
  }

  lemma TurnsStart(events: seq<Event>, ts: int, b: int, ops: seq<Op>)
    ensures Turned(events, 0, false, ts, b, ops, ops)
  {
    assert ops + Adds(events[..0]) + [] == ops;
  }

  lemma Turn(events: seq<Event>, i: nat, ts: int, b: int, before: seq<Op>, now: seq<Op>, next: seq<Op>)
    requires i < |events| && Turned(events, i, false, ts, b, before, now)
    requires next == now + [AddEvent(events[i])] + if Reaches(ts)(events[i]) then Checkpoint(b) else []
    ensures Turned(events, i + 1, Reaches(ts)(events[i]), ts, b, before, next)
  {
    FirstPrefix(events, Reaches(ts), i);
    AddsSnoc(events[..i], events[i]);
    assert events[..i + 1] == events[..i] + [events[i]];
    assert before + Adds(events[..i]) + [] + [AddEvent(events[i])] == before + Adds(events[..i + 1]);
  }

  lemma {:induction false} FilesAdds(files: seq<seq<Row>>, ops: seq<Op>, events: seq<Event>, timeout: int)
    requires FilesOf(files, ops, timeout)
    ensures FilesOf(files, ops + Adds(events), timeout)
  {
    if events == [] {
      assert ops + Adds(events) == ops;
    } else {
      var n := |events| - 1;
      FilesAdds(files, ops, events[..n], timeout);
      Associate(ops, Adds(events[..n]), [AddEvent(events[n])]);
      FilesSnoc(files, ops + Adds(events[..n]), AddEvent(events[n]), timeout);
    }
  }

  lemma CheckpointCalls(ops: seq<Op>, b: int)
    ensures ops + Checkpoint(b)[..3] == ops + [TryMatchEverything] + [FindRepeatedConnections] + [EvictRetransmits(b)]
    ensures ops + Checkpoint(b) == ops + Checkpoint(b)[..3] + [EvictBatch(b)]
  {
  }

  lemma FilesBeforeEviction(files: seq<seq<Row>>, ops: seq<Op>, b: int, timeout: int)
    requires FilesOf(files, ops, timeout)
    ensures FilesOf(files, ops + Checkpoint(b)[..3], timeout)
  {
    CheckpointCalls(ops, b);
    var one := ops + [TryMatchEverything];
    var two := one + [FindRepeatedConnections];
    FilesSnoc(files, ops, TryMatchEverything, timeout);
    FilesSnoc(files, one, FindRepeatedConnections, timeout);
    FilesSnoc(files, two, EvictRetransmits(b), timeout);
  }

  lemma OneMoreFile<T>(before: seq<T>, now: seq<T>)
    requires |now| == |before| + 1 && before <= now
    ensures now == before + [now[|before|]]
  {
  }

  lemma FilesDumped(before: Dumps, now: Dumps, owing: seq<Op>, timeout: int)
    requires FilesOf(before.written, owing, timeout) && Dumped(before, now, owing, timeout)
    ensures FilesOf(now.written, owing + [EvictBatch(before.batch)], timeout)
  {
    if Owes(owing, before.batch, timeout) {
      OneMoreFile(before.written, now.written);
      FilesEvict(before.written, now.written[|before.written|], owing, before.batch, timeout);
    } else {
      FilesEvictNothing(before.written, owing, before.batch, timeout);
    }
  }

  lemma FilesCheckpoint(before: Dumps, now: Dumps, ops: seq<Op>, timeout: int)
    requires FilesOf(before.written, ops, timeout)
    requires Dumped(before, now, ops + Checkpoint(before.batch)[..3], timeout)
    ensures FilesOf(now.written, ops + Checkpoint(before.batch), timeout)
  {
    FilesBeforeEviction(before.written, ops, before.batch, timeout);
    CheckpointCalls(ops, before.batch);
    FilesDumped(before, now, ops + Checkpoint(before.batch)[..3], timeout);
  }

  lemma RoundKeepsFiles(before: Dumps, now: Dumps, events: seq<Event>, ts: int, ops: seq<Op>, timeout: int)
    requires FilesOf(before.written, ops, timeout) && Wrote(before, now, events, ts, ops, timeout)
    ensures FilesOf(now.written, ops + RoundCalls(events, ts, before.batch), timeout)
  {
    var adds := Adds(events[..HandedCount(events, ts)]);
    FilesAdds(before.written, ops, events[..HandedCount(events, ts)], timeout);
    if First(events, Reaches(ts)) < |events| {
      FilesCheckpoint(before, now, ops + adds, timeout);
      Associate(ops, adds, Checkpoint(before.batch));
    } else {
      assert adds + [] == adds;
    }
  }

  /** What the turns so far wrote. */
  ghost predicate WroteSoFar(before: Dumps, now: Dumps, events: seq<Event>, i: nat, reached: bool, ops: seq<Op>, timeout: int) {
    i <= |events| &&
    if reached then Dumped(before, now, ops + Adds(events[..i]) + Checkpoint(before.batch)[..3], timeout) else now == before
  }

  lemma WriteTurn(before: Dumps, now: Dumps, events: seq<Event>, i: nat, reached: bool, ops: seq<Op>, timeout: int)
    requires i < |events|
    requires if reached then Dumped(before, now, ops + Adds(events[..i]) + [AddEvent(events[i])] + Checkpoint(before.batch)[..3], timeout)
             else now == before
    ensures WroteSoFar(before, now, events, i + 1, reached, ops, timeout)
  {
    AddsSnoc(events[..i], events[i]);
    assert events[..i + 1] == events[..i] + [events[i]];
    Associate(ops, Adds(events[..i]), [AddEvent(events[i])]);
  }

  lemma TurnsEnd(events: seq<Event>, i: nat, reached: bool, ts: int, b: int, before: seq<Op>, now: seq<Op>)
    requires Turned(events, i, reached, ts, b, before, now) && (reached || i == |events|)
    ensures i == HandedCount(events, ts) && now == before + RoundCalls(events, ts, b)
  {
    assert events[..|events|] == events;
  }

  // -- loading ------------------------------------------------------------------------------------

  /** A log is read on if it has delivered nothing yet, or is less than `threshold` ahead. */
  function LoadsConfirmations(cts: Option<nat>, ets: Option<nat>, threshold: int, confirmations: seq<Confirmation>): seq<R.Call> {
    if cts.None? || (ets.Some? && cts.value - ets.value < threshold) then [R.LoadConfirmations(confirmations)] else []
  }

  function LoadsEvents(cts: Option<nat>, ets: Option<nat>, threshold: int, batch: seq<Event>): seq<R.Call> {
    if ets.None? || (cts.Some? && ets.value - cts.value < threshold) then [R.LoadEvents(batch)] else []
  }

  /** What a round loads.  With exactly one log that has delivered anything it raises: at once, or
      after loading the confirmations if those were missing. */
  function Loads(cts: Option<nat>, ets: Option<nat>, threshold: int,
                 confirmations: seq<Confirmation>, batch: seq<Event>): seq<R.Call>
  {
    if cts.Some? && ets.None? then []
    else if ets.Some? && cts.None? then LoadsConfirmations(cts, ets, threshold, confirmations)
    else LoadsConfirmations(cts, ets, threshold, confirmations) + LoadsEvents(cts, ets, threshold, batch)
  }

  /** A log stands still exactly if it is at least `threshold` ahead; with a positive threshold
      never both do. */
  lemma LoadsExactly(cts: nat, ets: nat, threshold: int, confirmations: seq<Confirmation>, batch: seq<Event>)
    ensures var loads := Loads(Some(cts), Some(ets), threshold, confirmations, batch);
            (R.LoadConfirmations(confirmations) !in loads <==> cts >= ets + threshold) &&
            (R.LoadEvents(batch) !in loads <==> ets >= cts + threshold) &&
            (threshold > 0 ==> loads != [])
  {
  }

  // -- the loop ---------------------------------------------------------------------------------

  class EventMatcher {
    const cm: ConfirmationMatcher
    const pm: PhaseMatcher
    const startHour: int
    /** How far one log may be loaded ahead of the other. */
    const loadThreshold: int
    var nextDumpTs: int
    var batchToDump: nat
    /** Confirmed events not yet handed over. */
    var events: seq<Event>
    /** What the writer got, batch by batch. */
    var written: seq<seq<Row>>

    ghost function Progress(): Dumps
      reads `written, `batchToDump
    {
      Dumps(written, batchToDump)
    }

    /** Everything the confirmation matcher returned was handed over once, in order, or is queued. */
    ghost predicate QueueValid()
      reads this, cm, pm
      requires cm.Valid()
    {
      Handed(pm.history) + events == cm.AllReturned()
    }

    /** One file for each batch so far, never an empty one, sorted by time. */
    ghost predicate DumpValid()
      reads this
    {
      nextDumpTs == DumpTs(startHour, batchToDump) && |written| == batchToDump &&
      forall b :: 0 <= b < |written| ==> written[b] != [] && SortedByTs(written[b])
    }

    ghost predicate Valid()
      reads this, cm, pm
    {
      cm.Valid() && pm.Valid() && QueueValid() && DumpValid() && WellScheduled(pm.history, startHour) &&
      FilesOf(written, pm.history, pm.phaseTimeout)
    }

    constructor (cm: ConfirmationMatcher, pm: PhaseMatcher, startHour: int, loadThreshold: int)
      requires cm.Valid() && pm.Valid() && cm.calls == [] && pm.history == []
      ensures Valid() && this.cm == cm && this.pm == pm && this.startHour == startHour && this.loadThreshold == loadThreshold
      ensures events == [] && written == []
    {
      this.cm, this.pm, this.startHour, this.loadThreshold := cm, pm, startHour, loadThreshold;
      nextDumpTs, batchToDump := startHour + HOUR + HOUR / 2, 0;
      events, written := [], [];
    }

    /** The five calls of a checkpoint. */
    method RunCheckpoint() returns (elems: seq<Row>)
      requires pm.Valid()
      modifies pm
      ensures pm.Valid() && pm.history == old(pm.history) + Checkpoint(batchToDump) && SortedByTs(elems)
      ensures HoldsBatch(elems, old(pm.history) + Checkpoint(batchToDump)[..3], batchToDump, pm.phaseTimeout)
    {
      ghost var h := pm.history;
      pm.MatchEverything();
      pm.FindRepeated();
      pm.EvictRetransmitCache(batchToDump);
      assert pm.history == h + Checkpoint(batchToDump)[..3];
      elems := pm.Evict(batchToDump);
      assert pm.history == h + Checkpoint(batchToDump);
    }

    /** The end of a checkpoint: rows are written, and only then the next batch is due. */
    method WriteBatch(elems: seq<Row>)
      requires DumpValid() && SortedByTs(elems)
      modifies `written, `nextDumpTs, `batchToDump
      ensures DumpValid()
      ensures Progress() == if elems == [] then old(Progress()) else Dumps(old(written) + [elems], old(batchToDump) + 1)
    {
      if |elems| != 0 {
        written := written + [elems];
        nextDumpTs := nextDumpTs + HOUR;
        batchToDump := batchToDump + 1;
      }
    }

    /** A checkpoint. */
    method DumpBatch()
      requires pm.Valid() && DumpValid()
      modifies `written, `nextDumpTs, `batchToDump, pm
      ensures pm.Valid() && DumpValid() && pm.history == old(pm.history) + Checkpoint(old(batchToDump))
      ensures Dumped(old(Progress()), Progress(), old(pm.history) + Checkpoint(old(batchToDump))[..3], pm.phaseTimeout)
    {
      ghost var ops, b := pm.history, batchToDump;
      var elems := RunCheckpoint();
      OwesExactly(elems, ops + Checkpoint(b)[..3], b, pm.phaseTimeout);
      WriteBatch(elems);
    }

    /** One turn of the loop over the queue. */
    method HandOver(event: Event) returns (reached: bool)
      requires pm.Valid() && DumpValid()
      modifies `written, `nextDumpTs, `batchToDump, pm
      ensures pm.Valid() && DumpValid()
      ensures reached == Reaches(old(nextDumpTs))(event)
      ensures pm.history == old(pm.history) + [AddEvent(event)] + if reached then Checkpoint(old(batchToDump)) else []
      ensures if reached then Dumped(old(Progress()), Progress(), old(pm.history) + [AddEvent(event)] + Checkpoint(old(batchToDump))[..3], pm.phaseTimeout)
              else Progress() == old(Progress())
    {
      pm.HandleEvent(event);
      reached := event.packet.timestamp >= nextDumpTs;
      if reached {
        DumpBatch();
      }
    }

    /** Where the loop over the queue is after `i` turns. */
    ghost predicate AfterTurns(i: nat, reached: bool, ts: int, dumps: Dumps, before: seq<Op>)
      reads this, pm
    {
      pm.Valid() && DumpValid() && Turned(events, i, reached, ts, dumps.batch, before, pm.history) &&
      WroteSoFar(dumps, Progress(), events, i, reached, before, pm.phaseTimeout) &&
      (!reached ==> nextDumpTs == ts && Progress() == dumps)
    }

    method TakeTurn(i: nat, ghost ts: int, ghost dumps: Dumps, ghost before: seq<Op>) returns (reached: bool)
      requires i < |events| && AfterTurns(i, false, ts, dumps, before)
      modifies `written, `nextDumpTs, `batchToDump, pm
      ensures AfterTurns(i + 1, reached, ts, dumps, before)
    {
      ghost var now := pm.history;
      assert now == before + Adds(events[..i]);
      reached := HandOver(events[i]);
      Turn(events, i, ts, dumps.batch, before, now, pm.history);
      WriteTurn(dumps, Progress(), events, i, reached, before, pm.phaseTimeout);
    }

    /** The loop over the queue. */
    method HandOverEvents() returns (keepAfter: nat, processedEvents: nat)
      requires pm.Valid() && DumpValid()
      modifies `written, `nextDumpTs, `batchToDump, pm
      ensures pm.Valid() && DumpValid()
      ensures processedEvents == HandedCount(events, old(nextDumpTs))
      ensures keepAfter == if processedEvents == 0 then 0 else processedEvents - 1
      ensures pm.history == old(pm.history) + RoundCalls(events, old(nextDumpTs), old(batchToDump))
      ensures Wrote(old(Progress()), Progress(), events, old(nextDumpTs), old(pm.history), pm.phaseTimeout)
    {
      keepAfter, processedEvents := 0, 0;
      var reached := false;
      ghost var ts, dumps, before := nextDumpTs, Progress(), pm.history;
      TurnsStart(events, ts, dumps.batch, before);
      while processedEvents < |events| && !reached
        invariant keepAfter == if processedEvents == 0 then 0 else processedEvents - 1
        invariant AfterTurns(processedEvents, reached, ts, dumps, before)
      {
        reached := TakeTurn(processedEvents, ts, dumps, before);
        keepAfter := processedEvents;
        processedEvents := processedEvents + 1;
      }
      TurnsEnd(events, processedEvents, reached, ts, dumps.batch, before, pm.history);
    }

    /** Hands over queued events up to the next checkpoint. */
    method PassEvents()
      requires pm.Valid() && DumpValid()
      modifies `events, `written, `nextDumpTs, `batchToDump, pm
      ensures pm.Valid() && DumpValid()
      ensures pm.history == old(pm.history) + RoundCalls(old(events), old(nextDumpTs), old(batchToDump))
      ensures events == old(events)[HandedCount(old(events), old(nextDumpTs))..]
      ensures Wrote(old(Progress()), Progress(), old(events), old(nextDumpTs), old(pm.history), pm.phaseTimeout)
    {
      var keepAfter, processedEvents := HandOverEvents();
      var before := |events|;
      events := if keepAfter + 1 <= |events| then events[keepAfter + 1..] else [];
      var after := |events|;
      assert before - after == processedEvents;
    }

    /** A pass over the caches; what it returns joins the queue. */
    method CollectEvents() returns (ghost newIds: seq<int>)
      requires cm.Valid() && QueueValid()
      modifies `events, cm
      ensures cm.Valid() && QueueValid()
      ensures old(events) <= events && cm.AllReturned() == old(cm.AllReturned()) + events[|old(events)|..]
      ensures cm.calls == old(cm.calls) + [R.MatchEvents(newIds)]
    {
      var newEvents;
      newEvents, newIds := cm.MatchEventsPass();
      Associate(Handed(pm.history), events, newEvents);
      events := events + newEvents;
    }

    /** Hands the queue over; the order of all returned events is kept. */
    method PassQueue()
      requires Valid()
      modifies `events, `written, `nextDumpTs, `batchToDump, pm
      ensures Valid() && Wrote(old(Progress()), Progress(), old(events), old(nextDumpTs), old(pm.history), pm.phaseTimeout)
      ensures pm.history == old(pm.history) + RoundCalls(old(events), old(nextDumpTs), old(batchToDump))
      ensures events == old(events)[HandedCount(old(events), old(nextDumpTs))..]
      ensures old(events) != [] ==> |events| < |old(events)|
    {
      ghost var ops, queue, ts, b, dumps := pm.history, events, nextDumpTs, batchToDump, Progress();
      PassEvents();
      RoundKeepsOrder(ops, queue, ts, b);
      RoundKeepsSchedule(ops, queue, b, startHour);
      RoundKeepsFiles(dumps, Progress(), queue, ts, ops, pm.phaseTimeout);
    }

    /** The queue of a round: what was left, and what a pass returned. */
    ghost predicate QueueIs(queue: seq<Event>, left: seq<Event>, before: seq<Event>)
      reads cm
      requires cm.Valid()
    {
      left <= queue && cm.AllReturned() == before + queue[|left|..]
    }

    /** The second half of a round. */
    method MatchAndPass() returns (ghost newIds: seq<int>, ghost queue: seq<Event>)
      requires Valid()
      modifies `events, `written, `nextDumpTs, `batchToDump, cm, pm
      ensures Valid() && cm.calls == old(cm.calls) + [R.MatchEvents(newIds)]
      ensures QueueIs(queue, old(events), old(cm.AllReturned()))
      ensures Wrote(old(Progress()), Progress(), queue, old(nextDumpTs), old(pm.history), pm.phaseTimeout)
      ensures pm.history == old(pm.history) + RoundCalls(queue, old(nextDumpTs), old(batchToDump))
      ensures events == queue[HandedCount(queue, old(nextDumpTs))..]
    {
      newIds := CollectEvents();
      queue := events;
      PassQueue();
    }

    method ReadConfirmations(cts: Option<nat>, ets: Option<nat>, confirmations: seq<Confirmation>)
      requires cm.Valid() && (cts.Some? ==> ets.Some?)
      modifies cm
      ensures cm.Valid() && cm.AllReturned() == old(cm.AllReturned())
      ensures cm.calls == old(cm.calls) + LoadsConfirmations(cts, ets, loadThreshold, confirmations)
    {
      if cts.None? || cts.value - ets.value < loadThreshold {
        cm.LoadConfirmationBatch(confirmations);
      } else {
        assert cm.calls + [] == cm.calls;
      }
    }

    method ReadEvents(cts: Option<nat>, ets: Option<nat>, batch: seq<Event>)
      requires cm.Valid() && (ets.Some? ==> cts.Some?) && C.Unconfirmed(batch)
      modifies cm
      ensures cm.Valid() && cm.AllReturned() == old(cm.AllReturned())
      ensures cm.calls == old(cm.calls) + LoadsEvents(cts, ets, loadThreshold, batch)
    {
      if ets.None? || ets.value - cts.value < loadThreshold {
        cm.LoadEventBatch(batch);
      } else {
        assert cm.calls + [] == cm.calls;
      }
    }

    /** Loads what is not too far ahead. */
    method LoadBatches(confirmations: seq<Confirmation>, batch: seq<Event>) returns (raised: bool)
      requires cm.Valid() && QueueValid() && C.Unconfirmed(batch)
      modifies cm
      ensures cm.Valid() && QueueValid() && cm.AllReturned() == old(cm.AllReturned())
      ensures cm.calls == old(cm.calls) + Loads(old(cm.cts), old(cm.ets), loadThreshold, confirmations, batch)
      ensures raised <==> old(cm.cts).Some? != old(cm.ets).Some?
    {
      var ets, cts := cm.ets, cm.cts;
      // Subtracting nothing.
      if cts.Some? && ets.None? {
        assert cm.calls + [] == cm.calls;
        return true;
      }
      ReadConfirmations(cts, ets, confirmations);
      // Subtracting nothing, again.
      if ets.Some? && cts.None? {
        return true;
      }
      ReadEvents(cts, ets, batch);
      Associate(old(cm.calls), LoadsConfirmations(cts, ets, loadThreshold, confirmations), LoadsEvents(cts, ets, loadThreshold, batch));
      raised := false;
    }

    lemma NothingDelivered()
      requires cm.Valid()
      ensures cm.cts.Some? <==> AllConfirmationTimes(cm.calls) != []
      ensures cm.ets.Some? <==> AllEventTimes(cm.calls) != []
    {
      NewestIsMaximum(AllConfirmationTimes(cm.calls));
      NewestIsMaximum(AllEventTimes(cm.calls));
    }

    /** One round of `match`; the arguments are the next batches of the two readers.  A
        subtraction raises a TypeError if and only if exactly one log has delivered anything
        so far; otherwise each log is read on that is not too far ahead. */
    method Round(confirmations: seq<Confirmation>, batch: seq<Event>)
      returns (raised: bool, ghost newIds: seq<int>, ghost queue: seq<Event>)
      requires Valid() && C.Unconfirmed(batch)
      modifies this, cm, pm
      ensures Valid()
      ensures raised <==> (AllConfirmationTimes(old(cm.calls)) == []) != (AllEventTimes(old(cm.calls)) == [])
      ensures cm.calls == old(cm.calls) + Loads(old(cm.cts), old(cm.ets), loadThreshold, confirmations, batch) +
                          if raised then [] else [R.MatchEvents(newIds)]
      ensures raised ==> pm.history == old(pm.history) && events == old(events) && Progress() == old(Progress())
      ensures !raised ==> QueueIs(queue, old(events), old(cm.AllReturned()))
      ensures !raised ==> Wrote(old(Progress()), Progress(), queue, old(nextDumpTs), old(pm.history), pm.phaseTimeout)
      ensures !raised ==> pm.history == old(pm.history) + RoundCalls(queue, old(nextDumpTs), old(batchToDump))
      ensures !raised ==> events == queue[HandedCount(queue, old(nextDumpTs))..]
    {
      NothingDelivered();
      newIds, queue := [], [];
      raised := LoadBatches(confirmations, batch);
      if raised {
        return;
      }
      newIds, queue := MatchAndPass();
    }
  }
}
