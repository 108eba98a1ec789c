/** What a checkpoint leaves unmatched: `try_match_everything` completes at most one regular SYN
    and one acknowledged regular SYN of a key, so that others may keep fitting an open first
    phase.  Exactly when they do, and a run in which they do. */
module PhaseCheckpoints {
  import opened Collections
  import opened Events
  import opened Phases
  import opened PhaseSteps
  import opened PhaseRuns

  /** No SYN that waits for its first phase fits an irregular SYN that waits for its second. */
  predicate PhasesSaturated(c: Cell, timeout: int) {
    (forall r :: r in c.regularSyns ==> MatchRsyn(c, r, timeout).None?) &&
    (forall p :: p in c.regularAcked ==> MatchRsynAcked(c, p, timeout).None?)
  }

  // -- windows and times -----------------------------------------------------------------------

  /** The confirmation that opens a first phase's window. */
  type Window = Option<Confirmation>

  function WindowOf(r: Record): Window {
    if r.isyn.Some? then r.isyn.value.confirmation else None
  }

  /** The first phases of a key, in the order a second phase tries them. */
  function Windows(c: Cell): seq<Window> {
    seq(|c.irregularSyns|, i requires 0 <= i < |c.irregularSyns| => c.irregularSyns[i].confirmation) +
    seq(|c.irregularAcked|, i requires 0 <= i < |c.irregularAcked| => WindowOf(c.irregularAcked[i]))
  }

  function RegularTimes(c: Cell): seq<nat> {
    seq(|c.regularSyns|, i requires 0 <= i < |c.regularSyns| => SynTs(c.regularSyns[i]))
  }

  function RecordTime(r: Record): nat {
    if r.rsyn.Some? then SynTs(r.rsyn.value) else 0
  }

  function AckedTimes(c: Cell): seq<nat> {
    seq(|c.regularAcked|, i requires 0 <= i < |c.regularAcked| => RecordTime(c.regularAcked[i]))
  }

  function Around(ts: nat, timeout: int): Window -> bool {
    (w: Window) => WithinTimeout(w, ts, timeout)
  }

  function Fits(windows: seq<Window>, timeout: int): nat -> bool {
    (ts: nat) => First(windows, Around(ts, timeout)) < |windows|
  }

  /** `ts` falls into the window of a two-phase record. */
  predicate InTwoPhase(c: Cell, ts: nat, timeout: int) {
    (exists r :: r in c.twoPhaseNoAck && WithinTimeout(WindowOf(r), ts, timeout)) ||
    (exists r :: r in c.twoPhase && WithinTimeout(WindowOf(r), ts, timeout))
  }

  // -- one pass ---------------------------------------------------------------------------------

  /** The SYN a pass completes and the first phase it takes, by position; past the end if there
      is none. */
  datatype Pick = Pick(syn: nat, window: nat)

  function PickFrom(times: seq<nat>, windows: seq<Window>, timeout: int): (p: Pick)
    ensures p.syn < |times| <==> p.window < |windows|
    ensures p.syn <= |times| && p.window <= |windows|
  {
    var i := First(times, Fits(windows, timeout));
    Pick(i, if i < |times| then First(windows, Around(times[i], timeout)) else |windows|)
  }

  function Without<T>(s: seq<T>, i: nat): seq<T> {
    if i < |s| then Delete(s, i) else s
  }

  /** The first phase taken has become part of a two-phase record. */
  predicate Taken(windows: seq<Window>, p: Pick, ts: nat, timeout: int) {
    p.window < |windows| && WithinTimeout(windows[p.window], ts, timeout)
  }

  /** One match of each kind is enough for these lists: besides the first regular SYN with an open
      first phase none fits a first phase that is not taken, and besides the first such
      acknowledged one none does outside the windows of two-phase records, old and new. */
  predicate OneMatchEnough(c: Cell, timeout: int) {
    var p := PickFrom(RegularTimes(c), Windows(c), timeout);
    var others := Without(Windows(c), p.window);
    var q := PickFrom(AckedTimes(c), others, timeout);
    var left := Without(others, q.window);
    (forall h :: 0 <= h < |c.regularSyns| && h != p.syn ==> !Fits(left, timeout)(RegularTimes(c)[h])) &&
    (forall h :: 0 <= h < |c.regularAcked| && h != q.syn && Fits(left, timeout)(AckedTimes(c)[h]) ==>
       var ts := AckedTimes(c)[h];
       InTwoPhase(c, ts, timeout) || Taken(Windows(c), p, ts, timeout) || Taken(others, q, ts, timeout))
  }

  lemma FirstWindow(c: Cell, ts: nat, timeout: int)
    ensures var i, k := First(c.irregularSyns, Open(ts, timeout)), First(Windows(c), Around(ts, timeout));
            var j := First(c.irregularAcked, IsynOpen(ts, timeout));
            k == if i < |c.irregularSyns| then i else |c.irregularSyns| + j
  {
    var i, w := First(c.irregularSyns, Open(ts, timeout)), Windows(c);
    var j := First(c.irregularAcked, IsynOpen(ts, timeout));
    forall h | 0 <= h < |c.irregularSyns| ensures Around(ts, timeout)(w[h]) == Open(ts, timeout)(c.irregularSyns[h]) {
    }
    forall h | 0 <= h < |c.irregularAcked|
      ensures Around(ts, timeout)(w[|c.irregularSyns| + h]) == IsynOpen(ts, timeout)(c.irregularAcked[h])
    {
    }
    var n := |c.irregularSyns|;
    forall h | n <= h < n + j && h < |w| ensures !Around(ts, timeout)(w[h]) {
      assert !IsynOpen(ts, timeout)(c.irregularAcked[h - n]);
    }
    FirstUnique(w, Around(ts, timeout), if i < n then i else n + j);
  }

  /** `d` is `c` after the first phase at `k` became part of a two-phase record. */
  ghost predicate TookWindow(c: Cell, d: Cell, k: nat, timeout: int) {
    k < |Windows(c)| && Windows(d) == Delete(Windows(c), k) &&
    d.regularSyns == c.regularSyns && d.regularAcked == c.regularAcked &&
    forall ts :: InTwoPhase(d, ts, timeout) <==> InTwoPhase(c, ts, timeout) || WithinTimeout(Windows(c)[k], ts, timeout)
  }

  lemma WindowsLose(c: Cell, d: Cell, i: nat)
    requires i < |c.irregularSyns| && d.irregularSyns == Delete(c.irregularSyns, i) && d.irregularAcked == c.irregularAcked
    ensures Windows(d) == Delete(Windows(c), i)
  {
  }

  lemma WindowsLoseAcked(c: Cell, d: Cell, j: nat)
    requires j < |c.irregularAcked| && d.irregularSyns == c.irregularSyns && d.irregularAcked == Delete(c.irregularAcked, j)
    ensures Windows(d) == Delete(Windows(c), |c.irregularSyns| + j)
  {
  }

  lemma WindowsMove(c: Cell, d: Cell, k: nat, r: Record, timeout: int)
    requires k < |Windows(c)| && Windows(d) == Delete(Windows(c), k) && WindowOf(r) == Windows(c)[k]
    requires d.regularSyns == c.regularSyns && d.regularAcked == c.regularAcked
    requires (d.twoPhaseNoAck == c.twoPhaseNoAck + [r] && d.twoPhase == c.twoPhase) ||
             (d.twoPhaseNoAck == c.twoPhaseNoAck && d.twoPhase == c.twoPhase + [r])
    ensures TookWindow(c, d, k, timeout)
  {
    assert d.twoPhaseNoAck != c.twoPhaseNoAck ==> r in d.twoPhaseNoAck;
    assert d.twoPhase != c.twoPhase ==> r in d.twoPhase;
  }

  lemma RsynTakesIsyn(c: Cell, r: Event, i: nat, timeout: int)
    requires i == First(c.irregularSyns, Open(SynTs(r), timeout)) && i < |c.irregularSyns|
    ensures MatchRsyn(c, r, timeout).Some? && TookWindow(c, MatchRsyn(c, r, timeout).value, i, timeout)
  {
    var d := RsynToIsyn(c, r, timeout).value;
    WindowsLose(c, d, i);
    WindowsMove(c, d, i, d.twoPhaseNoAck[|c.twoPhaseNoAck|], timeout);
  }

  lemma RsynTakesAcked(c: Cell, r: Event, j: nat, timeout: int)
    requires First(c.irregularSyns, Open(SynTs(r), timeout)) == |c.irregularSyns|
    requires j == First(c.irregularAcked, IsynOpen(SynTs(r), timeout)) && j < |c.irregularAcked|
    ensures MatchRsyn(c, r, timeout).Some?
    ensures TookWindow(c, MatchRsyn(c, r, timeout).value, |c.irregularSyns| + j, timeout)
  {
    var d := RsynToIsynAcked(c, r, timeout).value;
    WindowsLoseAcked(c, d, j);
    WindowsMove(c, d, |c.irregularSyns| + j, d.twoPhaseNoAck[|c.twoPhaseNoAck|], timeout);
  }

  lemma RsynTakes(c: Cell, r: Event, timeout: int)
    ensures var k := First(Windows(c), Around(SynTs(r), timeout));
            if k == |Windows(c)| then MatchRsyn(c, r, timeout).None?
            else MatchRsyn(c, r, timeout).Some? && TookWindow(c, MatchRsyn(c, r, timeout).value, k, timeout)
  {
    FirstWindow(c, SynTs(r), timeout);
    var i := First(c.irregularSyns, Open(SynTs(r), timeout));
    var j := First(c.irregularAcked, IsynOpen(SynTs(r), timeout));
    if i < |c.irregularSyns| {
      RsynTakesIsyn(c, r, i, timeout);
    } else if j < |c.irregularAcked| {
      RsynTakesAcked(c, r, j, timeout);
    }
  }

  lemma RsynAckedTakesIsyn(c: Cell, p2: Record, i: nat, timeout: int)
    requires p2.rsyn.Some? && i == First(c.irregularSyns, Open(RecordTime(p2), timeout)) && i < |c.irregularSyns|
    ensures MatchRsynAcked(c, p2, timeout).Some? && TookWindow(c, MatchRsynAcked(c, p2, timeout).value, i, timeout)
  {
    var d := RsynAckedToIsyn(c, p2, timeout).value;
    WindowsLose(c, d, i);
    WindowsMove(c, d, i, d.twoPhase[|c.twoPhase|], timeout);
  }

  lemma RsynAckedTakesAcked(c: Cell, p2: Record, j: nat, timeout: int)
    requires p2.rsyn.Some? && First(c.irregularSyns, Open(RecordTime(p2), timeout)) == |c.irregularSyns|
    requires j == First(c.irregularAcked, IsynOpen(RecordTime(p2), timeout)) && j < |c.irregularAcked|
    ensures MatchRsynAcked(c, p2, timeout).Some?
    ensures TookWindow(c, MatchRsynAcked(c, p2, timeout).value, |c.irregularSyns| + j, timeout)
  {
    var d := RsynAckedToIsynAcked(c, p2, timeout).value;
    WindowsLoseAcked(c, d, j);
    WindowsMove(c, d, |c.irregularSyns| + j, d.twoPhase[|c.twoPhase|], timeout);
  }

  lemma RsynAckedTakes(c: Cell, p2: Record, timeout: int)
    requires p2.rsyn.Some?
    ensures var k := First(Windows(c), Around(RecordTime(p2), timeout));
            if k == |Windows(c)| then MatchRsynAcked(c, p2, timeout).None?
            else MatchRsynAcked(c, p2, timeout).Some? && TookWindow(c, MatchRsynAcked(c, p2, timeout).value, k, timeout)
  {
    FirstWindow(c, RecordTime(p2), timeout);
    var i := First(c.irregularSyns, Open(RecordTime(p2), timeout));
    var j := First(c.irregularAcked, IsynOpen(RecordTime(p2), timeout));
    if i < |c.irregularSyns| {
      RsynAckedTakesIsyn(c, p2, i, timeout);
    } else if j < |c.irregularAcked| {
      RsynAckedTakesAcked(c, p2, j, timeout);
    }
  }

  lemma RsynsPassPicks(c: Cell, timeout: int)
    ensures var p, d := PickFrom(RegularTimes(c), Windows(c), timeout), RsynsPass(c, timeout);
            d.regularSyns == Without(c.regularSyns, p.syn) && d.regularAcked == c.regularAcked &&
            Windows(d) == Without(Windows(c), p.window) &&
            forall ts :: InTwoPhase(d, ts, timeout) <==> InTwoPhase(c, ts, timeout) || Taken(Windows(c), p, ts, timeout)
  {
    var times, fits := RegularTimes(c), Fits(Windows(c), timeout);
    forall h | 0 <= h < |c.regularSyns| ensures fits(times[h]) == HasFirstPhase(c, timeout)(c.regularSyns[h]) {
      RsynTakes(c, c.regularSyns[h], timeout);
    }
    var i := First(c.regularSyns, HasFirstPhase(c, timeout));
    FirstUnique(times, fits, i);
    if i < |times| {
      RsynTakes(c, c.regularSyns[i], timeout);
      SameWindows(MatchRsyn(c, c.regularSyns[i], timeout).value, RsynsPass(c, timeout), timeout);
    }
  }

  lemma SameWindows(c: Cell, d: Cell, timeout: int)
    requires c.irregularSyns == d.irregularSyns && c.irregularAcked == d.irregularAcked
    requires c.twoPhaseNoAck == d.twoPhaseNoAck && c.twoPhase == d.twoPhase
    ensures Windows(c) == Windows(d) && forall ts :: InTwoPhase(c, ts, timeout) <==> InTwoPhase(d, ts, timeout)
  {
  }

  lemma RsynsAckedPassPicks(c: Cell, timeout: int)
    requires forall r :: r in c.regularAcked ==> r.rsyn.Some?
    ensures var p, d := PickFrom(AckedTimes(c), Windows(c), timeout), RsynsAckedPass(c, timeout);
            d.regularAcked == Without(c.regularAcked, p.syn) && d.regularSyns == c.regularSyns &&
            Windows(d) == Without(Windows(c), p.window) &&
            forall ts :: InTwoPhase(d, ts, timeout) <==> InTwoPhase(c, ts, timeout) || Taken(Windows(c), p, ts, timeout)
  {
    var times, fits := AckedTimes(c), Fits(Windows(c), timeout);
    forall h | 0 <= h < |c.regularAcked| ensures fits(times[h]) == HasFirstPhaseAcked(c, timeout)(c.regularAcked[h]) {
      RsynAckedTakes(c, c.regularAcked[h], timeout);
    }
    var i := First(c.regularAcked, HasFirstPhaseAcked(c, timeout));
    FirstUnique(times, fits, i);
    if i < |times| {
      RsynAckedTakes(c, c.regularAcked[i], timeout);
      SameWindows(MatchRsynAcked(c, c.regularAcked[i], timeout).value, RsynsAckedPass(c, timeout), timeout);
    }
  }

  // -- both passes and the search for repeated connections --------------------------------------

  predicate AllHaveRsyn(rs: seq<Record>) {
    forall r :: r in rs ==> r.rsyn.Some?
  }

  lemma WithoutMembers<T(!new)>(s: seq<T>, i: nat, x: T)
    ensures x in Without(s, i) <==> exists h :: 0 <= h < |s| && h != i && s[h] == x
  {
    if i < |s| {
      var r := Delete(s, i);
      assert forall h :: 0 <= h < |s| && h != i ==> r[if h < i then h else h - 1] == s[h];
      if x in r {
        var h :| 0 <= h < |r| && r[h] == x;
        assert s[if h < i then h else h + 1] == x;
      }
    }
  }

  lemma RepeatsInTwoPhase(c: Cell, r: Record, timeout: int)
    requires r.rsyn.Some?
    ensures Repeats(c.twoPhaseNoAck, r, timeout) || Repeats(c.twoPhase, r, timeout) <==> InTwoPhase(c, RecordTime(r), timeout)
  {
    forall x: Record ensures IsynOpen(RecordTime(r), timeout)(x) == WithinTimeout(WindowOf(x), RecordTime(r), timeout) {
    }
  }

  /** What `find_repeated_connections` keeps fits no first phase, as seen before it ran. */
  lemma AfterRepeats(d: Cell, timeout: int)
    requires AllHaveRsyn(d.regularAcked)
    ensures PhasesSaturated(FindRepeated(d, timeout), timeout) <==>
            (forall r :: r in d.regularSyns ==> !Fits(Windows(d), timeout)(SynTs(r))) &&
            (forall r :: r in d.regularAcked && Fits(Windows(d), timeout)(RecordTime(r)) ==> InTwoPhase(d, RecordTime(r), timeout))
  {
    var f := FindRepeated(d, timeout);
    MatchRepeatsExactly(d, d.regularAcked, timeout);
    SameWindows(d, f, timeout);
    forall r: Event ensures MatchRsyn(f, r, timeout).None? == !Fits(Windows(d), timeout)(SynTs(r)) {
      RsynTakes(f, r, timeout);
    }
    forall r: Record | r.rsyn.Some?
      ensures MatchRsynAcked(f, r, timeout).None? == !Fits(Windows(d), timeout)(RecordTime(r))
      ensures r in f.regularAcked <==> r in d.regularAcked && !InTwoPhase(d, RecordTime(r), timeout)
    {
      RsynAckedTakes(f, r, timeout);
      RepeatsInTwoPhase(d, r, timeout);
    }
  }

  /** The condition, stated for the regular SYNs behind the passes. */
  lemma OthersFit(c: Cell, d: Cell, i: nat, left: seq<Window>, timeout: int)
    requires d.regularSyns == Without(c.regularSyns, i)
    ensures (forall h :: 0 <= h < |c.regularSyns| && h != i ==> !Fits(left, timeout)(RegularTimes(c)[h])) <==>
            (forall r :: r in d.regularSyns ==> !Fits(left, timeout)(SynTs(r)))
  {
    forall r | r in d.regularSyns ensures exists h :: 0 <= h < |c.regularSyns| && h != i && c.regularSyns[h] == r && RegularTimes(c)[h] == SynTs(r) {
      WithoutMembers(c.regularSyns, i, r);
      var h :| 0 <= h < |c.regularSyns| && h != i && c.regularSyns[h] == r;
      assert RegularTimes(c)[h] == SynTs(r);
    }
    forall h | 0 <= h < |c.regularSyns| && h != i ensures c.regularSyns[h] in d.regularSyns {
      WithoutMembers(c.regularSyns, i, c.regularSyns[h]);
    }
  }

  /** The condition, stated for the acknowledged ones. */
  lemma OthersFitAcked(c: Cell, d: Cell, i: nat, left: seq<Window>, timeout: int)
    requires d.regularAcked == Without(c.regularAcked, i)
    ensures (forall h :: 0 <= h < |c.regularAcked| && h != i && Fits(left, timeout)(AckedTimes(c)[h]) ==>
               InTwoPhase(d, AckedTimes(c)[h], timeout)) <==>
            (forall r :: r in d.regularAcked && Fits(left, timeout)(RecordTime(r)) ==> InTwoPhase(d, RecordTime(r), timeout))
  {
    forall r | r in d.regularAcked ensures exists h :: 0 <= h < |c.regularAcked| && h != i && c.regularAcked[h] == r && AckedTimes(c)[h] == RecordTime(r) {
      WithoutMembers(c.regularAcked, i, r);
      var h :| 0 <= h < |c.regularAcked| && h != i && c.regularAcked[h] == r;
      assert AckedTimes(c)[h] == RecordTime(r);
    }
    forall h | 0 <= h < |c.regularAcked| && h != i ensures c.regularAcked[h] in d.regularAcked {
      WithoutMembers(c.regularAcked, i, c.regularAcked[h]);
    }
  }

  lemma OneMatchEnoughMeans(c: Cell, d: Cell, p: Pick, q: Pick, timeout: int)
    requires p == PickFrom(RegularTimes(c), Windows(c), timeout)
    requires q == PickFrom(AckedTimes(c), Without(Windows(c), p.window), timeout)
    requires d.regularSyns == Without(c.regularSyns, p.syn) && d.regularAcked == Without(c.regularAcked, q.syn)
    requires Windows(d) == Without(Without(Windows(c), p.window), q.window)
    requires forall ts :: InTwoPhase(d, ts, timeout) <==>
               InTwoPhase(c, ts, timeout) || Taken(Windows(c), p, ts, timeout) || Taken(Without(Windows(c), p.window), q, ts, timeout)
    ensures OneMatchEnough(c, timeout) <==>
            (forall r :: r in d.regularSyns ==> !Fits(Windows(d), timeout)(SynTs(r))) &&
            (forall r :: r in d.regularAcked && Fits(Windows(d), timeout)(RecordTime(r)) ==> InTwoPhase(d, RecordTime(r), timeout))
  {
    OthersFit(c, d, p.syn, Windows(d), timeout);
    OthersFitAcked(c, d, q.syn, Windows(d), timeout);
  }

  /** A checkpoint leaves no matching SYNs behind if and only if one match each was enough on the
      lists the ACK loop left. */
  lemma CheckpointSaturatesPhasesExactly(c: Cell, timeout: int)
    requires AllHaveRsyn(AcksPass(c).regularAcked)
    ensures PhasesSaturated(FindRepeated(MatchEverything(c, timeout), timeout), timeout) <==>
            OneMatchEnough(AcksPass(c), timeout)
  {
    var a := AcksPass(c);
    var b := RsynsPass(a, timeout);
    var d := RsynsAckedPass(b, timeout);
    RsynsPassPicks(a, timeout);
    RsynsAckedPassPicks(b, timeout);
    var p := PickFrom(RegularTimes(a), Windows(a), timeout);
    var q := PickFrom(AckedTimes(b), Windows(b), timeout);
    forall r | r in d.regularAcked ensures r.rsyn.Some? {
      WithoutMembers(b.regularAcked, q.syn, r);
    }
    assert AckedTimes(b) == AckedTimes(a);
    OneMatchEnoughMeans(a, d, p, q, timeout);
    AfterRepeats(d, timeout);
  }

  /** If no ACK is waiting for a SYN that is there, the ACK loop changes nothing, and the condition
      is about the lists as they are. */
  lemma {:induction false} NothingToAcknowledge(c: Cell, acks: seq<Event>)
    requires forall a :: a in acks ==> Unmatched(c, a)
    ensures MatchAcks(c, acks) == (c, acks)
  {
    if acks != [] {
      var n := |acks| - 1;
      NothingToAcknowledge(c, acks[..n]);
      MatchAckNone(c, acks[n]);
      assert acks == acks[..n] + [acks[n]];
    }
  }

  lemma AckedHaveRsyns(ops: seq<Op>, k: Key, timeout: int)
    ensures AllHaveRsyn(AcksPass(CellOf(ops, k, timeout)).regularAcked)
  {
    RunIsSound(ops, k, timeout);
    AcksPassSound(CellOf(ops, k, timeout), k, timeout);
  }

  lemma IdleAcksPass(c: Cell)
    requires Saturated(c)
    ensures AcksPass(c) == c
  {
    NothingToAcknowledge(c, c.acks);
  }

  /** The same in every reachable state. */
  lemma CheckpointLeavesPhasesExactly(ops: seq<Op>, k: Key, timeout: int)
    ensures PhasesSaturated(CellOf(ops + [TryMatchEverything] + [FindRepeatedConnections], k, timeout), timeout) <==>
            OneMatchEnough(AcksPass(CellOf(ops, k, timeout)), timeout)
  {
    var c := CellOf(ops, k, timeout);
    CheckpointCell(ops, k, timeout);
    AckedHaveRsyns(ops, k, timeout);
    CheckpointSaturatesPhasesExactly(c, timeout);
  }
}
