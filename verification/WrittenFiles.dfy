/** The files of the assembly tool against the calls on the phase matcher: what they hold, and
    how often. */
module WrittenFiles {
  import opened Collections
  import opened Events
  import opened Phases
  import opened PhaseSteps
  import opened PhaseRuns
  import opened PhaseRows

  /** `elems` are the rows an eviction of batch `b` owes after the calls `ops`, and no others. */
  ghost predicate HoldsBatch(elems: seq<Row>, ops: seq<Op>, b: int, timeout: int) {
    (forall k :: multiset(RowsFor(elems, k)) == multiset(EvictRows(CellOf(ops, k, timeout), b))) &&
    forall row :: row in elems ==> RowKey(row).Some?
  }

  /** An eviction of batch `b` after the calls `ops` has something to write. */
  ghost predicate Owes(ops: seq<Op>, b: int, timeout: int) {
    exists k :: EvictRows(CellOf(ops, k, timeout), b) != []
  }

  lemma OwesExactly(elems: seq<Row>, ops: seq<Op>, b: int, timeout: int)
    requires HoldsBatch(elems, ops, b, timeout)
    ensures elems != [] <==> Owes(ops, b, timeout)
  {
    if elems != [] {
      var k := RowKey(elems[0]).value;
      assert elems[0] in elems && RowHasKey(k)(elems[0]);
      FilterMembers(elems, RowHasKey(k));
      assert elems[0] in multiset(RowsFor(elems, k));
    }
    if k :| EvictRows(CellOf(ops, k, timeout), b) != [] {
      assert EvictRows(CellOf(ops, k, timeout), b)[0] in multiset(RowsFor(elems, k));
    }
  }

  /** Every row owed is in the batch. */
  lemma BatchHolds(elems: seq<Row>, ops: seq<Op>, b: int, timeout: int, k: Key, row: Row)
    requires HoldsBatch(elems, ops, b, timeout) && row in EvictRows(CellOf(ops, k, timeout), b)
    ensures row in elems && Owes(ops, b, timeout)
  {
    FilterMembers(elems, RowHasKey(k));
    assert row in multiset(EvictRows(CellOf(ops, k, timeout), b));
    assert row in multiset(RowsFor(elems, k));
    assert row in RowsFor(elems, k);
  }

  /** `files` are what the evictions among `ops` owed, one file for each that owed anything. */
  ghost predicate FilesOf(files: seq<seq<Row>>, ops: seq<Op>, timeout: int)
    decreases |ops|
  {
    if ops == [] then files == []
    else
      var before, last := ops[..|ops| - 1], ops[|ops| - 1];
      if last.EvictBatch? && Owes(before, last.b, timeout) then
        files != [] && HoldsBatch(files[|files| - 1], before, last.b, timeout) && FilesOf(files[..|files| - 1], before, timeout)
      else FilesOf(files, before, timeout)
  }

  lemma FilesSnoc(files: seq<seq<Row>>, ops: seq<Op>, op: Op, timeout: int)
    requires FilesOf(files, ops, timeout) && !op.EvictBatch?
    ensures FilesOf(files, ops + [op], timeout)
  {
    assert (ops + [op])[..|ops|] == ops;
  }

  lemma FilesEvictNothing(files: seq<seq<Row>>, ops: seq<Op>, b: int, timeout: int)
    requires FilesOf(files, ops, timeout) && !Owes(ops, b, timeout)
    ensures FilesOf(files, ops + [EvictBatch(b)], timeout)
  {
    assert (ops + [EvictBatch(b)])[..|ops|] == ops;
  }

  lemma FilesLast(files: seq<seq<Row>>, before: seq<Op>, op: Op, timeout: int)
    requires op.EvictBatch? && Owes(before, op.b, timeout) && files != []
    requires HoldsBatch(files[|files| - 1], before, op.b, timeout) && FilesOf(files[..|files| - 1], before, timeout)
    ensures FilesOf(files, before + [op], timeout)
  {
    assert (before + [op])[..|before|] == before;
  }

  lemma FilesEvict(files: seq<seq<Row>>, elems: seq<Row>, ops: seq<Op>, b: int, timeout: int)
    requires FilesOf(files, ops, timeout) && Owes(ops, b, timeout) && HoldsBatch(elems, ops, b, timeout)
    ensures FilesOf(files + [elems], ops + [EvictBatch(b)], timeout)
  {
    var now := files + [elems];
    assert now[..|now| - 1] == files && now[|now| - 1] == elems;
    FilesLast(now, ops, EvictBatch(b), timeout);
  }

  // -- how often the files hold an event ---------------------------------------------------------

  function FilesOcc(files: seq<seq<Row>>, x: Event): nat {
    if files == [] then 0 else FilesOcc(files[..|files| - 1], x) + RowsOcc(files[|files| - 1], x)
  }

  lemma {:induction false} RowsOccMember(rows: seq<Row>, row: Row, x: Event)
    requires row in rows
    ensures RowOcc(row, x) <= RowsOcc(rows, x)
  {
    var n := |rows| - 1;
    if row != rows[n] {
      RowsOccMember(rows[..n], row, x);
    }
  }

  lemma RowsOccDelete(rows: seq<Row>, i: nat, x: Event)
    requires i < |rows|
    ensures RowsOcc(rows, x) == RowsOcc(Delete(rows, i), x) + RowOcc(rows[i], x)
  {
    assert rows == rows[..i] + ([rows[i]] + rows[i + 1..]);
    RowsOccConcat(rows[..i], rows[i + 1..], x);
    RowsOccConcat(rows[..i], [rows[i]] + rows[i + 1..], x);
    RowsOccConcat([rows[i]], rows[i + 1..], x);
    OneRow(rows[i], x);
  }

  /** Counting does not depend on the order. */
  lemma {:induction false} RowsOccPermutation(s: seq<Row>, t: seq<Row>, x: Event)
    requires multiset(s) == multiset(t)
    ensures RowsOcc(s, x) == RowsOcc(t, x)
    decreases |s|
  {
    if s != [] {
      assert s[0] in multiset(t);
      var i :| 0 <= i < |t| && t[i] == s[0];
      DeleteMultiset(s, 0);
      DeleteMultiset(t, i);
      assert multiset(Delete(s, 0)) == multiset(s) - multiset{s[0]} == multiset(Delete(t, i));
      RowsOccPermutation(Delete(s, 0), Delete(t, i), x);
      RowsOccDelete(s, 0, x);
      RowsOccDelete(t, i, x);
    } else {
      assert |multiset(t)| == 0;
    }
  }

  lemma OneRow(row: Row, x: Event)
    ensures RowsOcc([row], x) == RowOcc(row, x)
  {
    assert [row][..0] == [];
  }

  lemma {:induction false} RowsOccFilter(rows: seq<Row>, p: Row -> bool, x: Event)
    requires forall row :: row in rows && !p(row) ==> RowOcc(row, x) == 0
    ensures RowsOcc(Filter(rows, p), x) == RowsOcc(rows, x)
  {
    if rows != [] {
      var n := |rows| - 1;
      assert rows == rows[..n] + [rows[n]];
      RowsOccFilter(rows[..n], p, x);
      if p(rows[n]) {
        RowsOccConcat(Filter(rows[..n], p), [rows[n]], x);
        OneRow(rows[n], x);
      }
    }
  }

  /** The rows of another key do not hold `x`. */
  lemma OtherRowsHoldNothing(elems: seq<Row>, ops: seq<Op>, b: int, timeout: int, row: Row, x: Event)
    requires HoldsBatch(elems, ops, b, timeout) && row in elems && RowKey(row) != Some(KeyOf(x))
    ensures RowOcc(row, x) == 0
  {
    var k := RowKey(row).value;
    var c := CellOf(ops, k, timeout);
    OtherKeysHoldNothing(ops, k, x, timeout);
    EvictConserves(c, b, x);
    assert RowHasKey(k)(row);
    FilterMembers(elems, RowHasKey(k));
    assert row in multiset(RowsFor(elems, k));
    assert row in EvictRows(c, b);
    RowsOccMember(EvictRows(c, b), row, x);
  }

  /** A batch holds `x` as often as the lists of its key owed it. */
  lemma BatchOcc(elems: seq<Row>, ops: seq<Op>, b: int, timeout: int, x: Event)
    requires HoldsBatch(elems, ops, b, timeout)
    ensures RowsOcc(elems, x) == RowsOcc(EvictRows(CellOf(ops, KeyOf(x), timeout), b), x)
  {
    var k := KeyOf(x);
    forall row | row in elems && !RowHasKey(k)(row) ensures RowOcc(row, x) == 0 {
      OtherRowsHoldNothing(elems, ops, b, timeout, row, x);
    }
    RowsOccFilter(elems, RowHasKey(k), x);
    RowsOccPermutation(RowsFor(elems, k), EvictRows(CellOf(ops, k, timeout), b), x);
  }

  /** The files hold an event exactly as often as evictions owed it. */
  lemma {:induction false} FilesHoldWritten(files: seq<seq<Row>>, ops: seq<Op>, timeout: int, x: Event)
    requires FilesOf(files, ops, timeout)
    ensures FilesOcc(files, x) == Written(ops, x, timeout)
  {
    if ops != [] {
      var n := |ops| - 1;
      var before, last := ops[..n], ops[n];
      if last.EvictBatch? && Owes(before, last.b, timeout) {
        FilesHoldWritten(files[..|files| - 1], before, timeout, x);
        BatchOcc(files[|files| - 1], before, last.b, timeout, x);
      } else {
        FilesHoldWritten(files, before, timeout, x);
        if last.EvictBatch? {
          assert EvictRows(CellOf(before, KeyOf(x), timeout), last.b) == [];
        }
      }
    }
  }

  lemma BatchIsGood(elems: seq<Row>, ops: seq<Op>, b: int, timeout: int)
    requires HoldsBatch(elems, ops, b, timeout)
    ensures GoodRows(elems)
  {
    AllRowsAreGood(elems, ops, b, timeout);
  }

  predicate AllGood(files: seq<seq<Row>>) {
    forall i :: 0 <= i < |files| ==> GoodRows(files[i])
  }

  lemma AllGoodSnoc(files: seq<seq<Row>>)
    requires files != [] && AllGood(files[..|files| - 1]) && GoodRows(files[|files| - 1])
    ensures AllGood(files)
  {
    var n := |files| - 1;
    forall i | 0 <= i < |files| ensures GoodRows(files[i]) {
      if i < n {
        assert files[..n][i] == files[i];
      }
    }
  }

  /** Every row of every file has the time, the tag and the packets it should have. */
  lemma {:induction false} FilesAreGood(files: seq<seq<Row>>, ops: seq<Op>, timeout: int)
    requires FilesOf(files, ops, timeout)
    ensures AllGood(files)
  {
    if ops != [] {
      var before, last := ops[..|ops| - 1], ops[|ops| - 1];
      if last.EvictBatch? && Owes(before, last.b, timeout) {
        FilesAreGood(files[..|files| - 1], before, timeout);
        BatchIsGood(files[|files| - 1], before, last.b, timeout);
        AllGoodSnoc(files);
      } else {
        FilesAreGood(files, before, timeout);
      }
    }
  }
}
