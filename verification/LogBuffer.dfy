/** The buffer in front of the collector: lines are batched by hour and size, and batching
    does not change what ends up in the files. */
module Buffering {
  import opened Collections
  import opened LogFiles

  // -- batches -----------------------------------------------------------------------------

  /** Log lines that were sent together, or wait to be. */
  type Batch = seq<Chunk>

  function Bytes(lines: Batch): string {
    if lines == [] then [] else Bytes(lines[..|lines| - 1]) + lines[|lines| - 1].bytes
  }

  predicate OneHour(lines: Batch) {
    forall i :: 0 <= i < |lines| ==> lines[i].hour == lines[0].hour
  }

  datatype Buffered = Buffered(sent: seq<Batch>, live: Batch)

  function Send(b: Buffered): Buffered {
    Buffered(b.sent + [b.live], [])
  }

  /** A line of another hour than the buffered ones sends them. */
  function Roll(b: Buffered, line: Chunk): Buffered {
    if b.live != [] && line.hour != b.live[0].hour then Send(b) else b
  }

  function Add(b: Buffered, line: Chunk): Buffered {
    b.(live := b.live + [line])
  }

  /** A buffer over the threshold is sent at once. */
  function Spill(b: Buffered, threshold: nat): Buffered {
    if |Bytes(b.live)| > threshold then Send(b) else b
  }

  function Put(b: Buffered, line: Chunk, threshold: nat): Buffered {
    Spill(Add(Roll(b, line), line), threshold)
  }

  function PutAll(lines: Batch, threshold: nat): Buffered {
    if lines == [] then Buffered([], [])
    else Put(PutAll(lines[..|lines| - 1], threshold), lines[|lines| - 1], threshold)
  }

  function Concat(batches: seq<Batch>): Batch {
    if batches == [] then [] else Concat(batches[..|batches| - 1]) + batches[|batches| - 1]
  }

  lemma BytesSnoc(lines: Batch, line: Chunk)
    ensures Bytes(lines + [line]) == Bytes(lines) + line.bytes
  {
    assert (lines + [line])[..|lines|] == lines;
  }

  lemma ConcatSnoc(batches: seq<Batch>, batch: Batch)
    ensures Concat(batches + [batch]) == Concat(batches) + batch
  {
    assert (batches + [batch])[..|batches|] == batches;
  }

  predicate GoodBatches(batches: seq<Batch>) {
    forall i :: 0 <= i < |batches| ==> batches[i] != [] && OneHour(batches[i])
  }

  /** `b` holds `lines`: sent and live lines are all of them in order; every batch sent is
      nonempty and of one hour; the live buffer is of one hour and within the threshold. */
  predicate Holds(b: Buffered, lines: Batch, threshold: nat) {
    Concat(b.sent) + b.live == lines && GoodBatches(b.sent) && OneHour(b.live) && |Bytes(b.live)| <= threshold
  }

  lemma SplitLast(lines: Batch)
    requires lines != []
    ensures lines[..|lines| - 1] + [lines[|lines| - 1]] == lines
  {
  }

  /** Nothing is lost, reordered or mixed by buffering. */
  lemma {:induction false} NothingLostOrMixed(lines: Batch, threshold: nat)
    ensures Holds(PutAll(lines, threshold), lines, threshold)
  {
    if lines != [] {
      var n := |lines| - 1;
      NothingLostOrMixed(lines[..n], threshold);
      PutKeeps(PutAll(lines[..n], threshold), lines[..n], lines[n], threshold);
      SplitLast(lines);
    }
  }

  lemma SendKeeps(b: Buffered)
    requires GoodBatches(b.sent) && OneHour(b.live) && b.live != []
    ensures GoodBatches(Send(b).sent) && Concat(Send(b).sent) + Send(b).live == Concat(b.sent) + b.live
  {
    ConcatSnoc(b.sent, b.live);
  }

  lemma AddKeeps(b: Buffered, line: Chunk)
    requires GoodBatches(b.sent) && OneHour(b.live)
    ensures var c := Add(Roll(b, line), line);
            GoodBatches(c.sent) && OneHour(c.live) && c.live != [] && Concat(c.sent) + c.live == Concat(b.sent) + b.live + [line]
  {
    var start := Roll(b, line);
    if start != b {
      SendKeeps(b);
    }
    Associate(Concat(start.sent), start.live, [line]);
  }

  lemma PutKeeps(b: Buffered, lines: Batch, line: Chunk, threshold: nat)
    requires Holds(b, lines, threshold)
    ensures Holds(Put(b, line, threshold), lines + [line], threshold)
  {
    var c := Add(Roll(b, line), line);
    AddKeeps(b, line);
    if |Bytes(c.live)| > threshold {
      SendKeeps(c);
    }
  }

  // -- when a batch is sent -------------------------------------------------------------------

  /** Batch `i` was sent because it was over the threshold, and not before it was; or because the
      next line is of another hour. */
  predicate EndsRight(sent: seq<Batch>, i: nat, lines: Batch, threshold: nat)
    requires i < |sent| && sent[i] != []
  {
    var next := |Concat(sent[..i + 1])|;
    |Bytes(sent[i][..|sent[i]| - 1])| <= threshold &&
    (|Bytes(sent[i])| > threshold || (next < |lines| && lines[next].hour != sent[i][0].hour))
  }

  predicate AllEndRight(sent: seq<Batch>, lines: Batch, threshold: nat) {
    forall i :: 0 <= i < |sent| ==> sent[i] != [] && EndsRight(sent, i, lines, threshold)
  }

  lemma {:induction false} PrefixWithin(lines: Batch, k: nat)
    requires k <= |lines|
    ensures |Bytes(lines[..k])| <= |Bytes(lines)|
  {
    if k == |lines| {
      assert lines[..k] == lines;
    } else {
      PrefixWithin(lines[..|lines| - 1], k);
      assert lines[..|lines| - 1][..k] == lines[..k];
    }
  }

  /** More lines change nothing about the batches sent already. */
  lemma StillEndRight(sent: seq<Batch>, lines: Batch, line: Chunk, threshold: nat)
    requires AllEndRight(sent, lines, threshold)
    ensures AllEndRight(sent, lines + [line], threshold)
  {
    forall i | 0 <= i < |sent| ensures sent[i] != [] && EndsRight(sent, i, lines + [line], threshold) {
      assert EndsRight(sent, i, lines, threshold);
    }
  }

  lemma SentBatchEndsRight(sent: seq<Batch>, batch: Batch, lines: Batch, threshold: nat)
    requires AllEndRight(sent, lines, threshold) && batch != [] && |Bytes(batch[..|batch| - 1])| <= threshold
    requires |Bytes(batch)| > threshold ||
             (|Concat(sent + [batch])| < |lines| && lines[|Concat(sent + [batch])|].hour != batch[0].hour)
    ensures AllEndRight(sent + [batch], lines, threshold)
  {
    var all := sent + [batch];
    forall i | 0 <= i < |all| ensures all[i] != [] && EndsRight(all, i, lines, threshold) {
      if i < |sent| {
        assert all[..i + 1] == sent[..i + 1];
        assert EndsRight(sent, i, lines, threshold);
      } else {
        assert all[..i + 1] == all;
      }
    }
  }

  /** A line of another hour sends what was buffered. */
  lemma RollEndsRight(b: Buffered, lines: Batch, line: Chunk, threshold: nat)
    requires Holds(b, lines, threshold) && AllEndRight(b.sent, lines, threshold)
    ensures AllEndRight(Roll(b, line).sent, lines + [line], threshold)
  {
    StillEndRight(b.sent, lines, line, threshold);
    if b.live != [] && line.hour != b.live[0].hour {
      ConcatSnoc(b.sent, b.live);
      PrefixWithin(b.live, |b.live| - 1);
      assert (lines + [line])[|lines|] == line;
      SentBatchEndsRight(b.sent, b.live, lines + [line], threshold);
    }
  }

  /** In every run a batch is sent exactly when it gets over the threshold, or when a line of
      another hour comes. */
  lemma {:induction false} BatchesEndRight(lines: Batch, threshold: nat)
    ensures AllEndRight(PutAll(lines, threshold).sent, lines, threshold)
  {
    if lines != [] {
      var n := |lines| - 1;
      var b := PutAll(lines[..n], threshold);
      var rolled := Roll(b, lines[n]);
      BatchesEndRight(lines[..n], threshold);
      NothingLostOrMixed(lines[..n], threshold);
      SplitLast(lines);
      RollEndsRight(b, lines[..n], lines[n], threshold);
      var live := rolled.live + [lines[n]];
      assert live[..|live| - 1] == rolled.live;
      if |Bytes(live)| > threshold {
        SentBatchEndsRight(rolled.sent, live, lines, threshold);
      }
    }
  }

  // -- batching is transparent ----------------------------------------------------------------

  /** The message a batch is sent as. */
  function Message(batch: Batch): Chunk {
    Chunk(Bytes(batch), if batch == [] then 0 else batch[0].hour)
  }

  function Messages(batches: seq<Batch>): (messages: seq<Chunk>)
    ensures |messages| == |batches|
  {
    if batches == [] then []
    else Messages(batches[..|batches| - 1]) + [Message(batches[|batches| - 1])]
  }

  /** Lines of one hour act like one chunk of that hour. */
  lemma {:induction false} BatchActsAsOne(before: seq<Chunk>, batch: Batch, hour: int)
    requires batch != [] && OneHour(batch)
    ensures SameEffect(before + batch, before + [Message(batch)], hour)
  {
    var n := |batch| - 1;
    if n == 0 {
      assert batch == [batch[0]];
      BytesSnoc([], batch[0]);
      assert [] + [batch[0]] == batch && [] + batch[0].bytes == batch[0].bytes;
      SameChunk(before, batch[0], Message(batch), hour);
    } else {
      BatchActsAsOne(before, batch[..n], hour);
      assert before + batch == before + batch[..n] + [batch[n]];
      OneMore(before, batch, hour);
    }
  }

  /** Two histories that leave the same latest hour and the same file. */
  predicate SameEffect(s: seq<Chunk>, t: seq<Chunk>, hour: int) {
    s != [] && t != [] && LatestHour(s) == LatestHour(t) && Content(s, hour) == Content(t, hour) &&
    (Touched(s, hour) <==> Touched(t, hour))
  }

  lemma SameChunk(before: seq<Chunk>, c: Chunk, d: Chunk, hour: int)
    requires c.bytes == d.bytes && c.hour == d.hour
    ensures SameEffect(before + [c], before + [d], hour)
  {
    ChunkSnoc(before, c);
    ChunkSnoc(before, d);
  }

  lemma SameChunkAfter(s: seq<Chunk>, t: seq<Chunk>, c: Chunk, hour: int)
    requires SameEffect(s, t, hour)
    ensures SameEffect(s + [c], t + [c], hour)
  {
    ChunkSnoc(s, c);
    ChunkSnoc(t, c);
  }

  /** The last line of a batch joins the message of the others. */
  lemma OneMore(before: seq<Chunk>, batch: Batch, hour: int)
    requires |batch| > 1 && OneHour(batch)
    requires SameEffect(before + batch[..|batch| - 1], before + [Message(batch[..|batch| - 1])], hour)
    ensures SameEffect(before + batch[..|batch| - 1] + [batch[|batch| - 1]], before + [Message(batch)], hour)
  {
    var n := |batch| - 1;
    var first := Message(batch[..n]);
    SameChunkAfter(before + batch[..n], before + [first], batch[n], hour);
    ChunkSnoc(before, first);
    ChunkSnoc(before + [first], batch[n]);
    ChunkSnoc(before, Message(batch));
    Associate(Content(before, hour), first.bytes, batch[n].bytes);
  }

  /** Batching is transparent: the messages fill every file exactly as if every line had been
      sent on its own. */
  lemma {:induction false} BatchingIsTransparent(batches: seq<Batch>, hour: int)
    requires GoodBatches(batches) && batches != []
    ensures SameEffect(Concat(batches), Messages(batches), hour)
  {
    var n := |batches| - 1;
    var last := Message(batches[n]);
    if n == 0 {
      BatchActsAsOne([], batches[0], hour);
      assert batches[..0] == [] && [] + batches[0] == batches[0] && [] + [last] == [last];
    } else {
      BatchingIsTransparent(batches[..n], hour);
      BatchActsAsOne(Concat(batches[..n]), batches[n], hour);
      SameChunkAfter(Concat(batches[..n]), Messages(batches[..n]), last, hour);
    }
  }

  /** End to end: once the collector has handled the first `k` messages of a buffer, the file of
      every hour holds its header and then, in arrival order, the lines of that hour that were
      not more than an hour behind, of all the lines in these messages. */
  lemma FilesHoldTheLines(b: Buffered, lines: Batch, threshold: nat, k: nat,
                          disk: Directory, before: Directory, header: string, hour: int)
    requires Holds(b, lines, threshold) && k <= |b.sent|
    requires FileIs(disk, before, header, Messages(b.sent[..k]), hour)
    ensures Concat(b.sent[..k]) <= lines && FileIs(disk, before, header, Concat(b.sent[..k]), hour)
  {
    ConcatPrefix(b.sent, k);
    if k > 0 {
      BatchingIsTransparent(b.sent[..k], hour);
    }
  }

  lemma {:induction false} ConcatPrefix(batches: seq<Batch>, k: nat)
    requires k <= |batches|
    ensures Concat(batches[..k]) <= Concat(batches)
  {
    if k == |batches| {
      assert batches[..k] == batches;
    } else {
      ConcatPrefix(batches[..|batches| - 1], k);
      assert batches[..|batches| - 1][..k] == batches[..k];
    }
  }

  predicate AlignedHours(chunks: seq<Chunk>) {
    forall i :: 0 <= i < |chunks| ==> chunks[i].hour % SECS_PER_HOUR == 0
  }

  /** Lines are filed under aligned hours, and so are the messages. */
  lemma {:induction false} MessagesAreAligned(batches: seq<Batch>)
    requires GoodBatches(batches) && AlignedHours(Concat(batches))
    ensures AlignedHours(Messages(batches))
  {
    if batches != [] {
      var n := |batches| - 1;
      var before := Concat(batches[..n]);
      forall i | 0 <= i < |before| ensures before[i].hour % SECS_PER_HOUR == 0 {
        assert Concat(batches)[i] == before[i];
      }
      assert Concat(batches)[|before|] == batches[n][0];
      MessagesAreAligned(batches[..n]);
    }
  }

  lemma {:induction false} MessagesPrefix(batches: seq<Batch>, k: nat)
    requires k <= |batches|
    ensures Messages(batches[..k]) == Messages(batches)[..k]
  {
    if k == |batches| {
      assert batches[..k] == batches;
    } else {
      MessagesPrefix(batches[..|batches| - 1], k);
      assert batches[..|batches| - 1][..k] == batches[..k];
    }
  }

  lemma OneMoreLine(lines: Batch, c: Chunk, ts: int)
    requires AlignedHours(lines) && c.hour == AlignToHour(ts)
    ensures AlignedHours(lines + [c])
  {
    AlignedHourIsFull(ts);
  }

  // -- the actor ----------------------------------------------------------------------------------

  class LogBuffer {
    const writeThreshold: nat
    var buffer: string
    var nextBuffer: string
    var gotBackupBuffer: bool
    var unixTs: int
    /** Messages to the collector. */
    var outbox: seq<Chunk>
    /** All lines so far. */
    ghost var lines: Batch
    ghost var state: Buffered

    /** The fields are `b`, as the source keeps it. */
    ghost predicate Reflects(b: Buffered)
      reads `buffer, `nextBuffer, `gotBackupBuffer, `unixTs, `outbox
    {
      buffer == Bytes(b.live) && (buffer == [] <==> b.live == []) && outbox == Messages(b.sent) &&
      (b.live != [] ==> unixTs == b.live[0].hour) && (gotBackupBuffer ==> nextBuffer == [])
    }

    ghost predicate Valid()
      reads this
    {
      Reflects(state) && Holds(state, lines, writeThreshold) && AlignedHours(lines)
    }

    constructor (threshold: nat)
      ensures Valid() && lines == [] && state == Buffered([], []) && writeThreshold == threshold
    {
      writeThreshold := threshold;
      buffer, nextBuffer, gotBackupBuffer, unixTs, outbox := [], [], false, 0, [];
      lines, state := [], Buffered([], []);
    }

    /** Sends the buffer and takes the backup buffer, or clears what the move left behind,
        which may be anything. */
    method Flush(leftBehind: string, ghost b: Buffered)
      requires Reflects(b) && b.live != []
      modifies `buffer, `nextBuffer, `gotBackupBuffer, `outbox
      ensures Reflects(Send(b))
    {
      assert Send(b).sent[..|b.sent|] == b.sent;
      outbox := outbox + [Chunk(buffer, unixTs)];
      buffer := leftBehind;
      if gotBackupBuffer {
        buffer, nextBuffer := nextBuffer, buffer;
        gotBackupBuffer := false;
      } else {
        buffer := [];
      }
    }

    /** Makes room for a line of this hour. */
    method PrepareHour(ts: int, leftBehind: string, ghost line: Chunk, ghost b: Buffered)
      requires Reflects(b) && line.hour == AlignToHour(ts)
      modifies `buffer, `nextBuffer, `gotBackupBuffer, `outbox, `unixTs
      ensures Reflects(Roll(b, line)) && unixTs == line.hour
    {
      var aligned := AlignToHour(ts);
      if |buffer| == 0 {
        unixTs := aligned;
      } else if aligned != unixTs {
        Flush(leftBehind, b);
        unixTs := aligned;
      }
    }

    method AppendLine(line: string, ghost c: Chunk, ghost b: Buffered)
      requires Reflects(b) && unixTs == c.hour && OneHour(b.live) && c.bytes == line + ['\n']
      requires b.live != [] ==> b.live[0].hour == c.hour
      modifies `buffer
      ensures Reflects(Add(b, c))
    {
      Associate(buffer, line, ['\n']);
      BytesSnoc(b.live, c);
      buffer := buffer + line;
      buffer := buffer + ['\n'];
    }

    /** A packet or a reply, as the line that is logged for it. */
    method Append(line: string, ts: int, leftBehind: string)
      requires Valid()
      modifies this
      ensures Valid() && lines == old(lines) + [Chunk(line + ['\n'], AlignToHour(ts))]
      ensures state == Put(old(state), Chunk(line + ['\n'], AlignToHour(ts)), writeThreshold)
    {
      ghost var c := Chunk(line + ['\n'], AlignToHour(ts));
      PutLine(line, ts, leftBehind, c, state);
      PutKeeps(state, lines, c, writeThreshold);
      OneMoreLine(lines, c, ts);
      lines, state := lines + [c], Put(state, c, writeThreshold);
    }

    method PutLine(line: string, ts: int, leftBehind: string, ghost c: Chunk, ghost b: Buffered)
      requires Reflects(b) && OneHour(b.live) && c == Chunk(line + ['\n'], AlignToHour(ts))
      modifies `buffer, `nextBuffer, `gotBackupBuffer, `outbox, `unixTs
      ensures Reflects(Put(b, c, writeThreshold))
    {
      PrepareHour(ts, leftBehind, c, b);
      AppendLine(line, c, Roll(b, c));
      SpillBuffer(leftBehind, Add(Roll(b, c), c));
    }

    method SpillBuffer(leftBehind: string, ghost b: Buffered)
      requires Reflects(b) && b.live != []
      modifies `buffer, `nextBuffer, `gotBackupBuffer, `outbox
      ensures Reflects(Spill(b, writeThreshold))
    {
      if |buffer| > writeThreshold {
        Flush(leftBehind, b);
      }
    }

    /** The collector returns a buffer it has written. */
    method TakeBack(buf: string)
      requires Valid()
      modifies `nextBuffer, `gotBackupBuffer
      ensures Valid()
    {
      nextBuffer := buf;
      nextBuffer := [];
      gotBackupBuffer := true;
    }
  }
}
