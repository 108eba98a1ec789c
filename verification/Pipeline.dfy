/** Buffer, collector and reader together. */
module Pipeline {
  import opened Buffering
  import opened Csv
  import opened Collecting
  import opened EndToEnd
  import opened Events
  import opened Framing
  import opened LogFiles
  import opened LogReading
  import opened TcpLog
  import opened TcpRoundTrip

  // -- from the buffer to the files ---------------------------------------------------------------

  /** The messages of a buffer are for aligned hours. */
  lemma OutboxIsAligned(buffer: LogBuffer)
    requires buffer.Valid()
    ensures AlignedHours(buffer.outbox)
  {
    var sent := Concat(buffer.state.sent);
    forall i | 0 <= i < |sent| ensures sent[i].hour % SECS_PER_HOUR == 0 {
      assert buffer.lines[i] == sent[i];
    }
    MessagesAreAligned(buffer.state.sent);
  }

  /** The collector catches up with the buffer, one message after the other; it has handled the
      first `handled` ones. */
  method Deliver(buffer: LogBuffer, collector: Collector, handled: nat)
    requires buffer.Valid() && collector.Valid() && collector.chunks <= buffer.outbox && handled == |collector.chunks|
    modifies collector
    ensures collector.Valid() && collector.chunks == buffer.outbox
  {
    OutboxIsAligned(buffer);
    for i := handled to |buffer.outbox|
      invariant collector.Valid() && collector.chunks == buffer.outbox[..i]
    {
      var m := buffer.outbox[i];
      AlignExactly(m.hour);
      collector.AlignableKeepsHours(m.hour);
      collector.HandleBuffer(m.bytes, m.hour);
      assert m == Chunk(m.bytes, m.hour) && buffer.outbox[..i + 1] == buffer.outbox[..i] + [m];
    }
  }

  /** The files after some of the messages: headers, and the lines in these messages. */
  lemma CollectorHasLines(buffer: LogBuffer, collector: Collector, hour: int)
    requires buffer.Valid() && collector.Valid() && collector.chunks <= buffer.outbox
    ensures var lines := Concat(buffer.state.sent[..|collector.chunks|]);
            lines <= buffer.lines && FileIs(collector.files, collector.before, collector.header, lines, hour)
  {
    var b, k := buffer.state, |collector.chunks|;
    MessagesPrefix(b.sent, k);
    assert collector.chunks == buffer.outbox[..k] == Messages(b.sent[..k]);
    assert FileIs(collector.files, collector.before, collector.header, collector.chunks, hour);
    FilesHoldTheLines(b, buffer.lines, buffer.writeThreshold, k, collector.files, collector.before, collector.header, hour);
  }

  // -- from the files to the events ---------------------------------------------------------------

  /** Complete lines below the header. */
  function CompleteRows(received: string): nat {
    if Lines(received) == [] then 0 else |Lines(received)| - 1
  }

  /** What the calls of a reader returned so far is the events of the first entries, one for each
      complete row, and none raised. */
  ghost predicate HasEvents(reader: CsvFile<Event>, entries: seq<Logged>, batchId: int)
    reads reader
  {
    CompleteRows(reader.received) <= |entries| && NoneRaises(reader.delivered, reader.parse) &&
    reader.returned == EventsOf(entries[..CompleteRows(reader.received)], batchId)
  }

  lemma RowsHaveEvents(received: string, delivered: seq<Row>, returned: seq<Event>, entries: seq<Logged>, batchId: int)
    requires delivered == RowsOf(Lines(received))
    requires NoneRaises(delivered, EventFromCsv(batchId)) ==> returned == ItemsOf(delivered, EventFromCsv(batchId))
    requires AllPrintable(entries) && received <= LogText(entries)
    ensures CompleteRows(received) <= |entries| && NoneRaises(delivered, EventFromCsv(batchId))
    ensures returned == EventsOf(entries[..CompleteRows(received)], batchId)
  {
    LogRoundTrip(entries, received, batchId);
  }

  /** However calls of `consume` cut the log. */
  lemma ReaderHasEvents(reader: CsvFile<Event>, entries: seq<Logged>, batchId: int)
    requires reader.Valid() && reader.parse == EventFromCsv(batchId)
    requires AllPrintable(entries) && reader.received <= LogText(entries)
    ensures HasEvents(reader, entries, batchId)
  {
    RowsHaveEvents(reader.received, reader.delivered, reader.returned, entries, batchId);
  }

  /** The file of an hour is the log of the entries kept for it. */
  lemma FileIsLog(disk: Directory, lines: Batch, entries: seq<Logged>, hour: int)
    requires FileIs(disk, map[], HeaderLine() + ['\n'], lines, hour) && hour in disk
    requires Prints(lines, entries) && AllPrintable(entries)
    ensures disk[hour] == LogText(Kept(lines, entries, hour)) && AllPrintable(Kept(lines, entries, hour))
  {
    ContentIsLog(lines, entries, hour);
    KeptArePrintable(lines, entries, hour);
  }

  /** The lines in the messages the collector has handled. */
  ghost function Handled(buffer: LogBuffer, collector: Collector): Batch
    reads buffer, collector
    requires buffer.Valid() && collector.chunks <= buffer.outbox
  {
    Concat(buffer.state.sent[..|collector.chunks|])
  }

  /** End to end: entries are printed as lines, the buffer batches them, the collector has handled
      some of the batches and fills its files, and the tools read an hour's file while it grows.
      What the reader returned so far is the events of the first entries that were logged for
      that hour no more than an hour late; and if lines are filed by the time of their packets, all
      these events are of that hour. */
  lemma PipelineReadsBack(entries: seq<Logged>, buffer: LogBuffer, collector: Collector, reader: CsvFile<Event>,
                          hour: int, batchId: int)
    requires buffer.Valid() && Prints(buffer.lines, entries) && AllPrintable(entries)
    requires collector.Valid() && collector.before == map[] && collector.header == HeaderLine() + ['\n']
    requires collector.chunks <= buffer.outbox
    requires reader.Valid() && reader.parse == EventFromCsv(batchId)
    requires hour in collector.files && reader.received <= collector.files[hour]
    ensures var lines := Handled(buffer, collector);
            lines <= buffer.lines && HasEvents(reader, Kept(lines, entries[..|lines|], hour), batchId)
    ensures Timed(buffer.lines, entries) ==> InHour(reader.returned, hour)
  {
    var lines := Handled(buffer, collector);
    CollectorHasLines(buffer, collector, hour);
    PrintsPrefix(buffer.lines, lines, entries);
    FileIsLog(collector.files, lines, entries[..|lines|], hour);
    var kept := Kept(lines, entries[..|lines|], hour);
    ReaderHasEvents(reader, kept, batchId);
    if Timed(buffer.lines, entries) {
      TimedPrefix(buffer.lines, lines, entries);
      KeptAreTimely(lines, entries[..|lines|], hour);
      EventsAreTimely(kept[..CompleteRows(reader.received)], batchId, hour);
    }
  }

  lemma TimedPrefix(all: Batch, lines: Batch, entries: seq<Logged>)
    requires Timed(all, entries) && lines <= all
    ensures Timed(lines, entries[..|lines|])
  {
  }

  lemma PrintsPrefix(all: Batch, lines: Batch, entries: seq<Logged>)
    requires Prints(all, entries) && lines <= all && AllPrintable(entries)
    ensures |lines| <= |entries| && Prints(lines, entries[..|lines|]) && AllPrintable(entries[..|lines|])
  {
  }
}
