/** The log collector on the buffered path: one or two open hours, rotated as time goes on. */
module Collecting {
  import opened Collections
  import opened LogFiles

  datatype Mode = Idle | OneLog | TwoLogs

  /** A stream is named by the hour its file name is made of. */
  datatype OutFile = OutFile(start: int, end: int, open: bool, name: int)

  const CLOSED := OutFile(0, 0, false, 0)

  lemma AlignedOrder(a: int, b: int)
    requires a % SECS_PER_HOUR == 0 && b % SECS_PER_HOUR == 0
    ensures a < b <==> a + SECS_PER_HOUR <= b
  {
  }

  /** The hour a time stamp is in. */
  function HourOf(ts: int): int {
    ts - ts % SECS_PER_HOUR
  }

  lemma HourIsAligned(ts: int)
    ensures HourOf(ts) % SECS_PER_HOUR == 0 && HourOf(ts) <= ts < HourOf(ts) + SECS_PER_HOUR
  {
  }

  /** Aligning finds that hour, or the one behind it if it must round towards the epoch. */
  lemma AlignExactly(ts: int)
    ensures AlignToHour(ts) == if Alignable(ts) then HourOf(ts) else HourOf(ts) + SECS_PER_HOUR
  {
    AlignedHourHoldsTimeExactly(ts);
    AlignedHourIsFull(ts);
    HourIsAligned(ts);
    AlignedOrder(AlignToHour(ts), HourOf(ts));
    AlignedOrder(HourOf(ts), AlignToHour(ts));
    if !Alignable(ts) {
      assert ts < AlignToHour(ts) < ts + SECS_PER_HOUR;
      AlignedOrder(HourOf(ts) + SECS_PER_HOUR, AlignToHour(ts));
    }
  }

  /** Comparing with hour boundaries is comparing hours. */
  lemma HourCompares(ts: int, hour: int)
    requires hour % SECS_PER_HOUR == 0
    ensures ts >= hour <==> HourOf(ts) >= hour
    ensures ts < hour + SECS_PER_HOUR <==> HourOf(ts) <= hour
  {
    HourIsAligned(ts);
    AlignedOrder(HourOf(ts), hour);
    AlignedOrder(hour, HourOf(ts));
  }

  /** `bytes` appended to the file of `hour`, which starts with a header if it is new. */
  function Stored(disk: Directory, header: string, hour: int, bytes: string): Directory {
    disk[hour := (if hour in disk then disk[hour] else header) + bytes]
  }

  lemma StoredChunk(disk: Directory, before: Directory, header: string, chunks: seq<Chunk>, c: Chunk, hour: int)
    requires FileIs(disk, before, header, chunks, hour)
    ensures FileIs(if Accepted(chunks + [c]) then Stored(disk, header, c.hour, c.bytes) else disk,
                   before, header, chunks + [c], hour)
  {
    ChunkSnoc(chunks, c);
    if hour !in disk {
      UntouchedIsEmpty(chunks, hour);
      if hour == c.hour {
        assert header + [] + c.bytes == header + ([] + c.bytes);
      }
    } else {
      var old' := if hour in before then before[hour] else header;
      Associate(old', Content(chunks, hour), c.bytes);
      Associate(old', Content(chunks, hour), []);
      assert disk[hour] + [] == disk[hour];
    }
  }

  /** A new stream is for an hour no stream was opened for. */
  lemma StreamsGrow(streams: seq<int>, chunks: seq<Chunk>, c: Chunk)
    requires NoDuplicates(streams) && forall hour :: hour in streams <==> Touched(chunks, hour)
    requires c.hour !in streams && Accepted(chunks + [c])
    ensures NoDuplicates(streams + [c.hour])
    ensures forall hour :: hour in streams + [c.hour] <==> Touched(chunks + [c], hour)
  {
    ChunkSnoc(chunks, c);
  }

  class Collector {
    const header: string
    var mode: Mode
    var currentHour: OutFile
    var lastHour: OutFile
    var files: Directory
    /** The directory at the start, the messages so far, the hours whose file was opened. */
    ghost const before: Directory
    ghost var chunks: seq<Chunk>
    ghost var streams: seq<int>

    /** The current hour is the latest one; last and current hour are adjacent and aligned. */
    ghost predicate HoursValid()
      reads `mode, `currentHour, `lastHour, `chunks
    {
      (mode.Idle? <==> chunks == []) &&
      (chunks == [] ==> !currentHour.open && !lastHour.open) &&
      (chunks != [] ==>
        currentHour.start == LatestHour(chunks) && currentHour.start % SECS_PER_HOUR == 0 &&
        currentHour.end == currentHour.start + SECS_PER_HOUR &&
        lastHour.end == currentHour.start && lastHour.start == lastHour.end - SECS_PER_HOUR)
    }

    /** The current hour's stream is open, the last hour's exactly with two logs. */
    ghost predicate StreamsValid()
      reads `mode, `currentHour, `lastHour
    {
      (!mode.Idle? ==> currentHour.open && currentHour.name == currentHour.start) &&
      (mode.OneLog? ==> !lastHour.open) &&
      (mode.TwoLogs? ==> lastHour.open && lastHour.name == lastHour.start)
    }

    /** No file is opened twice, nor is one opened that gets nothing. */
    ghost predicate OpenedValid()
      reads `mode, `lastHour, `chunks, `streams
    {
      NoDuplicates(streams) && (forall hour :: hour in streams <==> Touched(chunks, hour)) &&
      (mode.OneLog? ==> lastHour.start !in streams) && (mode.TwoLogs? ==> lastHour.start in streams)
    }

    ghost predicate FilesValid()
      reads `files, `chunks
    {
      forall hour :: FileIs(files, before, header, chunks, hour)
    }

    ghost predicate Valid()
      reads this
    {
      HoursValid() && StreamsValid() && OpenedValid() && FilesValid()
    }

    constructor (header: string, directory: Directory)
      ensures Valid() && chunks == [] && streams == [] && before == directory && this.header == header
    {
      this.header, this.before := header, directory;
      mode, currentHour, lastHour := Idle, CLOSED, CLOSED;
      files, chunks, streams := directory, [], [];
    }

    /** `open_log_file`; opening an open stream would fail. */
    method OpenLogFile(of: OutFile, unixTs: int) returns (r: OutFile)
      requires !of.open
      modifies `files, `streams
      ensures var h := AlignToHour(unixTs);
              r == OutFile(h, h + SECS_PER_HOUR, true, h) && streams == old(streams) + [h] &&
              files == if h in old(files) then old(files) else old(files)[h := header]
    {
      var currentHourTs := AlignToHour(unixTs);
      var fileAlreadyExists := currentHourTs in files;
      if !fileAlreadyExists {
        files := files[currentHourTs := []];
      }
      streams := streams + [currentHourTs];
      r := OutFile(currentHourTs, currentHourTs + SECS_PER_HOUR, true, currentHourTs);
      if !fileAlreadyExists {
        assert [] + header == header;
        files := files[r.name := files[r.name] + header];
      }
    }

    method Write(of: OutFile, buf: string)
      requires of.open && of.name in files
      modifies `files
      ensures files == old(files)[of.name := old(files)[of.name] + buf]
    {
      files := files[of.name := files[of.name] + buf];
    }

    ghost predicate HoursAfter(c: Chunk)
      reads `mode, `currentHour, `lastHour, `chunks
    {
      !mode.Idle? && currentHour.start == LatestHour(chunks + [c]) && currentHour.start % SECS_PER_HOUR == 0 &&
      currentHour.end == currentHour.start + SECS_PER_HOUR &&
      lastHour.end == currentHour.start && lastHour.start == lastHour.end - SECS_PER_HOUR
    }

    /** The file of an accepted chunk is open already, or was opened just now. */
    ghost predicate StreamsAfter(c: Chunk, before: seq<int>)
      reads `mode, `lastHour, `streams, `chunks
    {
      (if Accepted(chunks + [c]) && c.hour !in before then streams == before + [c.hour] else streams == before) &&
      (mode.OneLog? ==> lastHour.start !in streams) && (mode.TwoLogs? ==> lastHour.start in streams)
    }

    /** Notes a message whose effect is in the fields; `disk` and `was` are the files and
        streams before it. */
    ghost method Advance(c: Chunk, disk: Directory, was: seq<int>)
      requires forall hour :: FileIs(disk, before, header, chunks, hour)
      requires NoDuplicates(was) && forall hour :: hour in was <==> Touched(chunks, hour)
      requires HoursAfter(c) && StreamsValid() && StreamsAfter(c, was)
      requires files == if Accepted(chunks + [c]) then Stored(disk, header, c.hour, c.bytes) else disk
      modifies `chunks
      ensures Valid() && chunks == old(chunks) + [c]
    {
      ChunkSnoc(chunks, c);
      if Accepted(chunks + [c]) && c.hour !in was {
        StreamsGrow(was, chunks, c);
      }
      forall hour ensures FileIs(files, before, header, chunks + [c], hour) {
        StoredChunk(disk, before, header, chunks, c, hour);
      }
      chunks := chunks + [c];
    }

    // -- writing --------------------------------------------------------------------------------

    /** Opens the file of a new current hour and logs the buffer. */
    method StartHour(buf: string, unixTs: int)
      requires !currentHour.open
      modifies `currentHour, `files, `streams
      ensures var h := AlignToHour(unixTs);
              currentHour == OutFile(h, h + SECS_PER_HOUR, true, h) && streams == old(streams) + [h] &&
              files == Stored(old(files), header, h, buf)
    {
      currentHour := OpenLogFile(currentHour, unixTs);
      Write(currentHour, buf);
    }

    /** The hour before the new current one, without a log. */
    method SkipToHour(unixTs: int)
      modifies `lastHour, `mode
      ensures mode == OneLog
      ensures lastHour == old(lastHour).(start := AlignToHour(unixTs) - SECS_PER_HOUR, end := AlignToHour(unixTs))
    {
      var currentHourTs := AlignToHour(unixTs);
      lastHour := lastHour.(start := currentHourTs - SECS_PER_HOUR, end := currentHourTs);
      mode := OneLog;
    }

    /** The current hour becomes the last one, stream and all. */
    method Rotate()
      modifies `currentHour, `lastHour
      ensures lastHour == old(currentHour) && currentHour == old(currentHour).(open := false)
    {
      lastHour := currentHour;
      currentHour := currentHour.(open := false);
    }

    /** The hour a buffer is filed under: a new current hour is aligned, the others are found by
        comparing. */
    ghost function FiledUnder(ts: int): int
      reads `mode, `currentHour
    {
      if mode.Idle? || ts >= currentHour.end + SECS_PER_HOUR then AlignToHour(ts) else HourOf(ts)
    }

    /** Aligning finds the hour in question wherever a file is opened next to the current one. */
    ghost predicate KeepsHours(ts: int)
      reads `mode, `currentHour, `lastHour
    {
      Alignable(ts) || mode.Idle? ||
      !(currentHour.end <= ts < currentHour.end + SECS_PER_HOUR || (mode.OneLog? && lastHour.start <= ts < lastHour.end))
    }

    /** In particular always, and under the aligned hour, after the epoch. */
    lemma AlignableKeepsHours(ts: int)
      requires Alignable(ts)
      ensures KeepsHours(ts) && FiledUnder(ts) == AlignToHour(ts)
    {
      AlignExactly(ts);
    }

    method BufferedWriteIdle(buf: string, unixTs: int)
      requires Valid() && mode.Idle?
      modifies this
      ensures Valid() && chunks == old(chunks) + [Chunk(buf, old(FiledUnder(unixTs)))]
    {
      ghost var c, disk, was := Chunk(buf, AlignToHour(unixTs)), files, streams;
      AlignedHourIsFull(unixTs);
      StartHour(buf, unixTs);
      SkipToHour(unixTs);
      ChunkSnoc(chunks, c);
      Advance(c, disk, was);
    }

    /** What the hour of the next chunk means for the streams. */
    lemma Facts(c: Chunk)
      requires Valid() && !mode.Idle?
      ensures currentHour.start in streams && currentHour.start in files
      ensures mode.TwoLogs? ==> lastHour.start in files
      ensures forall hour :: hour > currentHour.start ==> hour !in streams
      ensures LatestHour(chunks + [c]) == Max(currentHour.start, c.hour)
    {
      LatestIsTouched(chunks);
      ChunkSnoc(chunks, c);
      assert FileIs(files, before, header, chunks, currentHour.start);
      assert FileIs(files, before, header, chunks, lastHour.start);
      forall hour | hour > currentHour.start ensures hour !in streams {
        if Touched(chunks, hour) {
          TouchedNotLater(chunks, hour);
        }
      }
    }

    method WriteCurrent(buf: string, ghost c: Chunk)
      requires Valid() && !mode.Idle? && c.bytes == buf && c.hour == currentHour.start
      modifies `files, `chunks
      ensures Valid() && chunks == old(chunks) + [c]
    {
      ghost var disk, was := files, streams;
      Facts(c);
      Write(currentHour, buf);
      Advance(c, disk, was);
    }

    method WriteLast(buf: string, ghost c: Chunk)
      requires Valid() && mode.TwoLogs? && c.bytes == buf && c.hour == lastHour.start
      modifies `files, `chunks
      ensures Valid() && chunks == old(chunks) + [c]
    {
      ghost var disk, was := files, streams;
      Facts(c);
      Write(lastHour, buf);
      Advance(c, disk, was);
    }

    /** A late buffer opens the log of the last hour. */
    method OpenLast(buf: string, unixTs: int)
      requires Valid() && mode.OneLog? && lastHour.start <= unixTs < lastHour.end && HourOf(unixTs) == lastHour.start
      modifies this
      ensures if Alignable(unixTs) then Valid() && chunks == old(chunks) + [Chunk(buf, HourOf(unixTs))]
              else lastHour.end != currentHour.start && chunks == old(chunks)
    {
      ghost var c, disk, was := Chunk(buf, HourOf(unixTs)), files, streams;
      AlignExactly(unixTs);
      Facts(c);
      lastHour := OpenLogFile(lastHour, unixTs);
      if lastHour.name !in disk {
        assert lastHour.name in files;
      }
      Write(lastHour, buf);
      mode := TwoLogs;
      if Alignable(unixTs) {
        Advance(c, disk, was);
      }
    }

    /** The next hour begins: with two logs the older one is closed, and the current hour's
        stream moves over. */
    method NextHour(buf: string, unixTs: int)
      requires Valid() && !mode.Idle? && HourOf(unixTs) == currentHour.end
      modifies this
      ensures if Alignable(unixTs) then Valid() && chunks == old(chunks) + [Chunk(buf, HourOf(unixTs))]
              else lastHour.end != currentHour.start && chunks == old(chunks)
    {
      ghost var c, disk, was := Chunk(buf, HourOf(unixTs)), files, streams;
      AlignExactly(unixTs);
      Facts(c);
      lastHour := lastHour.(open := false);
      Rotate();
      StartHour(buf, unixTs);
      mode := TwoLogs;
      if Alignable(unixTs) {
        Advance(c, disk, was);
      }
    }

    /** Some later hour begins: everything is closed, and there is one log again. */
    method LaterHour(buf: string, unixTs: int)
      requires Valid() && !mode.Idle? && AlignToHour(unixTs) > currentHour.end
      modifies this
      ensures Valid() && chunks == old(chunks) + [Chunk(buf, AlignToHour(unixTs))]
    {
      ghost var c, disk, was := Chunk(buf, AlignToHour(unixTs)), files, streams;
      Facts(c);
      AlignedHourIsFull(unixTs);
      AlignedOrder(currentHour.end, AlignToHour(unixTs));
      lastHour := lastHour.(open := false);
      currentHour := currentHour.(open := false);
      StartHour(buf, unixTs);
      SkipToHour(unixTs);
      Advance(c, disk, was);
    }

    /** A buffer older than the last hour is not logged. */
    ghost method Reject(c: Chunk)
      requires Valid() && !mode.Idle? && c.hour < lastHour.start
      modifies `chunks
      ensures Valid() && chunks == old(chunks) + [c]
    {
      Facts(c);
      Advance(c, files, streams);
    }

    /** Comparing a time stamp with the boundaries finds its hour. */
    lemma WhichHour(ts: int)
      requires HoursValid() && !mode.Idle?
      ensures currentHour.start <= ts < currentHour.end <==> HourOf(ts) == currentHour.start
      ensures currentHour.end <= ts < currentHour.end + SECS_PER_HOUR <==> HourOf(ts) == currentHour.end
      ensures lastHour.start <= ts < lastHour.end <==> HourOf(ts) == lastHour.start
      ensures ts >= currentHour.end + SECS_PER_HOUR ==> AlignToHour(ts) > currentHour.end
      ensures ts < lastHour.start <==> HourOf(ts) < lastHour.start
    {
      HourCompares(ts, currentHour.start);
      HourCompares(ts, currentHour.end);
      HourCompares(ts, lastHour.start);
      AlignExactly(ts);
    }

    method BufferedWriteOneLog(buf: string, unixTs: int)
      requires Valid() && mode.OneLog?
      modifies this
      ensures if old(KeepsHours(unixTs)) then Valid() && chunks == old(chunks) + [Chunk(buf, old(FiledUnder(unixTs)))]
              else lastHour.end != currentHour.start && chunks == old(chunks)
    {
      WhichHour(unixTs);
      if currentHour.start <= unixTs < currentHour.end {
        WriteCurrent(buf, Chunk(buf, HourOf(unixTs)));
      } else if unixTs >= currentHour.end {
        if unixTs < currentHour.end + SECS_PER_HOUR {
          NextHour(buf, unixTs);
        } else {
          LaterHour(buf, unixTs);
        }
      } else if lastHour.start <= unixTs < lastHour.end {
        OpenLast(buf, unixTs);
      } else {
        Reject(Chunk(buf, HourOf(unixTs)));
      }
    }

    method BufferedWriteTwoLogs(buf: string, unixTs: int)
      requires Valid() && mode.TwoLogs?
      modifies this
      ensures if old(KeepsHours(unixTs)) then Valid() && chunks == old(chunks) + [Chunk(buf, old(FiledUnder(unixTs)))]
              else lastHour.end != currentHour.start && chunks == old(chunks)
    {
      WhichHour(unixTs);
      if currentHour.start <= unixTs < currentHour.end {
        WriteCurrent(buf, Chunk(buf, HourOf(unixTs)));
      } else if lastHour.start <= unixTs < lastHour.end {
        WriteLast(buf, Chunk(buf, HourOf(unixTs)));
      } else if unixTs >= currentHour.end {
        if unixTs < currentHour.end + SECS_PER_HOUR {
          NextHour(buf, unixTs);
        } else {
          LaterHour(buf, unixTs);
        }
      } else {
        Reject(Chunk(buf, HourOf(unixTs)));
      }
    }

    /** A message to the collector, in whatever behavior it is: its books stay right if and only if
        no hour next to the current one is opened for a time stamp that is aligned wrongly. */
    method HandleBuffer(buf: string, unixTs: int)
      requires Valid()
      modifies this
      ensures if old(KeepsHours(unixTs)) then Valid() && chunks == old(chunks) + [Chunk(buf, old(FiledUnder(unixTs)))]
              else lastHour.end != currentHour.start && !Valid()
    {
      match mode
      case Idle => BufferedWriteIdle(buf, unixTs);
      case OneLog => BufferedWriteOneLog(buf, unixTs);
      case TwoLogs => BufferedWriteTwoLogs(buf, unixTs);
    }

    /** A buffer is rejected exactly if it predates the last hour. */
    lemma RejectedExactly(buf: string, unixTs: int)
      requires Valid() && !mode.Idle?
      ensures Accepted(chunks + [Chunk(buf, FiledUnder(unixTs))]) <==> unixTs >= lastHour.start
    {
      ChunkSnoc(chunks, Chunk(buf, FiledUnder(unixTs)));
      HourCompares(unixTs, lastHour.start);
      HourCompares(unixTs, currentHour.end);
      AlignExactly(unixTs);
    }
  }

  lemma FirstHour(c: Collector, chunk: Chunk)
    requires c.Valid() && c.chunks == [chunk]
    ensures c.mode.OneLog? && c.currentHour.start == chunk.hour && c.lastHour.start == chunk.hour - SECS_PER_HOUR
    ensures c.currentHour.end == chunk.hour + SECS_PER_HOUR && c.lastHour.end == chunk.hour
  {
    assert c.chunks[..0] == [] && LatestHour(c.chunks) == chunk.hour;
    assert !Touched(c.chunks, chunk.hour - SECS_PER_HOUR);
  }

  /** The first two messages: after them the hours do not meet exactly if the second time stamp is
      aligned wrongly and in an hour next to the one of the first. */
  method TwoMessages(header: string, buf: string, first: int, more: string, second: int) returns (c: Collector)
    ensures c.lastHour.end != c.currentHour.start <==>
            !Alignable(second) &&
            (HourOf(second) == AlignToHour(first) + SECS_PER_HOUR || HourOf(second) == AlignToHour(first) - SECS_PER_HOUR)
  {
    c := new Collector(header, map[]);
    c.HandleBuffer(buf, first);
    assert c.chunks == [Chunk(buf, AlignToHour(first))];
    FirstHour(c, Chunk(buf, AlignToHour(first)));
    c.WhichHour(second);
    c.HandleBuffer(more, second);
  }

  /** For instance the last second before the epoch, behind the first hour after it. */
  lemma LastSecondBeforeEpoch()
    ensures !Alignable(-1) && HourOf(-1) == AlignToHour(0) - SECS_PER_HOUR
  {
  }
}
