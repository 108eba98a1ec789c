/** The driver object: the handlers of the multiplexing loop over one scamper socket. */
module Driver {
  import opened Collections
  import opened Events
  import opened Framing
  import opened ScamperProtocol
  import opened ScamperRuns

  lemma RunSnoc(events: seq<IoEvent>, e: IoEvent, decode: Decoder)
    requires Feasible(events, decode) && Possible(Run(events, decode), e)
    ensures Feasible(events + [e], decode)
    ensures e.Wrote? || e.WriteFailed? ==> CanWrite(Run(events, decode).out)
    ensures Run(events + [e], decode) == Next(Run(events, decode), e, decode)
  {
    assert (events + [e])[..|events|] == events;
    NextKeepsInvariant(Run(events, decode), e, decode);
  }

  /** Results of `read` and `write`: bytes, or an error. */
  datatype ReadResult = ReadBytes(chunk: string) | ReadError
  datatype WriteResult = WriteBytes(n: nat) | WriteError

  class ScamperDriver {
    const decode: Decoder
    // Incoming data.
    const readBuf: array<char>
    var bytesInBuffer: nat
    var expectedData: nat
    // Outgoing commands.
    var more: nat
    var writing: bool
    var writeEnabled: bool
    var requests: seq<string>
    var written: nat
    var countBatch: nat
    // Decoder socket.
    var writebuf: seq<Byte>
    var decoding: bool
    var decodeWriteEnabled: bool
    // What left the driver.
    ghost var handled: seq<Handled>
    ghost var completed: seq<string>
    ghost var sent: string
    ghost var taken: seq<Byte>
    ghost var reported: nat
    /** Every event so far. */
    ghost var events: seq<IoEvent>

    ghost function In(buffer: string): Incoming
      reads `expectedData, `handled
    {
      Incoming(buffer, expectedData, handled)
    }

    ghost function Out(): Outgoing
      reads `more, `writing, `writeEnabled, `requests, `written, `countBatch, `completed, `sent, `reported
    {
      Outgoing(more, writing, writeEnabled, requests, written, countBatch, completed, sent, reported)
    }

    ghost function Dec(): Decoding
      reads `writebuf, `decoding, `decodeWriteEnabled, `taken
    {
      Decoding(writebuf, decoding, decodeWriteEnabled, taken)
    }

    /** The fields as a state, with `buffer` as unfinished line. */
    ghost function With(buffer: string): State
      reads this
    {
      State(In(buffer), Out(), Dec())
    }

    ghost predicate Valid()
      reads this, readBuf
    {
      readBuf.Length == MAX_MSG_SIZE && bytesInBuffer <= MAX_MSG_SIZE &&
      Feasible(events, decode) && With(readBuf[..bytesInBuffer]) == Run(events, decode)
    }

    constructor (decode: Decoder)
      ensures Valid() && fresh(readBuf) && events == [] && this.decode == decode
    {
      this.decode := decode;
      readBuf := new char[MAX_MSG_SIZE](_ => '\0');
      bytesInBuffer, expectedData := 0, 0;
      more, writing, writeEnabled, requests, written, countBatch := 1, false, true, [ATTACH], 0, 0;
      writebuf, decoding, decodeWriteEnabled := [], false, false;
      handled, completed, sent, taken, reported, events := [], [], [], [], 0, [];
      new;
      assert readBuf[..bytesInBuffer] == [];
    }

    // -- lines ----------------------------------------------------------------------------

    /** The rest of `scamper_handle_data` once `uudecode_line` delivered `uu`. */
    method SendToDecoder(uu: seq<Byte>)
      modifies `writebuf, `decodeWriteEnabled, `decoding
      ensures Dec() == Buffered(old(Dec()), uu)
    {
      if |uu| != 0 {
        writebuf := writebuf + uu;
        if !decoding {
          decodeWriteEnabled := true;
          decoding := true;
        }
      }
    }

    /** `scamper_handle_data` */
    method HandleDataLine(line: string, ghost b: string)
      requires expectedData > 0
      modifies `handled, `expectedData, `writebuf, `decodeWriteEnabled, `decoding
      ensures With(b) == HandleLine(old(With(b)), line, decode)
    {
      handled := handled + [AsData(line)];
      var decoded := decode(line);
      if decoded.Some? {
        SendToDecoder(decoded.value);
        // An unsigned counter; the newline became a NUL byte, hence + 1.
        expectedData := (expectedData - (|line| + 1)) % SIZE_MODULUS;
      }
    }

    method TakeCredit()
      modifies `more, `writeEnabled, `writing
      ensures Out() == Credit(old(Out()))
    {
      more := more + 1;
      if |requests| != 0 && !writing {
        writeEnabled := true;
        writing := true;
      }
    }

    /** `scamper_handle_cmd` */
    method HandleCommandLine(line: string, ghost b: string)
      requires expectedData == 0
      modifies `handled, `expectedData, `more, `writeEnabled, `writing
      ensures With(b) == HandleLine(old(With(b)), line, decode)
    {
      handled := handled + [AsCommand(line)];
      if |line| == 0 {
        return;
      } else if line[0] == 'O' {
        return;
      } else if line[0] == 'M' {
        TakeCredit();
      } else if line[0] == 'D' {
        var res := DataLength(line);
        if res != 0 {
          expectedData := (expectedData + res) % SIZE_MODULUS;
        }
      }
    }

    method HandleOneLine(line: string, ghost b: string)
      modifies `handled, `expectedData, `writebuf, `decodeWriteEnabled, `decoding, `more, `writeEnabled, `writing
      ensures With(b) == HandleLine(old(With(b)), line, decode)
    {
      if expectedData > 0 {
        HandleDataLine(line, b);
      } else {
        HandleCommandLine(line, b);
      }
    }

    /** `std::find` for the next newline. */
    method FindNewline(from: nat, end: nat) returns (to: nat)
      requires from <= end <= readBuf.Length
      ensures from <= to <= end && '\n' !in readBuf[from..to] && (to < end ==> readBuf[to] == '\n')
    {
      to := from;
      while to < end && readBuf[to] != '\n'
        invariant from <= to <= end && '\n' !in readBuf[from..to]
      {
        to := to + 1;
      }
    }

    /** Handles the line in front of the newline at `to`. */
    method HandleSlice(from: nat, to: nat, ghost end: nat, ghost b: string)
      requires from <= to < end <= readBuf.Length
      modifies readBuf, `handled, `expectedData, `writebuf, `decodeWriteEnabled, `decoding, `more, `writeEnabled, `writing
      ensures With(b) == HandleLine(old(With(b)), old(readBuf[from..to]), decode)
      ensures readBuf[to + 1..end] == old(readBuf[to + 1..end])
    {
      readBuf[to] := '\0';
      var reply := readBuf[from..to];
      HandleOneLine(reply, b);
    }

    lemma SamePiece(data: string, from: nat, to: nat)
      requires from <= to <= |data| <= readBuf.Length && readBuf[from..|data|] == data[from..]
      ensures readBuf[from..to] == data[from..to]
      ensures to < |data| ==> readBuf[to] == data[to] && readBuf[to + 1..|data|] == data[to + 1..]
    {
      assert forall i :: from <= i < |data| ==> readBuf[i] == readBuf[from..|data|][i - from] == data[from..][i - from];
    }

    /** The loop of `handle_scamper_read` over the data in the buffer; returns the start of
        the unfinished line. */
    method HandleBufferedLines(ghost data: string, ghost before: string) returns (from: nat)
      requires bytesInBuffer <= readBuf.Length && data == readBuf[..bytesInBuffer]
      modifies readBuf, `handled, `expectedData, `writebuf, `decodeWriteEnabled, `decoding, `more, `writeEnabled, `writing
      ensures from <= bytesInBuffer
      ensures readBuf[from..bytesInBuffer] == Tail(data)
      ensures With(before) == HandleLines(old(With(before)), Lines(data), decode)
    {
      var end := bytesInBuffer;
      from := 0;
      assert data[..0] == [];
      while true
        invariant from <= end == |data| == bytesInBuffer
        invariant readBuf[from..end] == data[from..]
        invariant Tail(data[..from]) == []
        invariant With(before) == HandleLines(old(With(before)), Lines(data[..from]), decode)
        decreases end - from
      {
        var to := FindNewline(from, end);
        SamePiece(data, from, to);
        if to == end {
          LastPiece(data, from);
          return;
        }
        NextLine(data, from, to);
        HandleSlice(from, to, end, before);
        from := to + 1;
      }
    }

    /** What `read` does: it fills the buffer behind the unfinished line. */
    method Fill(chunk: string)
      requires bytesInBuffer + |chunk| <= readBuf.Length
      modifies readBuf, `bytesInBuffer
      ensures bytesInBuffer == old(bytesInBuffer) + |chunk|
      ensures readBuf[..bytesInBuffer] == old(readBuf[..bytesInBuffer]) + chunk
    {
      forall i | 0 <= i < |chunk| {
        readBuf[bytesInBuffer + i] := chunk[i];
      }
      bytesInBuffer := bytesInBuffer + |chunk|;
    }

    /** Erases the handled prefix of the buffer. */
    method KeepTail(from: nat)
      requires from <= bytesInBuffer <= readBuf.Length
      modifies readBuf, `bytesInBuffer
      ensures bytesInBuffer == old(bytesInBuffer) - from
      ensures readBuf[..bytesInBuffer] == old(readBuf[from..bytesInBuffer])
    {
      if from == bytesInBuffer {
        bytesInBuffer := 0;
      } else {
        var rest := readBuf[from..bytesInBuffer];
        forall i | 0 <= i < |rest| {
          readBuf[i] := rest[i];
        }
        bytesInBuffer := bytesInBuffer - from;
      }
    }

    // -- events ---------------------------------------------------------------------------

    method HandleChunk(chunk: string)
      requires Valid() && chunk != [] && bytesInBuffer + |chunk| <= MAX_MSG_SIZE
      modifies this, readBuf
      ensures Valid() && events == old(events) + [Read(chunk)]
    {
      ghost var before := readBuf[..bytesInBuffer];
      Fill(chunk);
      var from := HandleBufferedLines(readBuf[..bytesInBuffer], before);
      KeepTail(from);
      Advance(Read(chunk));
    }

    /** `handle_scamper_read`; `read` offers the free space behind the unfinished line. */
    method HandleScamperRead(res: ReadResult)
      requires Valid()
      requires res.ReadBytes? ==> bytesInBuffer + |res.chunk| <= MAX_MSG_SIZE
      modifies this, readBuf
      ensures Valid()
      ensures events == old(events) + [if res.ReadBytes? && res.chunk != [] then Read(res.chunk) else ReadFailed]
    {
      if res.ReadError? || |res.chunk| == 0 {
        Advance(ReadFailed);
      } else {
        HandleChunk(res.chunk);
      }
    }

    /** `handle_notify_read`; `commands` are the messages waiting for the driver. */
    method HandleNotifyRead(commands: seq<string>)
      requires Valid()
      modifies this
      ensures Valid() && events == old(events) + [Notify(commands)]
    {
      EnqueueCommands(commands);
      Advance(Notify(commands));
    }

    method EnqueueCommands(commands: seq<string>)
      modifies `requests, `writeEnabled, `writing
      ensures Out() == EnqueueAll(old(Out()), commands)
    {
      for i := 0 to |commands|
        invariant Out() == EnqueueAll(old(Out()), commands[..i])
      {
        assert commands[..i + 1][..i] == commands[..i];
        requests := requests + [commands[i]];
        if more > 0 && !writing {
          writeEnabled := true;
          writing := true;
        }
      }
      assert commands[..|commands|] == commands;
    }

    /** The first command is out completely. */
    method CountCommand()
      requires CanWrite(Out())
      modifies `more, `completed, `requests, `written, `countBatch, `reported
      ensures Out() == PopCommand(old(Out()))
    {
      more := more - 1;
      completed := completed + [requests[0]];
      requests := requests[1..];
      written := 0;
      countBatch := countBatch + 1;
      if countBatch >= 100 {
        reported := reported + countBatch;
        countBatch := 0;
      }
    }

    /** `handle_scamper_write` once `write` took `n` bytes. */
    method TakeWritten(n: nat)
      requires CanWrite(Out()) && written + n <= |requests[0]|
      modifies `more, `completed, `requests, `written, `countBatch, `reported, `sent, `writeEnabled, `writing
      ensures Out() == WriteSome(old(Out()), n)
    {
      var buf := requests[0];
      var remaining := |buf| - written;
      sent := sent + buf[written..written + n];
      remaining := remaining - n;
      if remaining == 0 {
        CountCommand();
        if more == 0 || |requests| == 0 {
          writeEnabled := false;
          writing := false;
        }
      }
    }

    /** `handle_scamper_write`; `res` is what `write` does with the rest of the first command. */
    method HandleScamperWrite(res: WriteResult)
      requires Valid() && writeEnabled
      requires res.WriteBytes? && requests != [] ==> written + res.n <= |requests[0]|
      modifies this
      ensures Valid()
      ensures events == old(events) + [if res.WriteBytes? then Wrote(res.n) else WriteFailed]
    {
      // The handler's own check for an empty queue or no credit never fires.
      assert CanWrite(Out());
      if res.WriteBytes? {
        TakeWritten(res.n);
        Advance(Wrote(res.n));
      } else {
        Advance(WriteFailed);
      }
    }

    method TakeDecoded(k: nat)
      requires k <= |writebuf|
      modifies `taken, `writebuf, `decodeWriteEnabled, `decoding
      ensures Dec() == DecodeSome(old(Dec()), k)
    {
      taken := taken + writebuf[..k];
      writebuf := writebuf[k..];
      if |writebuf| == 0 && decoding {
        decodeWriteEnabled := false;
        decoding := false;
      }
    }

    /** `handle_decode_write`; the decoder takes `k` bytes. */
    method HandleDecodeWrite(k: nat)
      requires Valid() && decodeWriteEnabled && k <= |writebuf|
      modifies this
      ensures Valid() && events == old(events) + [DecodeWrote(k)]
    {
      TakeDecoded(k);
      Advance(DecodeWrote(k));
    }

    /** Notes an event whose effect is in the fields. */
    ghost method Advance(e: IoEvent)
      requires readBuf.Length == MAX_MSG_SIZE && bytesInBuffer <= MAX_MSG_SIZE
      requires Feasible(events, decode) && Possible(Run(events, decode), e)
      requires e.Wrote? || e.WriteFailed? ==> CanWrite(Run(events, decode).out)
      requires With(readBuf[..bytesInBuffer]) == Next(Run(events, decode), e, decode)
      modifies `events
      ensures Valid() && events == old(events) + [e]
    {
      RunSnoc(events, e, decode);
      events := events + [e];
    }
  }
}
