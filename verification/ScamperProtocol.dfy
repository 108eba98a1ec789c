/** The driver of one scamper daemon, as a state machine: the line framer, the
    parser for MORE and DATA, and the credit protocol for outgoing commands. */
module ScamperProtocol {
  import opened Collections
  import opened Events
  import opened Framing
  import Decimal

  // -- state ------------------------------------------------------------------------------

  const MAX_MSG_SIZE := 512
  const ATTACH := "attach\n"
  const SIZE_MODULUS := 0x1_0000_0000_0000_0000

  datatype Handled = AsData(line: string) | AsCommand(line: string)

  /** The unfinished line, the bytes of the current DATA block still expected, and the lines
      handled so far. */
  datatype Incoming = Incoming(buffer: string, expected: nat, handled: seq<Handled>)

  /** Credits and queued commands; `enabled` is the registration of scamper's socket for write
      events.  `completed`, `sent` and `reported` record what left the driver. */
  datatype Outgoing = Outgoing(more: nat, writing: bool, enabled: bool, requests: seq<string>, written: nat,
                               countBatch: nat, completed: seq<string>, sent: string, reported: nat)

  /** Decoded bytes waiting for the decoder's socket, and the bytes it took. */
  datatype Decoding = Decoding(writebuf: seq<Byte>, decoding: bool, enabled: bool, taken: seq<Byte>)

  datatype State = State(inp: Incoming, out: Outgoing, dec: Decoding)

  /** The initial attach command is queued with one credit, and the socket is registered
      for reading and writing from the start. */
  const INITIAL := State(Incoming([], 0, []), Outgoing(1, false, true, [ATTACH], 0, 0, [], [], 0),
                         Decoding([], false, false, []))

  /** `uudecode_line`: `None` when the line cannot be decoded. */
  type Decoder = string -> Option<seq<Byte>>

  // -- incoming lines ------------------------------------------------------------------------

  /** The number behind `DATA `. */
  function DataLength(line: string): nat {
    Decimal.Strtoul(if |line| >= 5 then line[5..] else [])
  }

  predicate IsMore(line: string) { line != [] && line[0] == 'M' }

  predicate IsData(line: string) { line != [] && line[0] == 'D' }

  /** The byte counter and the handler: data while bytes are expected, commands otherwise.
      The counter is an unsigned 64 bit number, and an undecodable line leaves it alone. */
  function Track(i: Incoming, line: string, decode: Decoder): Incoming {
    if i.expected > 0 then
      i.(handled := i.handled + [AsData(line)],
         expected := if decode(line).None? then i.expected else (i.expected - (|line| + 1)) % SIZE_MODULUS)
    else
      i.(handled := i.handled + [AsCommand(line)],
         expected := if !IsMore(line) && IsData(line) && DataLength(line) != 0 then DataLength(line) % SIZE_MODULUS else 0)
  }

  /** Decoded bytes go to the write buffer. */
  function Buffered(d: Decoding, bytes: seq<Byte>): Decoding {
    if bytes == [] then d
    else d.(writebuf := d.writebuf + bytes, decoding := true, enabled := d.enabled || !d.decoding)
  }

  /** A MORE is a credit; it turns write events on if a command was waiting for it. */
  function Credit(o: Outgoing): Outgoing {
    var p := o.(more := o.more + 1);
    if p.requests != [] && !p.writing then p.(enabled := true, writing := true) else p
  }

  /** `scamper_handle_data` while bytes are expected, `scamper_handle_cmd` otherwise, where the
      first character decides. */
  function HandleLine(s: State, line: string, decode: Decoder): State {
    var data := s.inp.expected > 0;
    State(Track(s.inp, line, decode),
          if !data && IsMore(line) then Credit(s.out) else s.out,
          if data && decode(line).Some? then Buffered(s.dec, decode(line).value) else s.dec)
  }

  function HandleLines(s: State, lines: seq<string>, decode: Decoder): State {
    if lines == [] then s
    else HandleLine(HandleLines(s, lines[..|lines| - 1], decode), lines[|lines| - 1], decode)
  }

  // -- outgoing commands ------------------------------------------------------------------------

  /** `handle_notify_read`, one queued command at a time. */
  function Enqueue(o: Outgoing, command: string): Outgoing {
    var p := o.(requests := o.requests + [command]);
    if p.more > 0 && !p.writing then p.(enabled := true, writing := true) else p
  }

  function EnqueueAll(o: Outgoing, commands: seq<string>): Outgoing {
    if commands == [] then o
    else Enqueue(EnqueueAll(o, commands[..|commands| - 1]), commands[|commands| - 1])
  }

  /** The first command is out completely: it uses up a credit and is counted, a hundred at
      a time. */
  function PopCommand(o: Outgoing): Outgoing
    requires CanWrite(o)
  {
    var full := o.countBatch + 1 >= 100;
    o.(more := o.more - 1, requests := o.requests[1..], written := 0,
       completed := o.completed + [o.requests[0]],
       countBatch := if full then 0 else o.countBatch + 1,
       reported := if full then o.reported + o.countBatch + 1 else o.reported)
  }

  /** Write events stop when the credits or the commands do. */
  function StopIfDrained(o: Outgoing): Outgoing {
    if o.more == 0 || o.requests == [] then o.(enabled := false, writing := false) else o
  }

  /** `handle_scamper_write` after `write` accepted `n` bytes of the first command.
      `written` is never advanced, and the loop variable that would repeat the write is
      shadowed, so one event attempts one write. */
  function WriteSome(o: Outgoing, n: nat): Outgoing
    requires CanWrite(o) && o.written + n <= |o.requests[0]|
  {
    var p := o.(sent := o.sent + o.requests[0][o.written..o.written + n]);
    if o.written + n < |o.requests[0]| then p else StopIfDrained(PopCommand(p))
  }

  /** The first check of `handle_scamper_write` does not return, so the handler needs a
      queued command and a credit. */
  predicate CanWrite(o: Outgoing) {
    o.requests != [] && o.more > 0
  }

  /** `handle_decode_write` after `k` bytes went to the decoder. */
  function DecodeSome(d: Decoding, k: nat): Decoding
    requires k <= |d.writebuf|
  {
    var e := d.(writebuf := d.writebuf[k..], taken := d.taken + d.writebuf[..k]);
    if e.writebuf == [] && e.decoding then e.(enabled := false, decoding := false) else e
  }

  // -- events -----------------------------------------------------------------------------------

  datatype IoEvent =
    | Notify(commands: seq<string>)
    | Read(chunk: string)
    | ReadFailed
    | Wrote(n: nat)
    | WriteFailed
    | DecodeWrote(k: nat)

  /** `handle_scamper_read` after `read` returned `chunk`. */
  function ReadChunk(s: State, chunk: string, decode: Decoder): State {
    var data := s.inp.buffer + chunk;
    var t := HandleLines(s, Lines(data), decode);
    t.(inp := t.inp.(buffer := Tail(data)))
  }

  /** What the environment may do: events only come for registered sockets, a read returns
      at most the free space, a write accepts at most what it is offered. */
  predicate Possible(s: State, e: IoEvent) {
    match e
    case Notify(_) => true
    case Read(chunk) => chunk != [] && |s.inp.buffer| + |chunk| <= MAX_MSG_SIZE
    case ReadFailed => true
    case Wrote(n) => s.out.enabled && (s.out.requests != [] ==> s.out.written + n <= |s.out.requests[0]|)
    case WriteFailed => s.out.enabled
    case DecodeWrote(k) => s.dec.enabled && k <= |s.dec.writebuf|
  }

  function Next(s: State, e: IoEvent, decode: Decoder): State
    requires Possible(s, e) && (e.Wrote? || e.WriteFailed? ==> CanWrite(s.out))
  {
    match e
    case Notify(commands) => s.(out := EnqueueAll(s.out, commands))
    case Read(chunk) => ReadChunk(s, chunk, decode)
    case ReadFailed => s
    case Wrote(n) => s.(out := WriteSome(s.out, n))
    case WriteFailed => s
    case DecodeWrote(k) => s.(dec := DecodeSome(s.dec, k))
  }
}
