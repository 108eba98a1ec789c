/** What holds of the driver after every possible sequence of events. */
module ScamperRuns {
  import opened Collections
  import opened Events
  import opened Framing
  import opened ScamperProtocol
  import Decimal

  // -- reachable states --------------------------------------------------------------------

  /** No lost wakeup: write events are on exactly while there is a credit and a command. */
  predicate CreditInvariant(o: Outgoing) {
    (o.enabled <==> o.more > 0 && o.requests != []) &&
    (o.writing ==> o.enabled) && o.written == 0 && o.countBatch < 100
  }

  predicate DecodingInvariant(d: Decoding) {
    d.enabled == d.decoding && (d.writebuf != [] ==> d.decoding)
  }

  predicate Invariant(s: State) {
    CreditInvariant(s.out) && DecodingInvariant(s.dec)
  }

  /** `events` can happen one after the other from the initial state. */
  predicate Feasible(events: seq<IoEvent>, decode: Decoder)
    decreases |events|, 0
  {
    events == [] ||
    (var n := |events| - 1;
     Feasible(events[..n], decode) && Possible(Run(events[..n], decode), events[n]))
  }

  /** The state after `events`; writing on an empty queue, which the source does not
      guard against, is never reached. */
  function Run(events: seq<IoEvent>, decode: Decoder): (s: State)
    requires Feasible(events, decode)
    ensures Invariant(s)
    decreases |events|, 1
  {
    if events == [] then INITIAL
    else
      var n := |events| - 1;
      var s := Run(events[..n], decode);
      NextKeepsInvariant(s, events[n], decode);
      Next(s, events[n], decode)
  }

  lemma {:induction false} HandleLinesKeepsInvariant(s: State, lines: seq<string>, decode: Decoder)
    requires Invariant(s)
    ensures Invariant(HandleLines(s, lines, decode))
  {
    if lines != [] {
      HandleLinesKeepsInvariant(s, lines[..|lines| - 1], decode);
    }
  }

  lemma {:induction false} EnqueueAllKeepsCredit(o: Outgoing, commands: seq<string>)
    requires CreditInvariant(o)
    ensures CreditInvariant(EnqueueAll(o, commands))
  {
    if commands != [] {
      EnqueueAllKeepsCredit(o, commands[..|commands| - 1]);
    }
  }

  lemma NextKeepsInvariant(s: State, e: IoEvent, decode: Decoder)
    requires Invariant(s) && Possible(s, e)
    ensures e.Wrote? || e.WriteFailed? ==> CanWrite(s.out)
    ensures Invariant(Next(s, e, decode))
  {
    match e
    case Notify(commands) => EnqueueAllKeepsCredit(s.out, commands);
    case Read(chunk) => HandleLinesKeepsInvariant(s, Lines(s.inp.buffer + chunk), decode);
    case _ =>
  }

  // -- credits and order ---------------------------------------------------------------------

  function IsMoreCommand(h: Handled): nat {
    if h.AsCommand? && IsMore(h.line) then 1 else 0
  }

  function DecodedLine(h: Handled, decode: Decoder): seq<Byte> {
    if h.AsData? && decode(h.line).Some? then decode(h.line).value else []
  }

  /** MORE lines among the handled ones. */
  function Mores(handled: seq<Handled>): nat {
    if handled == [] then 0 else Mores(handled[..|handled| - 1]) + IsMoreCommand(handled[|handled| - 1])
  }

  /** Commands handed to the driver, in order. */
  function Notified(events: seq<IoEvent>): seq<string> {
    if events == [] then []
    else
      var e := events[|events| - 1];
      Notified(events[..|events| - 1]) + if e.Notify? then e.commands else []
  }

  lemma MoresSnoc(handled: seq<Handled>, h: Handled)
    ensures Mores(handled + [h]) == Mores(handled) + IsMoreCommand(h)
  {
    assert (handled + [h])[..|handled|] == handled;
  }

  function Tag(i: Incoming, line: string): Handled {
    if i.expected > 0 then AsData(line) else AsCommand(line)
  }

  lemma HandleLineOutgoing(s: State, line: string, decode: Decoder)
    ensures var t := HandleLine(s, line, decode);
            t.out == s.out.(more := t.out.more, enabled := t.out.enabled, writing := t.out.writing) &&
            t.inp.buffer == s.inp.buffer && t.inp.handled == s.inp.handled + [Tag(s.inp, line)] &&
            t.out.more == s.out.more + IsMoreCommand(Tag(s.inp, line))
  {
  }

  /** Handled lines leave the commands alone; a MORE adds its credit. */
  lemma {:induction false} HandleLinesOutgoing(s: State, lines: seq<string>, decode: Decoder)
    ensures var t := HandleLines(s, lines, decode);
            t.out == s.out.(more := t.out.more, enabled := t.out.enabled, writing := t.out.writing) &&
            t.out.more - Mores(t.inp.handled) == s.out.more - Mores(s.inp.handled) &&
            t.inp.buffer == s.inp.buffer
  {
    if lines != [] {
      var n := |lines| - 1;
      HandleLinesOutgoing(s, lines[..n], decode);
      var t := HandleLines(s, lines[..n], decode);
      HandleLineOutgoing(t, lines[n], decode);
      MoresSnoc(t.inp.handled, Tag(t.inp, lines[n]));
    }
  }

  lemma {:induction false} EnqueueAllOutgoing(o: Outgoing, commands: seq<string>)
    ensures var p := EnqueueAll(o, commands);
            p == o.(requests := o.requests + commands, enabled := p.enabled, writing := p.writing)
  {
    if commands != [] {
      var n := |commands| - 1;
      EnqueueAllOutgoing(o, commands[..n]);
      assert o.requests + commands[..n] + [commands[n]] == o.requests + commands;
    } else {
      assert o.requests + commands == o.requests;
    }
  }

  lemma WriteCounts(o: Outgoing, n: nat)
    requires CreditInvariant(o) && CanWrite(o) && n <= |o.requests[0]|
    ensures var p := WriteSome(o, n);
            |p.completed| + p.more == |o.completed| + o.more &&
            p.completed + p.requests == o.completed + o.requests &&
            p.reported + p.countBatch - |p.completed| == o.reported + o.countBatch - |o.completed|
  {
    assert o.completed + o.requests == o.completed + [o.requests[0]] + o.requests[1..];
  }

  function NewCommands(e: IoEvent): seq<string> {
    if e.Notify? then e.commands else []
  }

  lemma NextCounts(s: State, e: IoEvent, decode: Decoder)
    requires Invariant(s) && Possible(s, e) && (e.Wrote? || e.WriteFailed? ==> CanWrite(s.out))
    ensures var t := Next(s, e, decode);
            |t.out.completed| + t.out.more - Mores(t.inp.handled) == |s.out.completed| + s.out.more - Mores(s.inp.handled) &&
            t.out.completed + t.out.requests == s.out.completed + s.out.requests + NewCommands(e) &&
            t.out.reported + t.out.countBatch - |t.out.completed| == s.out.reported + s.out.countBatch - |s.out.completed|
  {
    var o := s.out;
    match e
    case Notify(commands) =>
      EnqueueAllOutgoing(o, commands);
      assert o.completed + (o.requests + commands) == o.completed + o.requests + commands;
    case Read(chunk) => HandleLinesOutgoing(s, Lines(s.inp.buffer + chunk), decode);
    case Wrote(n) => WriteCounts(o, n);
    case _ =>
  }

  /** In every reachable state commands sent plus credits left are one plus the MOREs
      received, and every completed command is reported once or waits in the current batch. */
  lemma {:induction false} CreditsAddUp(events: seq<IoEvent>, decode: Decoder)
    requires Feasible(events, decode)
    ensures var s := Run(events, decode);
            |s.out.completed| + s.out.more == 1 + Mores(s.inp.handled) &&
            s.out.reported + s.out.countBatch == |s.out.completed|
  {
    if events != [] {
      var n := |events| - 1;
      CreditsAddUp(events[..n], decode);
      NextKeepsInvariant(Run(events[..n], decode), events[n], decode);
      NextCounts(Run(events[..n], decode), events[n], decode);
    }
  }

  lemma NextReportsHundreds(s: State, e: IoEvent, decode: Decoder)
    requires Invariant(s) && Possible(s, e) && (e.Wrote? || e.WriteFailed? ==> CanWrite(s.out))
    ensures Next(s, e, decode).out.reported == s.out.reported || Next(s, e, decode).out.reported == s.out.reported + 100
  {
    match e
    case Notify(commands) => EnqueueAllOutgoing(s.out, commands);
    case Read(chunk) => HandleLinesOutgoing(s, Lines(s.inp.buffer + chunk), decode);
    case _ =>
  }

  /** Completed commands are reported by the hundred, as soon as one is full. */
  lemma {:induction false} ReportedInHundreds(events: seq<IoEvent>, decode: Decoder)
    requires Feasible(events, decode)
    ensures var o := Run(events, decode).out; o.reported % 100 == 0 && o.reported <= |o.completed| < o.reported + 100
  {
    CreditsAddUp(events, decode);
    if events != [] {
      var n := |events| - 1;
      ReportedInHundreds(events[..n], decode);
      NextKeepsInvariant(Run(events[..n], decode), events[n], decode);
      NextReportsHundreds(Run(events[..n], decode), events[n], decode);
    }
  }

  /** Commands complete in the order they were handed over, each once, after the attach. */
  lemma {:induction false} CompletedInOrder(events: seq<IoEvent>, decode: Decoder)
    requires Feasible(events, decode)
    ensures Run(events, decode).out.completed + Run(events, decode).out.requests == ["attach\n"] + Notified(events)
  {
    if events != [] {
      var n := |events| - 1;
      CompletedInOrder(events[..n], decode);
      NextKeepsInvariant(Run(events[..n], decode), events[n], decode);
      NextCounts(Run(events[..n], decode), events[n], decode);
      Associate([ATTACH], Notified(events[..n]), NewCommands(events[n]));
    }
  }

  // -- the outgoing byte stream ------------------------------------------------------------------

  function Flatten<T>(parts: seq<seq<T>>): seq<T> {
    if parts == [] then [] else Flatten(parts[..|parts| - 1]) + parts[|parts| - 1]
  }

  /** Bytes put on the wire by writes that did not take a whole command. */
  function ShortBytes(events: seq<IoEvent>, decode: Decoder): nat
    requires Feasible(events, decode)
  {
    if events == [] then 0
    else
      var n := |events| - 1;
      var s := Run(events[..n], decode);
      NextKeepsInvariant(s, events[n], decode);
      ShortBytes(events[..n], decode) +
      if events[n].Wrote? && events[n].n < |s.out.requests[0]| then events[n].n else 0
  }

  lemma WriteSends(o: Outgoing, n: nat)
    requires CreditInvariant(o) && CanWrite(o) && n <= |o.requests[0]|
    ensures var p := WriteSome(o, n);
            p.sent == o.sent + o.requests[0][..n] &&
            p.completed == if n < |o.requests[0]| then o.completed else o.completed + [o.requests[0]]
  {
  }

  lemma FlattenSnoc<T>(parts: seq<seq<T>>, part: seq<T>)
    ensures Flatten(parts + [part]) == Flatten(parts) + part
  {
    assert (parts + [part])[..|parts|] == parts;
  }

  /** A write either completes the first command or leaves its bytes on the wire and starts over. */
  lemma {:induction false} SentBytes(events: seq<IoEvent>, decode: Decoder)
    requires Feasible(events, decode)
    ensures var o := Run(events, decode).out;
            |o.sent| == |Flatten(o.completed)| + ShortBytes(events, decode) &&
            (ShortBytes(events, decode) == 0 ==> o.sent == Flatten(o.completed))
  {
    if events != [] {
      var n := |events| - 1;
      SentBytes(events[..n], decode);
      var s := Run(events[..n], decode);
      NextKeepsInvariant(s, events[n], decode);
      match events[n]
      case Notify(commands) => EnqueueAllOutgoing(s.out, commands);
      case Read(chunk) => HandleLinesOutgoing(s, Lines(s.inp.buffer + chunk), decode);
      case Wrote(k) =>
        WriteSends(s.out, k);
        FlattenSnoc(s.out.completed, s.out.requests[0]);
        assert s.out.requests[0][..|s.out.requests[0]|] == s.out.requests[0];
      case _ =>
    }
  }

  /** The bytes on the wire are exactly the completed commands if and only if no write was
      short, except for writes that took nothing. */
  lemma SentExactly(events: seq<IoEvent>, decode: Decoder)
    requires Feasible(events, decode)
    ensures Run(events, decode).out.sent == Flatten(Run(events, decode).out.completed) <==> ShortBytes(events, decode) == 0
  {
    SentBytes(events, decode);
  }

  // -- the parser depends on the bytes alone ----------------------------------------------------------

  function TrackLines(i: Incoming, lines: seq<string>, decode: Decoder): Incoming {
    if lines == [] then i
    else Track(TrackLines(i, lines[..|lines| - 1], decode), lines[|lines| - 1], decode)
  }

  const START := Incoming([], 0, [])

  lemma {:induction false} TrackLinesConcat(i: Incoming, s: seq<string>, t: seq<string>, decode: Decoder)
    ensures TrackLines(i, s + t, decode) == TrackLines(TrackLines(i, s, decode), t, decode)
  {
    if t == [] {
      assert s + t == s;
    } else {
      var n := |t| - 1;
      assert (s + t)[..|s + t| - 1] == s + t[..n];
      TrackLinesConcat(i, s, t[..n], decode);
    }
  }

  lemma {:induction false} HandleLinesTrack(s: State, lines: seq<string>, decode: Decoder)
    ensures HandleLines(s, lines, decode).inp == TrackLines(s.inp, lines, decode)
  {
    if lines != [] {
      HandleLinesTrack(s, lines[..|lines| - 1], decode);
    }
  }

  lemma {:induction false} TrackLinesBuffer(i: Incoming, lines: seq<string>, b: string, decode: Decoder)
    ensures TrackLines(i.(buffer := b), lines, decode) == TrackLines(i, lines, decode).(buffer := b)
  {
    if lines != [] {
      TrackLinesBuffer(i, lines[..|lines| - 1], b, decode);
    }
  }

  /** Everything read from the socket. */
  function Received(events: seq<IoEvent>): string {
    if events == [] then []
    else
      var e := events[|events| - 1];
      Received(events[..|events| - 1]) + if e.Read? then e.chunk else []
  }

  /** However the stream is cut into reads, and whatever happens in between: the lines
      handled so far are those of the whole stream, the parser is where the whole stream
      takes it, and the buffer keeps the unfinished last line. */
  lemma {:induction false} ChunksDoNotMatter(events: seq<IoEvent>, decode: Decoder)
    requires Feasible(events, decode)
    ensures Run(events, decode).inp ==
            TrackLines(START, Lines(Received(events)), decode).(buffer := Tail(Received(events)))
  {
    if events != [] {
      var n := |events| - 1;
      ChunksDoNotMatter(events[..n], decode);
      var s := Run(events[..n], decode);
      var before := Received(events[..n]);
      NextKeepsInvariant(s, events[n], decode);
      if events[n].Read? {
        var chunk := events[n].chunk;
        var lines := Lines(s.inp.buffer + chunk);
        LinesConcat(before, chunk);
        HandleLinesTrack(s, lines, decode);
        TrackLinesConcat(START, Lines(before), lines, decode);
        TrackLinesBuffer(TrackLines(START, Lines(before), decode), lines, Tail(before), decode);
      } else {
        assert before + [] == before;
      }
    }
  }

  function Texts(handled: seq<Handled>): seq<string> {
    if handled == [] then [] else Texts(handled[..|handled| - 1]) + [handled[|handled| - 1].line]
  }

  lemma TextsSnoc(handled: seq<Handled>, h: Handled)
    ensures Texts(handled + [h]) == Texts(handled) + [h.line]
  {
    assert (handled + [h])[..|handled|] == handled;
  }

  lemma {:induction false} TrackLinesTexts(i: Incoming, lines: seq<string>, decode: Decoder)
    ensures Texts(TrackLines(i, lines, decode).handled) == Texts(i.handled) + lines
  {
    if lines == [] {
      assert Texts(i.handled) + lines == Texts(i.handled);
    } else {
      var n := |lines| - 1;
      TrackLinesTexts(i, lines[..n], decode);
      var j := TrackLines(i, lines[..n], decode);
      TextsSnoc(j.handled, Tag(j, lines[n]));
      assert Texts(i.handled) + lines == Texts(i.handled) + lines[..n] + [lines[n]];
    }
  }

  /** The lines handled, each once and in order, are those of the stream. */
  lemma HandledAreTheLines(events: seq<IoEvent>, decode: Decoder)
    requires Feasible(events, decode)
    ensures Texts(Run(events, decode).inp.handled) == Lines(Received(events))
    ensures Join(Texts(Run(events, decode).inp.handled), Run(events, decode).inp.buffer) == Received(events)
  {
    ChunksDoNotMatter(events, decode);
    TrackLinesTexts(START, Lines(Received(events)), decode);
    LinesJoin(Received(events));
    assert Texts([]) + Lines(Received(events)) == Lines(Received(events));
  }

  // -- the 512 byte buffer -------------------------------------------------------------------------------

  /** At every point of the stream the unfinished line leaves room for another byte. */
  predicate RoomEverywhere(s: string) {
    |Tail(s)| < 512 && (s == [] || RoomEverywhere(s[..|s| - 1]))
  }

  predicate AllShort(lines: seq<string>) {
    forall l :: l in lines ==> |l| < 512
  }

  lemma {:induction false} RoomExactly(s: string)
    ensures RoomEverywhere(s) <==> AllShort(Lines(s)) && |Tail(s)| < 512
  {
    if s != [] {
      RoomExactly(s[..|s| - 1]);
    }
  }

  /** A read is possible exactly if the unfinished line is shorter than the buffer, and it is so
      at every point of the stream if and only if no line, finished or not, is longer than 511
      bytes. */
  lemma ReadNeverStalls(events: seq<IoEvent>, decode: Decoder)
    requires Feasible(events, decode)
    ensures (exists chunk :: Possible(Run(events, decode), Read(chunk))) <==> |Tail(Received(events))| < 512
    ensures AllShort(Lines(Received(events))) && |Tail(Received(events))| < 512
            <==> RoomEverywhere(Received(events))
  {
    ChunksDoNotMatter(events, decode);
    RoomExactly(Received(events));
    if |Tail(Received(events))| < 512 {
      assert Possible(Run(events, decode), Read("x"));
    }
  }

  /** Once the buffer is full of an unfinished line nothing is ever read or handled again,
      whatever else happens. */
  lemma {:induction false} FullBufferStalls(events: seq<IoEvent>, more: seq<IoEvent>, decode: Decoder)
    requires Feasible(events, decode) && Feasible(events + more, decode)
    requires |Run(events, decode).inp.buffer| == 512
    ensures Run(events + more, decode).inp == Run(events, decode).inp && Received(events + more) == Received(events)
  {
    if more == [] {
      assert events + more == events;
    } else {
      var n := |more| - 1;
      assert (events + more)[..|events + more| - 1] == events + more[..n];
      FullBufferStalls(events, more[..n], decode);
      NextKeepsInvariant(Run(events + more[..n], decode), more[n], decode);
    }
  }

  // -- DATA blocks ------------------------------------------------------------------------------------------

  /** Bytes of whole lines, newlines included. */
  function Size(lines: seq<string>): nat {
    if lines == [] then 0 else Size(lines[..|lines| - 1]) + |lines[|lines| - 1]| + 1
  }

  /** Bytes of the lines `uudecode_line` rejects. */
  function BadSize(lines: seq<string>, decode: Decoder): nat {
    if lines == [] then 0
    else BadSize(lines[..|lines| - 1], decode) + if decode(lines[|lines| - 1]).None? then |lines[|lines| - 1]| + 1 else 0
  }

  function AllData(lines: seq<string>): seq<Handled> {
    if lines == [] then [] else AllData(lines[..|lines| - 1]) + [AsData(lines[|lines| - 1])]
  }

  lemma {:induction false} BadSizeZero(lines: seq<string>, decode: Decoder)
    ensures BadSize(lines, decode) <= Size(lines)
    ensures BadSize(lines, decode) == 0 <==> forall i :: 0 <= i < |lines| ==> decode(lines[i]).Some?
  {
    if lines != [] {
      BadSizeZero(lines[..|lines| - 1], decode);
    }
  }

  /** While a block announces enough bytes, its lines go to the data handler, the counter
      never underflows, and it ends up short by exactly the decodable lines. */
  lemma {:induction false} BlockLines(i: Incoming, lines: seq<string>, decode: Decoder)
    requires Size(lines) <= i.expected < SIZE_MODULUS
    ensures TrackLines(i, lines, decode) ==
            i.(expected := i.expected - Size(lines) + BadSize(lines, decode), handled := i.handled + AllData(lines))
  {
    if lines == [] {
      assert i.handled + AllData(lines) == i.handled;
    } else {
      var n := |lines| - 1;
      BlockLines(i, lines[..n], decode);
      BadSizeZero(lines[..n], decode);
      assert i.handled + AllData(lines) == i.handled + AllData(lines[..n]) + [AsData(lines[n])];
    }
  }

  /** A counter that is too small for a decodable line wraps; it is exact otherwise. */
  lemma CounterExactly(i: Incoming, line: string, decode: Decoder)
    requires 0 < i.expected < SIZE_MODULUS && |line| < 512 && decode(line).Some?
    ensures Track(i, line, decode).expected == i.expected - (|line| + 1) <==> |line| + 1 <= i.expected
  {
  }

  /** What scamper sends: single command lines, and DATA blocks of whole lines. */
  datatype Item = CommandLine(line: string) | DataBlock(lines: seq<string>)

  predicate ItemOk(item: Item) {
    match item
    case CommandLine(line) => '\n' !in line && !IsData(line)
    case DataBlock(lines) => Size(lines) <= Decimal.ULONG_MAX && forall l :: l in lines ==> '\n' !in l
  }

  function DataHeader(n: nat): string {
    "DATA " + Decimal.ToString(n)
  }

  function ItemLines(item: Item): seq<string> {
    match item
    case CommandLine(line) => [line]
    case DataBlock(lines) => [DataHeader(Size(lines))] + lines
  }

  function ItemHandled(item: Item): seq<Handled> {
    match item
    case CommandLine(line) => [AsCommand(line)]
    case DataBlock(lines) => [AsCommand(DataHeader(Size(lines)))] + AllData(lines)
  }

  function AllLines(items: seq<Item>): seq<string> {
    if items == [] then [] else AllLines(items[..|items| - 1]) + ItemLines(items[|items| - 1])
  }

  function AllHandled(items: seq<Item>): seq<Handled> {
    if items == [] then [] else AllHandled(items[..|items| - 1]) + ItemHandled(items[|items| - 1])
  }

  /** The bytes scamper sends for `items`. */
  function Render(items: seq<Item>): string {
    Join(AllLines(items), [])
  }

  lemma HeaderParses(n: nat)
    requires n <= Decimal.ULONG_MAX
    ensures IsData(DataHeader(n)) && !IsMore(DataHeader(n)) && DataLength(DataHeader(n)) == n
    ensures '\n' !in DataHeader(n)
  {
    var digits := Decimal.ToString(n);
    assert DataHeader(n)[5..] == digits;
    Decimal.StrtoulOfToString(n);
    forall i | 0 <= i < |DataHeader(n)| ensures DataHeader(n)[i] != '\n' {
      assert i >= 5 ==> Decimal.IsDigit(digits[i - 5]);
    }
  }

  lemma OneLine(i: Incoming, line: string, decode: Decoder)
    ensures TrackLines(i, [line], decode) == Track(i, line, decode)
  {
    assert [line][..0] == [];
  }

  lemma AnnouncementTracks(i: Incoming, line: string, n: nat, decode: Decoder)
    requires i.expected == 0 && IsData(line) && !IsMore(line) && DataLength(line) == n <= Decimal.ULONG_MAX
    ensures Track(i, line, decode) == i.(expected := n, handled := i.handled + [AsCommand(line)])
  {
  }

  lemma HandledConcat(i: Incoming, header: string, lines: seq<string>)
    ensures i.handled + [AsCommand(header)] + AllData(lines) == i.handled + ([AsCommand(header)] + AllData(lines))
  {
  }

  lemma AnnouncedBlock(i: Incoming, header: string, lines: seq<string>, decode: Decoder)
    requires i.expected == 0 && Size(lines) <= Decimal.ULONG_MAX
    requires IsData(header) && !IsMore(header) && DataLength(header) == Size(lines)
    ensures TrackLines(i, [header] + lines, decode) ==
            i.(handled := i.handled + ([AsCommand(header)] + AllData(lines)), expected := BadSize(lines, decode))
  {
    var j := i.(expected := Size(lines), handled := i.handled + [AsCommand(header)]);
    OneLine(i, header, decode);
    AnnouncementTracks(i, header, Size(lines), decode);
    BlockLines(j, lines, decode);
    TrackLinesConcat(i, [header], lines, decode);
    HandledConcat(i, header, lines);
  }

  lemma BlockParses(i: Incoming, lines: seq<string>, decode: Decoder)
    requires i.expected == 0 && ItemOk(DataBlock(lines))
    ensures TrackLines(i, ItemLines(DataBlock(lines)), decode) ==
            i.(handled := i.handled + ItemHandled(DataBlock(lines)), expected := BadSize(lines, decode))
  {
    HeaderParses(Size(lines));
    AnnouncedBlock(i, DataHeader(Size(lines)), lines, decode);
  }

  lemma ItemParses(i: Incoming, item: Item, decode: Decoder)
    requires i.expected == 0 && ItemOk(item)
    ensures TrackLines(i, ItemLines(item), decode) ==
            i.(handled := i.handled + ItemHandled(item),
               expected := if item.DataBlock? then BadSize(item.lines, decode) else 0)
  {
    if item.DataBlock? {
      BlockParses(i, item.lines, decode);
    } else {
      OneLine(i, item.line, decode);
    }
  }

  predicate AllDecodable(items: seq<Item>, decode: Decoder) {
    forall i, l :: i in items && i.DataBlock? && l in i.lines ==> decode(l).Some?
  }

  lemma {:induction false} ItemsParse(items: seq<Item>, decode: Decoder)
    requires forall i :: i in items ==> ItemOk(i)
    requires AllDecodable(items, decode)
    ensures TrackLines(START, AllLines(items), decode) == START.(handled := AllHandled(items))
  {
    if items != [] {
      var n := |items| - 1;
      assert items[n] in items;
      assert forall i :: i in items[..n] ==> i in items;
      ItemsParse(items[..n], decode);
      TrackLinesConcat(START, AllLines(items[..n]), ItemLines(items[n]), decode);
      ItemParses(START.(handled := AllHandled(items[..n])), items[n], decode);
      if items[n].DataBlock? {
        BadSizeZero(items[n].lines, decode);
      }
    }
  }

  lemma {:induction false} AllLinesOk(items: seq<Item>)
    requires forall i :: i in items ==> ItemOk(i)
    ensures forall l :: l in AllLines(items) ==> '\n' !in l
  {
    if items != [] {
      var n := |items| - 1;
      assert items[n] in items;
      AllLinesOk(items[..n]);
      if items[n].DataBlock? {
        HeaderParses(Size(items[n].lines));
      }
    }
  }

  /** Parsing inverts rendering: cut in any way, with anything else going on, a stream of
      command lines and DATA blocks of decodable lines is handled item by item, and the
      byte counter is back at zero. */
  lemma ParserInvertsRenderer(items: seq<Item>, events: seq<IoEvent>, decode: Decoder)
    requires forall i :: i in items ==> ItemOk(i)
    requires AllDecodable(items, decode)
    requires Feasible(events, decode) && Received(events) == Render(items)
    ensures Run(events, decode).inp == Incoming([], 0, AllHandled(items))
  {
    AllLinesOk(items);
    SplitIsUnique(AllLines(items), []);
    ChunksDoNotMatter(events, decode);
    ItemsParse(items, decode);
  }

  /** A block leaves the counter at zero, so that the next line is a command again, exactly
      if every line of it decodes. */
  lemma BlockEndsExactly(i: Incoming, lines: seq<string>, decode: Decoder)
    requires i.expected == 0 && ItemOk(DataBlock(lines))
    ensures TrackLines(i, ItemLines(DataBlock(lines)), decode).expected == 0 <==>
            forall j :: 0 <= j < |lines| ==> decode(lines[j]).Some?
  {
    ItemParses(i, DataBlock(lines), decode);
    BadSizeZero(lines, decode);
  }

  // -- the decoder --------------------------------------------------------------------------------------------

  /** The decoded data lines, one after the other. */
  function Decoded(handled: seq<Handled>, decode: Decoder): seq<Byte> {
    if handled == [] then [] else Decoded(handled[..|handled| - 1], decode) + DecodedLine(handled[|handled| - 1], decode)
  }

  lemma DecodedSnoc(handled: seq<Handled>, h: Handled, decode: Decoder)
    ensures Decoded(handled + [h], decode) == Decoded(handled, decode) + DecodedLine(h, decode)
  {
    assert (handled + [h])[..|handled|] == handled;
  }

  /** What the decoder got and will get. */
  function ForDecoder(d: Decoding): seq<Byte> {
    d.taken + d.writebuf
  }

  lemma BufferedAppends(d: Decoding, bytes: seq<Byte>)
    ensures ForDecoder(Buffered(d, bytes)) == ForDecoder(d) + bytes
  {
    assert d.taken + (d.writebuf + bytes) == d.taken + d.writebuf + bytes;
  }

  lemma {:induction false} HandleLinesDecode(s: State, lines: seq<string>, decode: Decoder)
    requires ForDecoder(s.dec) == Decoded(s.inp.handled, decode)
    ensures ForDecoder(HandleLines(s, lines, decode).dec) == Decoded(HandleLines(s, lines, decode).inp.handled, decode)
  {
    if lines != [] {
      var n := |lines| - 1;
      HandleLinesDecode(s, lines[..n], decode);
      var t := HandleLines(s, lines[..n], decode);
      DecodedSnoc(t.inp.handled, Tag(t.inp, lines[n]), decode);
      BufferedAppends(t.dec, DecodedLine(Tag(t.inp, lines[n]), decode));
    }
  }

  /** The decoder receives the decoded data lines in order; what it has not taken yet waits
      in the write buffer, with write events on. */
  lemma {:induction false} DecoderReceivesInOrder(events: seq<IoEvent>, decode: Decoder)
    requires Feasible(events, decode)
    ensures var s := Run(events, decode);
            ForDecoder(s.dec) == Decoded(s.inp.handled, decode) && (s.dec.writebuf != [] ==> s.dec.enabled)
  {
    if events != [] {
      var n := |events| - 1;
      DecoderReceivesInOrder(events[..n], decode);
      var s := Run(events[..n], decode);
      NextKeepsInvariant(s, events[n], decode);
      match events[n]
      case Read(chunk) => HandleLinesDecode(s, Lines(s.inp.buffer + chunk), decode);
      case DecodeWrote(k) =>
        assert ForDecoder(s.dec) == s.dec.taken + s.dec.writebuf[..k] + s.dec.writebuf[k..];
      case _ =>
    }
  }
}
