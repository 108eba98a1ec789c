/** The byte stream the driver sends, and runs in which it fails: short writes, a line that cannot
    be decoded, and a line that is too long. */
module ScamperStream {
  import opened Collections
  import opened Events
  import opened Framing
  import opened ScamperProtocol
  import opened ScamperRuns
  import Decimal

  // -- is what was sent the beginning of the commands? ----------------------------------------------

  /** A command as they are all made: one line. */
  predicate OneLineCommand(c: string) {
    c != [] && c[|c| - 1] == '\n' && '\n' !in c[..|c| - 1]
  }

  predicate AllOneLine(commands: seq<string>) {
    forall i :: 0 <= i < |commands| ==> OneLineCommand(commands[i])
  }

  /** What short writes left on the wire: bytes in front of commands that completed since, and
      bytes of the command that is first in the queue now. */
  datatype Wire = Wire(wasted: nat, partial: string)

  function WireOf(events: seq<IoEvent>, decode: Decoder): Wire
    requires Feasible(events, decode)
  {
    if events == [] then Wire(0, [])
    else
      var n := |events| - 1;
      var s := Run(events[..n], decode);
      NextKeepsInvariant(s, events[n], decode);
      var w := WireOf(events[..n], decode);
      if !events[n].Wrote? then w
      else if events[n].n < |s.out.requests[0]| then w.(partial := w.partial + s.out.requests[0][..events[n].n])
      else Wire(w.wasted + |w.partial|, [])
  }

  /** The two strings differ, however they go on. */
  predicate Diverged(s: string, t: string) {
    exists q :: 0 <= q < |s| && q < |t| && s[q] != t[q]
  }

  lemma DivergedGrows(s: string, t: string, s2: string, t2: string)
    requires Diverged(s, t) && s <= s2 && t <= t2
    ensures Diverged(s2, t2)
  {
    var q :| 0 <= q < |s| && q < |t| && s[q] != t[q];
    assert s2[q] != t2[q];
  }

  lemma {:induction false} FlattenConcat<T>(s: seq<seq<T>>, t: seq<seq<T>>)
    ensures Flatten(s + t) == Flatten(s) + Flatten(t)
  {
    if t == [] {
      assert s + t == s;
    } else {
      var n := |t| - 1;
      assert s + t == s + t[..n] + [t[n]];
      FlattenSnoc(s + t[..n], t[n]);
      FlattenConcat(s, t[..n]);
    }
  }

  /** A command behind a part of itself puts its newline in the wrong place. */
  lemma RepeatDiverges(done: string, partial: string, c: string, rest: string)
    requires OneLineCommand(c) && partial != [] && '\n' !in partial
    ensures Diverged(done + partial + c, done + (c + rest))
  {
    var s, q := done + partial + c, |done| + |c| - 1;
    assert (done + (c + rest))[q] == '\n';
    if |partial| >= |c| {
      assert s[q] == partial[|c| - 1];
    } else {
      assert s[q] == c[..|c| - 1][|c| - 1 - |partial|];
    }
  }

  /** The wire after the events so far. */
  predicate WireHolds(w: Wire, o: Outgoing) {
    AllOneLine(o.requests) && '\n' !in w.partial &&
    if w.wasted == 0 then o.sent == Flatten(o.completed) + w.partial
    else Diverged(o.sent, Flatten(o.completed + o.requests))
  }

  lemma ShortWriteKeepsWire(w: Wire, o: Outgoing, n: nat)
    requires WireHolds(w, o) && w.wasted == 0 && CreditInvariant(o) && CanWrite(o) && n < |o.requests[0]|
    ensures WireHolds(w.(partial := w.partial + o.requests[0][..n]), WriteSome(o, n))
  {
    var c := o.requests[0];
    WriteSends(o, n);
    Associate(Flatten(o.completed), w.partial, c[..n]);
    assert forall i :: 0 <= i < n ==> c[i] == c[..|c| - 1][i];
  }

  /** The commands, split at the first one that waits. */
  lemma FlattenQueue(completed: seq<string>, c: string, rest: seq<string>)
    ensures Flatten(completed + ([c] + rest)) == Flatten(completed) + (c + Flatten(rest))
  {
    FlattenConcat(completed, [c] + rest);
    FlattenConcat([c], rest);
    FlattenSnoc([], c);
    assert [] + [c] == [c] && [] + c == c;
  }

  lemma FullWriteKeepsWire(w: Wire, o: Outgoing, n: nat)
    requires WireHolds(w, o) && w.wasted == 0 && CreditInvariant(o) && CanWrite(o) && n == |o.requests[0]|
    ensures WireHolds(Wire(|w.partial|, []), WriteSome(o, n))
  {
    var p, c := WriteSome(o, n), o.requests[0];
    WriteSends(o, n);
    WriteCounts(o, n);
    FlattenSnoc(o.completed, c);
    assert c[..n] == c && o.requests == [c] + o.requests[1..];
    if w.partial == [] {
      assert Flatten(o.completed) + [] == Flatten(o.completed);
      assert Flatten(p.completed) + [] == Flatten(p.completed);
    } else {
      FlattenQueue(o.completed, c, o.requests[1..]);
      RepeatDiverges(Flatten(o.completed), w.partial, c, Flatten(o.requests[1..]));
    }
  }

  lemma WriteKeepsDiverged(o: Outgoing, n: nat)
    requires CreditInvariant(o) && CanWrite(o) && n <= |o.requests[0]|
    requires Diverged(o.sent, Flatten(o.completed + o.requests))
    ensures Diverged(WriteSome(o, n).sent, Flatten(WriteSome(o, n).completed + WriteSome(o, n).requests))
  {
    var all := Flatten(o.completed + o.requests);
    WriteSends(o, n);
    WriteCounts(o, n);
    DivergedGrows(o.sent, all, WriteSome(o, n).sent, all);
  }

  lemma WroteKeepsWire(w: Wire, o: Outgoing, n: nat)
    requires WireHolds(w, o) && CreditInvariant(o) && CanWrite(o) && n <= |o.requests[0]|
    ensures WireHolds(if n < |o.requests[0]| then w.(partial := w.partial + o.requests[0][..n]) else Wire(w.wasted + |w.partial|, []),
                      WriteSome(o, n))
  {
    if w.wasted > 0 {
      WriteKeepsDiverged(o, n);
      assert forall i :: 0 <= i < n && i < |o.requests[0]| - 1 ==> o.requests[0][i] == o.requests[0][..|o.requests[0]| - 1][i];
    } else if n < |o.requests[0]| {
      ShortWriteKeepsWire(w, o, n);
    } else {
      FullWriteKeepsWire(w, o, n);
    }
  }

  lemma {:induction false} WireIs(events: seq<IoEvent>, decode: Decoder)
    requires Feasible(events, decode) && AllOneLine(Notified(events))
    ensures WireHolds(WireOf(events, decode), Run(events, decode).out)
  {
    if events == [] {
      assert Flatten<char>([]) + [] == [];
      assert ATTACH[..6] == "attach";
    } else {
      var n := |events| - 1;
      var s, w := Run(events[..n], decode), WireOf(events[..n], decode);
      assert Notified(events) == Notified(events[..n]) + NewCommands(events[n]);
      assert AllOneLine(Notified(events[..n])) by {
        forall i | 0 <= i < |Notified(events[..n])| ensures OneLineCommand(Notified(events[..n])[i]) {
          assert Notified(events)[i] == Notified(events[..n])[i];
        }
      }
      WireIs(events[..n], decode);
      NextKeepsInvariant(s, events[n], decode);
      match events[n]
      case Notify(commands) => NotifyKeepsWire(w, s.out, commands, Notified(events[..n]), Notified(events));
      case Read(chunk) => HandleLinesOutgoing(s, Lines(s.inp.buffer + chunk), decode);
      case Wrote(k) => WroteKeepsWire(w, s.out, k);
      case _ =>
    }
  }

  lemma NotifyKeepsWire(w: Wire, o: Outgoing, commands: seq<string>, before: seq<string>, all: seq<string>)
    requires WireHolds(w, o) && all == before + commands && AllOneLine(all)
    ensures WireHolds(w, EnqueueAll(o, commands))
  {
    EnqueueAllOutgoing(o, commands);
    forall i | 0 <= i < |commands| ensures OneLineCommand(commands[i]) {
      assert all[|before| + i] == commands[i];
    }
    if w.wasted > 0 {
      Associate(o.completed, o.requests, commands);
      FlattenConcat(o.completed + o.requests, commands);
      DivergedGrows(o.sent, Flatten(o.completed + o.requests), o.sent, Flatten(o.completed + (o.requests + commands)));
    }
  }

  /** At every moment the bytes sent are the beginning of the commands, in order, if and only if
      no command completed behind bytes of a short write, and the attempts at the first command
      of the queue spell its beginning. */
  lemma SentIsPrefixExactly(events: seq<IoEvent>, decode: Decoder)
    requires Feasible(events, decode) && AllOneLine(Notified(events))
    ensures var o, w := Run(events, decode).out, WireOf(events, decode);
            o.sent <= Flatten([ATTACH] + Notified(events)) <==> w.wasted == 0 && w.partial <= Flatten(o.requests)
  {
    var o, w := Run(events, decode).out, WireOf(events, decode);
    WireIs(events, decode);
    CompletedInOrder(events, decode);
    FlattenConcat(o.completed, o.requests);
    if w.wasted == 0 {
      var done := Flatten(o.completed);
      if o.sent <= done + Flatten(o.requests) {
        assert w.partial == o.sent[|done|..];
        assert (done + Flatten(o.requests))[|done|..] == Flatten(o.requests);
      }
    }
  }

  lemma {:induction false} ShortBytesAre(events: seq<IoEvent>, decode: Decoder)
    requires Feasible(events, decode)
    ensures ShortBytes(events, decode) == WireOf(events, decode).wasted + |WireOf(events, decode).partial|
  {
    if events != [] {
      var n := |events| - 1;
      ShortBytesAre(events[..n], decode);
      NextKeepsInvariant(Run(events[..n], decode), events[n], decode);
    }
  }

  /** Whenever a command completes, the bytes sent are the beginning of the commands if and only
      if no write before was short. */
  lemma SentWhenCompleted(events: seq<IoEvent>, n: nat, decode: Decoder)
    requires Feasible(events + [Wrote(n)], decode) && AllOneLine(Notified(events + [Wrote(n)]))
    requires Feasible(events, decode) && Run(events, decode).out.requests != [] && n == |Run(events, decode).out.requests[0]|
    ensures Run(events + [Wrote(n)], decode).out.sent <= Flatten([ATTACH] + Notified(events + [Wrote(n)])) <==>
            ShortBytes(events, decode) == 0
  {
    assert (events + [Wrote(n)])[..|events|] == events;
    ShortBytesAre(events, decode);
    SentIsPrefixExactly(events + [Wrote(n)], decode);
  }

  // -- credits of a stream ----------------------------------------------------------------------------

  /** Command lines as scamper writes them, and DATA blocks of lines that can be decoded. */
  predicate PlainItem(item: Item, decode: Decoder) {
    match item
    case CommandLine(line) => '\n' !in line && (line == "MORE" || "OK" <= line || "ERR" <= line)
    case DataBlock(lines) =>
      Size(lines) <= Decimal.ULONG_MAX && forall i :: 0 <= i < |lines| ==> '\n' !in lines[i] && decode(lines[i]).Some?
  }

  predicate PlainItems(items: seq<Item>, decode: Decoder) {
    forall i :: 0 <= i < |items| ==> PlainItem(items[i], decode)
  }

  /** How often scamper asks for more. */
  function Asked(items: seq<Item>): nat {
    if items == [] then 0 else Asked(items[..|items| - 1]) + if items[|items| - 1] == CommandLine("MORE") then 1 else 0
  }

  lemma PlainItemIsOk(item: Item, decode: Decoder)
    requires PlainItem(item, decode)
    ensures ItemOk(item)
  {
    if item.CommandLine? {
      assert item.line[0] == 'M' || item.line[0] == 'O' || item.line[0] == 'E';
    } else {
      forall l | l in item.lines ensures '\n' !in l {
        var i :| 0 <= i < |item.lines| && item.lines[i] == l;
      }
    }
  }

  lemma {:induction false} DataAsksNothing(handled: seq<Handled>, lines: seq<string>)
    ensures Mores(handled + AllData(lines)) == Mores(handled)
  {
    if lines == [] {
      assert handled + AllData(lines) == handled;
    } else {
      var n := |lines| - 1;
      DataAsksNothing(handled, lines[..n]);
      Associate(handled, AllData(lines[..n]), [AsData(lines[n])]);
      MoresSnoc(handled + AllData(lines[..n]), AsData(lines[n]));
    }
  }

  lemma ItemAsks(handled: seq<Handled>, item: Item, decode: Decoder)
    requires PlainItem(item, decode)
    ensures Mores(handled + ItemHandled(item)) == Mores(handled) + if item == CommandLine("MORE") then 1 else 0
  {
    match item
    case CommandLine(line) =>
      MoresSnoc(handled, AsCommand(line));
      assert line != "MORE" ==> line[0] == 'O' || line[0] == 'E';
    case DataBlock(lines) =>
      HeaderParses(Size(lines));
      MoresSnoc(handled, AsCommand(DataHeader(Size(lines))));
      DataAsksNothing(handled + [AsCommand(DataHeader(Size(lines)))], lines);
      Associate(handled, [AsCommand(DataHeader(Size(lines)))], AllData(lines));
  }

  lemma {:induction false} ItemsAsk(items: seq<Item>, decode: Decoder)
    requires PlainItems(items, decode)
    ensures Mores(AllHandled(items)) == Asked(items)
  {
    if items != [] {
      var n := |items| - 1;
      ItemsAsk(items[..n], decode);
      ItemAsks(AllHandled(items[..n]), items[n], decode);
    }
  }

  lemma PlainItemsAreOk(items: seq<Item>, decode: Decoder)
    requires PlainItems(items, decode)
    ensures (forall i :: i in items ==> ItemOk(i)) && AllDecodable(items, decode)
  {
    forall i | i in items ensures ItemOk(i) && PlainItem(i, decode) {
      var j :| 0 <= j < |items| && items[j] == i;
      PlainItemIsOk(i, decode);
    }
    forall i, l | i in items && i.DataBlock? && l in i.lines ensures decode(l).Some? {
      var h :| 0 <= h < |i.lines| && i.lines[h] == l;
    }
  }

  /** Whenever the stream so far is made of such items, however it was cut into reads: commands
      completed and credits left are one and the lines "MORE" in it. */
  lemma CreditsAreMores(items: seq<Item>, events: seq<IoEvent>, decode: Decoder)
    requires PlainItems(items, decode) && Feasible(events, decode) && Received(events) == Render(items)
    ensures var o := Run(events, decode).out;
            |o.completed| + o.more == 1 + Asked(items)
  {
    ItemsAsk(items, decode);
    PlainItemsAreOk(items, decode);
    ParserInvertsRenderer(items, events, decode);
    CreditsAddUp(events, decode);
  }

  // -- failing runs ------------------------------------------------------------------------------------

  lemma OneEvent(e: IoEvent, decode: Decoder)
    requires Possible(INITIAL, e)
    ensures Feasible([e], decode)
    ensures e.Wrote? || e.WriteFailed? ==> CanWrite(INITIAL.out)
    ensures Run([e], decode) == Next(INITIAL, e, decode)
  {
    assert [e][..0] == [];
    assert Feasible([e][..0], decode) && Run([e][..0], decode) == INITIAL;
  }

  /** The attach command, taken in two writes, goes out with its beginning doubled. */
  lemma ShortWriteRepeats(decode: Decoder)
    ensures Feasible([Wrote(3)], decode) && Run([Wrote(3)], decode).out.sent == "att"
    ensures Feasible([Wrote(3), Wrote(7)], decode) && ShortBytes([Wrote(3), Wrote(7)], decode) == 3
    ensures var o := Run([Wrote(3), Wrote(7)], decode).out;
            o.completed == ["attach\n"] && o.sent == "attattach\n" && !(o.sent <= Flatten(o.completed + o.requests))
  {
    var one, two := [Wrote(3)], [Wrote(3), Wrote(7)];
    assert two[..1] == one && one[..0] == [];
    OneEvent(Wrote(3), decode);
    var o := Run(one, decode).out;
    assert o == INITIAL.out.(sent := "att");
    var p := Run(two, decode).out;
    assert p == StopIfDrained(PopCommand(o.(sent := "att" + "attach\n")));
    assert p.completed == [] + [ATTACH];
    FlattenSnoc([], ATTACH);
    assert p.completed + p.requests == [] + [ATTACH];
    assert p.sent[3] == 'a' && ATTACH[3] == 'a' && p.sent[4] == 't' && ATTACH[4] == 'c';
  }

  const BLOCK := DataBlock(["ab"])

  const BLOCK_LINES := [DataHeader(3), "ab"]

  lemma BlockIs(decode: Decoder)
    requires decode("ab").None?
    ensures Size(["ab"]) == 3 && BadSize(["ab"], decode) == 3 && AllData(["ab"]) == [AsData("ab")]
    ensures ItemLines(BLOCK) == BLOCK_LINES && DataHeader(3) == "DATA 3"
    ensures ItemHandled(BLOCK) == [AsCommand("DATA 3"), AsData("ab")]
  {
    assert ["ab"][..0] == [];
    assert AllData([]) == [] && AllData(["ab"]) == [] + [AsData("ab")];
    assert Decimal.ToString(3) == "3";
  }

  /** A block of one line that cannot be decoded, and a MORE. */
  const BAD_STREAM := "DATA 3\nab\nMORE\n"

  lemma BadStreamLines()
    ensures Lines(BAD_STREAM) == BLOCK_LINES + ["MORE"] && Tail(BAD_STREAM) == []
  {
    var lines := BLOCK_LINES + ["MORE"];
    HeaderIs(3, "3");
    assert lines[0] == "DATA 3" && lines[1] == "ab" && lines[2] == "MORE";
    assert lines[1..][1..] == ["MORE"] && ["MORE"][1..] == [];
    assert Join(["MORE"], []) == "MORE" + ['\n'] + [] == "MORE\n";
    assert lines[1..][0] == "ab" && Join(lines[1..], []) == "ab" + ['\n'] + "MORE\n" == "ab\nMORE\n";
    assert Join(lines, []) == "DATA 3" + ['\n'] + "ab\nMORE\n" == BAD_STREAM;
    SplitIsUnique(lines, []);
  }

  lemma HeaderIs(n: nat, digits: string)
    requires n < 10 && digits == [Decimal.DigitChar(n)]
    ensures DataHeader(n) == "DATA " + digits
  {
  }

  /** The bytes still expected when the MORE has been taken for data. */
  function StillExpected(decode: Decoder): nat {
    if decode("MORE").None? then 3 else SIZE_MODULUS - 2
  }

  lemma BadStreamTracks(decode: Decoder)
    requires decode("ab").None?
    ensures TrackLines(START, BLOCK_LINES + ["MORE"], decode) ==
            Incoming([], StillExpected(decode), [AsCommand("DATA 3"), AsData("ab"), AsData("MORE")])
  {
    BlockIs(decode);
    BlockParses(START, ["ab"], decode);
    var i := START.(handled := [] + ItemHandled(BLOCK), expected := 3);
    OneLine(i, "MORE", decode);
    assert (3 - 5) % SIZE_MODULUS == SIZE_MODULUS - 2;
    TrackLinesConcat(START, BLOCK_LINES, ["MORE"], decode);
  }

  lemma NoMores()
    ensures Mores([AsCommand("DATA 3"), AsData("ab"), AsData("MORE")]) == 0
  {
    var h := [AsCommand("DATA 3"), AsData("ab"), AsData("MORE")];
    assert h == [] + [h[0]] + [h[1]] + [h[2]];
    MoresSnoc([], h[0]);
    MoresSnoc([] + [h[0]], h[1]);
    MoresSnoc([] + [h[0]] + [h[1]], h[2]);
  }

  /** One line that cannot be decoded, and the MORE behind the block is taken for data: its credit
      is lost. */
  lemma UndecodableLineLosesCredit(decode: Decoder)
    requires decode("ab").None?
    ensures Feasible([Read(BAD_STREAM)], decode)
    ensures var s := Run([Read(BAD_STREAM)], decode);
            s.inp == Incoming([], StillExpected(decode), [AsCommand("DATA 3"), AsData("ab"), AsData("MORE")]) &&
            |s.out.completed| + s.out.more == 1
  {
    var e := Read(BAD_STREAM);
    BadStreamLines();
    BadStreamTracks(decode);
    OneEvent(e, decode);
    ChunksDoNotMatter([e], decode);
    OneRead(BAD_STREAM);
    CreditsAddUp([e], decode);
    NoMores();
  }

  lemma OneRead(chunk: string)
    ensures Received([Read(chunk)]) == chunk
  {
    assert [Read(chunk)][..0] == [] && [] + chunk == chunk;
  }

  /** A block that announces less than its one line, which any decoder that accepts it lets wrap the
      byte counter. */
  const SHORT_STREAM := "DATA 1\nab\n"

  lemma ShortStreamLines()
    ensures Lines(SHORT_STREAM) == [DataHeader(1), "ab"] && Tail(SHORT_STREAM) == []
  {
    var lines := [DataHeader(1), "ab"];
    HeaderIs(1, "1");
    assert lines[1..] == ["ab"] && ["ab"][1..] == [];
    assert Join(["ab"], []) == "ab" + ['\n'] + [] == "ab\n";
    assert Join(lines, []) == "DATA 1" + ['\n'] + "ab\n" == SHORT_STREAM;
    SplitIsUnique(lines, []);
  }

  lemma ShortBlockTracks(header: string, decode: Decoder)
    requires decode("ab").Some? && IsData(header) && !IsMore(header) && DataLength(header) == 1
    ensures TrackLines(START, [header] + ["ab"], decode) == Incoming([], SIZE_MODULUS - 2, [AsCommand(header)] + [AsData("ab")])
  {
    var i := START.(expected := 1, handled := [] + [AsCommand(header)]);
    TrackLinesConcat(START, [header], ["ab"], decode);
    OneLine(START, header, decode);
    AnnouncementTracks(START, header, 1, decode);
    OneLine(i, "ab", decode);
    assert (1 - 3) % SIZE_MODULUS == SIZE_MODULUS - 2;
  }

  /** The counter is two short of 2^64, and as many bytes to come are taken for data. */
  lemma ShortBlockWrapsCounter(decode: Decoder)
    requires decode("ab").Some?
    ensures Feasible([Read(SHORT_STREAM)], decode)
    ensures Run([Read(SHORT_STREAM)], decode).inp ==
            Incoming([], 0x1_0000_0000_0000_0000 - 2, [AsCommand(DataHeader(1))] + [AsData("ab")])
  {
    var e := Read(SHORT_STREAM);
    ShortStreamLines();
    OneEvent(e, decode);
    ChunksDoNotMatter([e], decode);
    OneRead(SHORT_STREAM);
    HeaderParses(1);
    assert [DataHeader(1), "ab"] == [DataHeader(1)] + ["ab"];
    ShortBlockTracks(DataHeader(1), decode);
  }

  const LONG_LINE := seq(512, _ => 'x')

  /** A line of 512 bytes, and nothing is ever read again. */
  lemma LongLineStalls(more: seq<IoEvent>, decode: Decoder)
    ensures Feasible([Read(LONG_LINE)], decode)
    ensures Feasible([Read(LONG_LINE)] + more, decode) ==> Received([Read(LONG_LINE)] + more) == LONG_LINE
  {
    var e := Read(LONG_LINE);
    OneEvent(e, decode);
    OneRead(LONG_LINE);
    ChunksDoNotMatter([e], decode);
    TailIsOneLine(LONG_LINE);
    if Feasible([e] + more, decode) {
      FullBufferStalls([e], more, decode);
    }
  }
}
