/** `CSVFile`: a log that may still be written is read piece by piece. */
module LogReading {
  import opened Collections
  import opened Csv
  import opened Framing

  /** `from_csv`: an entry; a TypeError or KeyError, which skips the row; or another exception. */
  datatype Outcome<+T> = Ok(value: T) | Skipped | Raised {
    predicate IsFailure() { !Ok? }

    function PropagateFailure<U>(): Outcome<U>
      requires IsFailure()
    {
      if Skipped? then Skipped else Raised
    }

    function Extract(): T
      requires Ok?
    {
      value
    }
  }

  // -- what a log says -----------------------------------------------------------------------

  const DELIMITER := '|'

  function Fields(line: string): Text {
    Split(RStrip(line + ['\n']), DELIMITER)
  }

  function HeaderOf(lines: seq<string>): Text {
    if lines == [] then [] else Fields(lines[0])
  }

  /** One dictionary for each line below the header. */
  function RowsOf(lines: seq<string>): seq<Row> {
    if |lines| <= 1 then []
    else RowsOf(lines[..|lines| - 1]) + [Zip(HeaderOf(lines), Fields(lines[|lines| - 1]))]
  }

  /** The entries of the rows that can be parsed. */
  function ItemsOf<T>(rows: seq<Row>, parse: Row -> Outcome<T>): seq<T> {
    if rows == [] then []
    else
      var last := parse(rows[|rows| - 1]);
      ItemsOf(rows[..|rows| - 1], parse) + if last.Ok? then [last.value] else []
  }

  predicate NoneRaises<T>(rows: seq<Row>, parse: Row -> Outcome<T>) {
    forall i :: 0 <= i < |rows| ==> !parse(rows[i]).Raised?
  }

  lemma RowsSnoc(lines: seq<string>, line: string)
    ensures HeaderOf(lines + [line]) == if lines == [] then Fields(line) else HeaderOf(lines)
    ensures RowsOf(lines + [line]) == if lines == [] then [] else RowsOf(lines) + [Zip(HeaderOf(lines), Fields(line))]
  {
    assert (lines + [line])[..|lines|] == lines;
  }

  lemma {:induction false} ItemsConcat<T>(s: seq<Row>, t: seq<Row>, parse: Row -> Outcome<T>)
    ensures ItemsOf(s + t, parse) == ItemsOf(s, parse) + ItemsOf(t, parse)
  {
    if t == [] {
      assert s + t == s;
    } else {
      assert (s + t)[..|s + t| - 1] == s + t[..|t| - 1];
      ItemsConcat(s, t[..|t| - 1], parse);
    }
  }

  /** The items of one call after those of the calls before. */
  lemma RowsJoin<T>(s: seq<Row>, t: seq<Row>, parse: Row -> Outcome<T>)
    ensures NoneRaises(s + t, parse) <==> NoneRaises(s, parse) && NoneRaises(t, parse)
    ensures ItemsOf(s + t, parse) == ItemsOf(s, parse) + ItemsOf(t, parse)
  {
    ItemsConcat(s, t, parse);
    assert forall i :: 0 <= i < |s| ==> (s + t)[i] == s[i];
    assert forall i :: 0 <= i < |t| ==> (s + t)[|s| + i] == t[i];
  }

  /** `returned` holds the items of `rows`, unless one of them raised. */
  ghost predicate ReturnsAll<T>(returned: seq<T>, rows: seq<Row>, parse: Row -> Outcome<T>) {
    NoneRaises(rows, parse) ==> returned == ItemsOf(rows, parse)
  }

  lemma CallJoins<T>(returned: seq<T>, s: seq<Row>, items: seq<T>, t: seq<Row>, raised: bool, parse: Row -> Outcome<T>)
    requires ReturnsAll(returned, s, parse) && (raised <==> !NoneRaises(t, parse)) && (!raised ==> items == ItemsOf(t, parse))
    ensures ReturnsAll(returned + if raised then [] else items, s + t, parse)
  {
    RowsJoin(s, t, parse);
  }

  lemma PieceJoins(s: string, t: string, p: nat, piece: string)
    requires p + |piece| <= |t| && piece == t[p..p + |piece|]
    ensures s + t[..p + |piece|] == s + t[..p] + piece
  {
    assert t[..p + |piece|] == t[..p] + piece;
    Associate(s, t[..p], piece);
  }

  class CsvFile<T> {
    const parse: Row -> Outcome<T>
    var header: Text
    var buffer: string
    var foundHeader: bool
    var linesRead: nat
    var lastReadGotData: bool
    /** Everything read from the file so far, all dictionaries made of it, and the items that calls
        returned, one call after the other. */
    ghost var received: string
    ghost var delivered: seq<Row>
    ghost var returned: seq<T>

    /** Where a reader is that has read `s`. */
    ghost predicate ReadUpTo(s: string)
      reads `header, `buffer, `foundHeader, `delivered
    {
      (foundHeader <==> Lines(s) != []) && header == HeaderOf(Lines(s)) && delivered == RowsOf(Lines(s)) && buffer == Tail(s)
    }

    ghost predicate Valid()
      reads this
    {
      ReadUpTo(received) && ReturnsAll(returned, delivered, parse)
    }

    constructor (parse: Row -> Outcome<T>)
      ensures Valid() && received == [] && returned == [] && this.parse == parse
    {
      this.parse := parse;
      header, buffer, foundHeader, linesRead, lastReadGotData := [], [], false, 0, true;
      received, delivered, returned := [], [], [];
    }

    /** `readline`: up to the next newline, or to the end of what there is. */
    method ReadLine(available: string, p: nat) returns (line: string)
      requires p < |available|
      ensures line != [] && p + |line| <= |available| && line == available[p..p + |line|]
      ensures '\n' !in line[..|line| - 1] && (line[|line| - 1] != '\n' ==> p + |line| == |available|)
    {
      var q := p;
      while q < |available| && available[q] != '\n'
        invariant p <= q <= |available| && '\n' !in available[p..q]
      {
        q := q + 1;
      }
      if q < |available| {
        line := available[p..q + 1];
        assert line[..|line| - 1] == available[p..q];
      } else {
        line := available[p..q];
        assert line[..|line| - 1] == available[p..q - 1] <= available[p..q];
      }
    }

    /** A line is complete: it is the header, or a row. */
    method TakeLine(ghost s: string, ghost line: string) returns (rows: seq<Row>)
      requires (foundHeader <==> Lines(s) != []) && header == HeaderOf(Lines(s)) && delivered == RowsOf(Lines(s))
      requires buffer == line + ['\n'] && line == Tail(s)
      modifies `header, `buffer, `foundHeader, `delivered
      ensures ReadUpTo(s + ['\n']) && delivered == old(delivered) + rows
    {
      LinesSnoc(s, '\n');
      RowsSnoc(Lines(s), line);
      rows := [];
      var sanitized := RStrip(buffer);
      if foundHeader {
        var parts := Split(sanitized, DELIMITER);
        rows := [Zip(header, parts)];
        delivered := delivered + rows;
      } else {
        header := Split(sanitized, DELIMITER);
        foundHeader := true;
        assert delivered + rows == delivered;
      }
      buffer := [];
    }

    /** Appends a piece to the buffer, and handles the line if that completes it. */
    method TakePiece(piece: string, ghost s: string) returns (rows: seq<Row>, complete: bool)
      requires piece != [] && '\n' !in piece[..|piece| - 1] && ReadUpTo(s)
      modifies `header, `buffer, `foundHeader, `delivered
      ensures ReadUpTo(s + piece) && delivered == old(delivered) + rows
      ensures complete == (piece[|piece| - 1] == '\n')
    {
      buffer := buffer + piece;
      complete := buffer[|buffer| - 1] == '\n';
      if complete {
        ghost var body := piece[..|piece| - 1];
        assert piece == body + ['\n'];
        TailExtends(s, body);
        Associate(s, body, ['\n']);
        Associate(Tail(s), body, ['\n']);
        rows := TakeLine(s + body, Tail(s) + body);
      } else {
        assert piece == piece[..|piece| - 1] + [piece[|piece| - 1]];
        TailExtends(s, piece);
        rows := [];
      }
    }

    /** The first loop of `consume`; `available` is what the file has grown by. */
    method ReadRows(available: string) returns (lineCache: seq<Row>)
      requires ReadUpTo(received)
      modifies `header, `buffer, `foundHeader, `delivered, `received
      ensures ReadUpTo(received) && received == old(received) + available && delivered == old(delivered) + lineCache
    {
      lineCache := [];
      var p: nat, complete := 0, true;
      assert received + available[..0] == received;
      while p < |available| && complete
        invariant p <= |available| && (!complete ==> p == |available|)
        invariant ReadUpTo(received + available[..p]) && received == old(received)
        invariant delivered == old(delivered) + lineCache
        decreases |available| - p
      {
        var piece := ReadLine(available, p);
        PieceJoins(received, available, p, piece);
        var rows;
        rows, complete := TakePiece(piece, received + available[..p]);
        Associate(old(delivered), lineCache, rows);
        lineCache, p := lineCache + rows, p + |piece|;
      }
      assert available[..|available|] == available;
      received := received + available;
    }

    /** The second loop of `consume`: parses the rows; an unexpected exception ends it. */
    method ParseRows(rows: seq<Row>) returns (items: seq<T>, raised: bool)
      modifies `linesRead
      ensures raised <==> !NoneRaises(rows, parse)
      ensures !raised ==> items == ItemsOf(rows, parse) && linesRead == old(linesRead) + |items|
    {
      items, raised := [], false;
      for i := 0 to |rows|
        invariant NoneRaises(rows[..i], parse) && items == ItemsOf(rows[..i], parse)
        invariant linesRead == old(linesRead) + |items|
      {
        assert rows[..i + 1][..i] == rows[..i];
        match parse(rows[i])
        case Ok(entry) =>
          items := items + [entry];
          linesRead := linesRead + 1;
        case Skipped =>
        case Raised =>
          assert parse(rows[i]).Raised?;
          return items, true;
      }
      assert rows[..|rows|] == rows;
    }

    /** `consume` */
    method Consume(available: string) returns (items: seq<T>, raised: bool, ghost rows: seq<Row>)
      requires Valid()
      modifies this
      ensures Valid() && received == old(received) + available && delivered == old(delivered) + rows
      ensures raised <==> !NoneRaises(rows, parse)
      ensures !raised ==> items == ItemsOf(rows, parse) && lastReadGotData == (items != [])
      ensures returned == old(returned) + if raised then [] else items
    {
      var lineCache := ReadRows(available);
      rows := lineCache;
      items, raised := ParseRows(lineCache);
      CallJoins(returned, old(delivered), items, rows, raised, parse);
      returned := returned + if raised then [] else items;
      if !raised {
        lastReadGotData := |items| > 0;
      }
    }
  }
}
