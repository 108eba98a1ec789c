/** Splitting a growing stream of characters into lines. */
module Framing {

  /** The complete lines of `s`, without their newlines. */
  function Lines(s: string): seq<string> {
    if s == [] then []
    else if s[|s| - 1] == '\n' then Lines(s[..|s| - 1]) + [Tail(s[..|s| - 1])]
    else Lines(s[..|s| - 1])
  }

  /** What follows the last newline of `s`. */
  function Tail(s: string): (t: string)
    ensures '\n' !in t && |t| <= |s|
  {
    if s == [] || s[|s| - 1] == '\n' then [] else Tail(s[..|s| - 1]) + [s[|s| - 1]]
  }

  lemma LinesSnoc(s: string, c: char)
    ensures Lines(s + [c]) == if c == '\n' then Lines(s) + [Tail(s)] else Lines(s)
    ensures Tail(s + [c]) == if c == '\n' then [] else Tail(s) + [c]
  {
    assert (s + [c])[..|s|] == s;
  }

  /** Splitting may stop anywhere and go on with the unfinished tail. */
  lemma {:induction false} LinesConcat(s: string, t: string)
    ensures Lines(s + t) == Lines(s) + Lines(Tail(s) + t)
    ensures Tail(s + t) == Tail(Tail(s) + t)
  {
    if t == [] {
      assert s + t == s && Tail(s) + t == Tail(s);
      TailIsOneLine(Tail(s));
    } else {
      var u, c := t[..|t| - 1], t[|t| - 1];
      assert s + t == (s + u) + [c];
      assert Tail(s) + t == (Tail(s) + u) + [c];
      LinesConcat(s, u);
      LinesSnoc(s + u, c);
      LinesSnoc(Tail(s) + u, c);
    }
  }

  lemma {:induction false} TailIsOneLine(t: string)
    requires '\n' !in t
    ensures Lines(t) == [] && Tail(t) == t
  {
    if t != [] {
      assert t[|t| - 1] in t;
      TailIsOneLine(t[..|t| - 1]);
    }
  }

  /** The reference definition of splitting: the lines and the tail are the only way to
      write `s` as newline-free pieces joined by newlines. */
  function Join(lines: seq<string>, tail: string): string {
    if lines == [] then tail else lines[0] + ['\n'] + Join(lines[1..], tail)
  }

  lemma {:induction false} JoinSnoc(lines: seq<string>, line: string, tail: string)
    ensures Join(lines + [line], tail) == Join(lines, line + ['\n'] + tail)
  {
    if lines == [] {
      assert [line][1..] == [];
    } else {
      assert (lines + [line])[1..] == lines[1..] + [line];
      JoinSnoc(lines[1..], line, tail);
    }
  }

  lemma {:induction false} JoinTail(lines: seq<string>, tail: string, c: char)
    ensures Join(lines, tail) + [c] == Join(lines, tail + [c])
  {
    if lines != [] {
      JoinTail(lines[1..], tail, c);
    }
  }

  lemma {:induction false} LinesJoin(s: string)
    ensures Join(Lines(s), Tail(s)) == s
  {
    if s != [] {
      var u, c := s[..|s| - 1], s[|s| - 1];
      assert s == u + [c];
      LinesJoin(u);
      JoinTail(Lines(u), Tail(u), c);
      if c == '\n' {
        JoinSnoc(Lines(u), Tail(u), []);
        assert Tail(u) + ['\n'] + [] == Tail(u) + ['\n'];
      }
    }
  }

  lemma FirstLine(line: string, rest: string)
    requires '\n' !in line
    ensures Lines(line + ['\n'] + rest) == [line] + Lines(rest) && Tail(line + ['\n'] + rest) == Tail(rest)
  {
    TailIsOneLine(line);
    LinesSnoc(line, '\n');
    LinesConcat(line + ['\n'], rest);
    assert [] + rest == rest;
  }

  lemma {:induction false} SplitIsUnique(lines: seq<string>, tail: string)
    requires '\n' !in tail && forall l :: l in lines ==> '\n' !in l
    ensures Lines(Join(lines, tail)) == lines && Tail(Join(lines, tail)) == tail
  {
    if lines == [] {
      TailIsOneLine(tail);
    } else {
      SplitIsUnique(lines[1..], tail);
      FirstLine(lines[0], Join(lines[1..], tail));
      assert lines == [lines[0]] + lines[1..];
    }
  }

  lemma UpTo(data: string, from: nat, to: nat)
    requires from <= to <= |data| && '\n' !in data[from..to] && Tail(data[..from]) == []
    ensures Lines(data[..to]) == Lines(data[..from]) && Tail(data[..to]) == data[from..to]
  {
    assert data[..to] == data[..from] + data[from..to];
    assert [] + data[from..to] == data[from..to];
    LinesConcat(data[..from], data[from..to]);
    TailIsOneLine(data[from..to]);
  }

  /** A line found between two newlines of the data extends the lines handled so far. */
  lemma NextLine(data: string, from: nat, to: nat)
    requires from <= to < |data| && data[to] == '\n' && '\n' !in data[from..to] && Tail(data[..from]) == []
    ensures Lines(data[..to + 1]) == Lines(data[..from]) + [data[from..to]] && Tail(data[..to + 1]) == []
  {
    UpTo(data, from, to);
    assert data[..to + 1] == data[..to] + ['\n'];
    LinesSnoc(data[..to], '\n');
  }

  lemma LastPiece(data: string, from: nat)
    requires from <= |data| && '\n' !in data[from..] && Tail(data[..from]) == []
    ensures Lines(data) == Lines(data[..from]) && Tail(data) == data[from..]
  {
    UpTo(data, from, |data|);
    assert data[..|data|] == data && data[from..|data|] == data[from..];
  }

  /** Text without a newline only extends the unfinished line. */
  lemma TailExtends(s: string, body: string)
    requires '\n' !in body
    ensures Lines(s + body) == Lines(s) && Tail(s + body) == Tail(s) + body
  {
    LinesConcat(s, body);
    TailIsOneLine(Tail(s) + body);
  }
}
