/** Delimited text: fields joined by a separator, and rows read as dictionaries. */
module Csv {
  import opened Collections

  type Text = seq<string>

  /** Fields with a separator between them. */
  function Delimited(fields: Text, c: char): string {
    if fields == [] then []
    else if |fields| == 1 then fields[0]
    else fields[0] + [c] + Delimited(fields[1..], c)
  }

  /** `str.split` with a one character separator. */
  function Split(s: string, c: char): (fields: Text)
    ensures fields != []
  {
    if s == [] then [[]]
    else
      var rest := Split(s[1..], c);
      if s[0] == c then [[]] + rest else [[s[0]] + rest[0]] + rest[1..]
  }

  lemma {:induction false} SplitField(field: string, rest: string, c: char)
    requires c !in field
    ensures Split(field, c) == [field]
    ensures Split(field + [c] + rest, c) == [field] + Split(rest, c)
  {
    var s := field + [c] + rest;
    if field == [] {
      assert s[1..] == rest;
    } else {
      assert s[1..] == field[1..] + [c] + rest;
      SplitField(field[1..], rest, c);
      assert [field[0]] + field[1..] == field;
      assert [field] + Split(rest, c) == [[field[0]] + field[1..]] + Split(rest, c);
    }
  }

  /** Splitting undoes joining, as long as no field holds the separator. */
  lemma {:induction false} SplitJoin(fields: Text, c: char)
    requires fields != [] && forall i :: 0 <= i < |fields| ==> c !in fields[i]
    ensures Split(Delimited(fields, c), c) == fields
  {
    if |fields| == 1 {
      SplitField(fields[0], [], c);
      assert fields == [fields[0]];
    } else {
      SplitField(fields[0], Delimited(fields[1..], c), c);
      SplitJoin(fields[1..], c);
      assert fields == [fields[0]] + fields[1..];
    }
  }

  // -- rows -------------------------------------------------------------------------------------

  type Row = map<string, string>

  /** `{k: v for k, v in zip(header, parts)}` */
  function Zip(header: Text, parts: Text): Row {
    if header == [] || parts == [] then map[]
    else
      var m := if |header| <= |parts| then |header| else |parts|;
      Zip(header[..m - 1], parts[..m - 1])[header[m - 1] := parts[m - 1]]
  }

  lemma {:induction false} ZipAt(header: Text, parts: Text, i: nat)
    requires NoDuplicates(header) && i < |header| == |parts|
    ensures header[i] in Zip(header, parts) && Zip(header, parts)[header[i]] == parts[i]
  {
    var n := |header| - 1;
    if i < n {
      ZipAt(header[..n], parts[..n], i);
    }
  }

  predicate IsSpace(c: char) {
    c == ' ' || 9 <= c as int <= 13 || 28 <= c as int <= 31 || c as int == 0x85 || c as int == 0xa0
  }

  /** `str.rstrip` */
  function RStrip(s: string): string {
    if s != [] && IsSpace(s[|s| - 1]) then RStrip(s[..|s| - 1]) else s
  }

  lemma RStripLine(line: string)
    requires line == [] || !IsSpace(line[|line| - 1])
    ensures RStrip(line + ['\n']) == line
  {
    assert (line + ['\n'])[..|line|] == line;
  }
}
