/** csvExport.ts: cell and toCsv. */
module Csv {
  // packages/force-plotting/src/csvExport.ts against a strict reader of section 2 of RFC 4180: what is written
  // is read back, cell by cell.

  import opened Wrappers

  // ---- the writer ----

  // A cell value: nothing (null, undefined), a number that is not finite, or anything else as its text.
  datatype Cell = Nothing | NotFinite | Printed(s: string)

  // String(v), empty for what exports as an empty cell
  function Text(c: Cell): string {
    if c.Printed? then c.s else ""
  }

  predicate Special(c: char) {
    c == '"' || c == ',' || c == '\r' || c == '\n'
  }

  predicate NeedsQuotes(s: string) {
    exists i :: 0 <= i < |s| && Special(s[i])
  }

  // s.replace(/"/g, '""')
  function Doubled(s: string): string {
    if s == "" then "" else (if s[0] == '"' then "\"\"" else [s[0]]) + Doubled(s[1..])
  }

  function CellText(c: Cell): string {
    var s := Text(c);
    if NeedsQuotes(s) then "\"" + Doubled(s) + "\"" else s
  }

  // Quotes enclose a cell if and only if it needs them.
  lemma QuotedWhenNeeded(c: Cell)
    ensures (exists i :: 0 <= i < |Text(c)| && Text(c)[i] in {'"', ',', '\r', '\n'}) ==>
              |CellText(c)| >= 2 && CellText(c)[0] == '"' && CellText(c)[|CellText(c)| - 1] == '"'
    ensures (forall i :: 0 <= i < |Text(c)| ==> Text(c)[i] !in {'"', ',', '\r', '\n'}) ==> CellText(c) == Text(c)
  {
    if i :| 0 <= i < |Text(c)| && Text(c)[i] in {'"', ',', '\r', '\n'} {
      assert Special(Text(c)[i]);
    }
  }

  // .join(',')
  function Line(row: seq<Cell>): string {
    if row == [] then "" else if |row| == 1 then CellText(row[0]) else CellText(row[0]) + "," + Line(row[1..])
  }

  // lines.join('\r\n') + '\r\n'
  function Lines(rows: seq<seq<Cell>>): string {
    if rows == [] then "" else Line(rows[0]) + "\r\n" + Lines(rows[1..])
  }

  method ToCsv(header: seq<Cell>, rows: seq<seq<Cell>>) returns (text: string)
    ensures text == Lines([header] + rows)
  {
    var lines := [Line(header)];
    for i := 0 to |rows|
      invariant |lines| == i + 1 && lines[0] == Line(header) && forall k :: 0 <= k < i ==> lines[k + 1] == Line(rows[k])
    {
      lines := lines + [Line(rows[i])];
    }
    text := Join(lines) + "\r\n";
    JoinIsLines([header] + rows, lines);
  }

  function Join(lines: seq<string>): string
    requires lines != []
  {
    if |lines| == 1 then lines[0] else lines[0] + "\r\n" + Join(lines[1..])
  }

  lemma {:induction false} JoinIsLines(rows: seq<seq<Cell>>, lines: seq<string>)
    requires |rows| == |lines| > 0 && forall i :: 0 <= i < |rows| ==> lines[i] == Line(rows[i])
    ensures Join(lines) + "\r\n" == Lines(rows)
  {
    if |rows| == 1 {
      assert Lines(rows[1..]) == "";
    } else {
      JoinIsLines(rows[1..], lines[1..]);
      assert Join(lines) + "\r\n" == lines[0] + "\r\n" + (Join(lines[1..]) + "\r\n");
    }
  }

  // ---- a strict reader: RFC 4180, section 2, rules 1 to 7 ----

  // One escaped field after its opening quote: its text and what follows its closing quote.
  function ReadQuoted(s: string): Option<(string, string)> {
    if s == "" then None
    else if s[0] != '"' then
      match ReadQuoted(s[1..])
      case Some(r) => Some(([s[0]] + r.0, r.1))
      case None => None
    else if |s| > 1 && s[1] == '"' then
      match ReadQuoted(s[2..])
      case Some(r) => Some((['"'] + r.0, r.1))
      case None => None
    else Some(("", s[1..]))
  }

  // One unescaped field, up to a comma or a line break; a quote inside is an error.
  function ReadPlain(s: string): Option<(string, string)> {
    if s == "" || s[0] == ',' || s[0] == '\r' || s[0] == '\n' then Some(("", s))
    else if s[0] == '"' then None
    else
      match ReadPlain(s[1..])
      case Some(r) => Some(([s[0]] + r.0, r.1))
      case None => None
  }

  function ReadField(s: string): Option<(string, string)> {
    if s != "" && s[0] == '"' then ReadQuoted(s[1..]) else ReadPlain(s)
  }

  lemma {:induction false} QuotedShrinks(s: string)
    ensures ReadQuoted(s).Some? ==> |ReadQuoted(s).value.1| < |s|
  {
    if s != "" && s[0] != '"' {
      QuotedShrinks(s[1..]);
    } else if |s| > 1 && s[1] == '"' {
      QuotedShrinks(s[2..]);
    }
  }

  lemma {:induction false} PlainShrinks(s: string)
    ensures ReadPlain(s).Some? ==> |ReadPlain(s).value.1| <= |s|
  {
    if s != "" && !Special(s[0]) {
      PlainShrinks(s[1..]);
    }
  }

  lemma FieldShrinks(s: string)
    ensures ReadField(s).Some? ==> |ReadField(s).value.1| <= |s|
  {
    if s != "" && s[0] == '"' {
      QuotedShrinks(s[1..]);
    } else {
      PlainShrinks(s);
    }
  }

  // One record and the text after its CRLF.
  function ReadRecord(s: string): Option<(seq<string>, string)>
    decreases |s|
  {
    match ReadField(s)
    case None => None
    case Some(f) =>
      FieldShrinks(s);
      if |f.1| >= 2 && f.1[..2] == "\r\n" then Some(([f.0], f.1[2..]))
      else if f.1 != "" && f.1[0] == ',' then
        match ReadRecord(f.1[1..])
        case Some(r) => Some(([f.0] + r.0, r.1))
        case None => None
      else None
  }

  lemma {:induction false} RecordShrinks(s: string)
    ensures ReadRecord(s).Some? ==> |ReadRecord(s).value.1| < |s|
    decreases |s|
  {
    FieldShrinks(s);
    var f := ReadField(s);
    if f.Some? && f.value.1 != "" && f.value.1[0] == ',' {
      RecordShrinks(f.value.1[1..]);
    }
  }

  // All records of a file whose every line ends in CRLF.
  function ReadCsv(s: string): Option<seq<seq<string>>>
    decreases |s|
  {
    if s == "" then Some([])
    else
      match ReadRecord(s)
      case None => None
      case Some(r) =>
        RecordShrinks(s);
        match ReadCsv(r.1)
        case Some(more) => Some([r.0] + more)
        case None => None
  }

  // ---- the round trip ----

  // What may follow a field.
  predicate Ends(rest: string) {
    rest != "" && (rest[0] == ',' || rest[0] == '\r')
  }

  lemma {:induction false} QuotedReadsBack(s: string, rest: string)
    requires Ends(rest)
    ensures ReadQuoted(Doubled(s) + "\"" + rest) == Some((s, rest))
  {
    var t := Doubled(s) + "\"" + rest;
    if s == "" {
      assert t[1..] == rest && t[0] == '"' && t[1] == rest[0];
    } else {
      QuotedReadsBack(s[1..], rest);
      var tail := Doubled(s[1..]) + "\"" + rest;
      if s[0] == '"' {
        assert t[2..] == tail && t[0] == t[1] == '"';
      } else {
        assert t[1..] == tail && t[0] == s[0];
      }
      assert s == [s[0]] + s[1..];
    }
  }

  lemma {:induction false} PlainReadsBack(s: string, rest: string)
    requires Ends(rest) && !NeedsQuotes(s)
    ensures ReadPlain(s + rest) == Some((s, rest))
  {
    if s == "" {
      assert s + rest == rest;
    } else {
      assert !Special(s[0]);
      assert forall i :: 0 <= i < |s[1..]| ==> s[1..][i] == s[i + 1];
      assert (s + rest)[0] == s[0] && (s + rest)[1..] == s[1..] + rest;
      PlainReadsBack(s[1..], rest);
      assert s == [s[0]] + s[1..];
    }
  }

  lemma CellReadsBack(c: Cell, rest: string)
    requires Ends(rest)
    ensures ReadField(CellText(c) + rest) == Some((Text(c), rest))
  {
    var s := Text(c);
    if NeedsQuotes(s) {
      QuotedReadsBack(s, rest);
      QuotedIsRead(Doubled(s) + "\"", s, rest);
      assert CellText(c) + rest == "\"" + (Doubled(s) + "\"") + rest;
    } else {
      PlainReadsBack(s, rest);
      PlainIsRead(s, rest);
    }
  }

  lemma QuotedIsRead(body: string, s: string, rest: string)
    requires ReadQuoted(body + rest) == Some((s, rest))
    ensures ReadField("\"" + body + rest) == Some((s, rest))
  {
    assert ("\"" + body + rest)[1..] == body + rest;
  }

  lemma PlainIsRead(s: string, rest: string)
    requires Ends(rest) && !NeedsQuotes(s) && ReadPlain(s + rest) == Some((s, rest))
    ensures ReadField(s + rest) == Some((s, rest))
  {
    if s == "" {
      assert s + rest == rest;
    } else {
      assert !Special(s[0]) && (s + rest)[0] == s[0];
    }
  }

  function Texts(row: seq<Cell>): (t: seq<string>)
    ensures |t| == |row| && forall i :: 0 <= i < |row| ==> t[i] == Text(row[i])
  {
    seq(|row|, i requires 0 <= i < |row| => Text(row[i]))
  }

  lemma LastFieldReads(s: string, f: string, rest: string)
    requires ReadField(s) == Some((f, "\r\n" + rest))
    ensures ReadRecord(s) == Some(([f], rest))
  {
    assert ("\r\n" + rest)[..2] == "\r\n" && ("\r\n" + rest)[2..] == rest;
  }

  lemma MoreFieldsRead(s: string, f: string, tail: string, fs: seq<string>, rest: string)
    requires ReadField(s) == Some((f, "," + tail)) && ReadRecord(tail) == Some((fs, rest))
    ensures ReadRecord(s) == Some(([f] + fs, rest))
  {
    assert ("," + tail)[1..] == tail && ("," + tail)[0] == ',';
  }

  lemma LineSplits(row: seq<Cell>, end: string)
    requires |row| > 1
    ensures Line(row) + end == CellText(row[0]) + ("," + (Line(row[1..]) + end))
  {
  }

  lemma FirstCellReadsBack(c: Cell, tail: string, fs: seq<string>, rest: string)
    requires ReadRecord(tail) == Some((fs, rest))
    ensures ReadRecord(CellText(c) + ("," + tail)) == Some(([Text(c)] + fs, rest))
  {
    CellReadsBack(c, "," + tail);
    MoreFieldsRead(CellText(c) + ("," + tail), Text(c), tail, fs, rest);
  }

  lemma LastCellReadsBack(c: Cell, end: string, rest: string)
    requires end == "\r\n" + rest
    ensures ReadRecord(CellText(c) + end) == Some(([Text(c)], rest))
  {
    CellReadsBack(c, end);
    LastFieldReads(CellText(c) + end, Text(c), rest);
  }

  lemma TextsSplit(row: seq<Cell>)
    requires row != []
    ensures Texts(row) == [Text(row[0])] + Texts(row[1..])
  {
  }

  lemma {:induction false} LineReadsBack(row: seq<Cell>, end: string, rest: string)
    requires row != [] && end == "\r\n" + rest
    ensures ReadRecord(Line(row) + end) == Some((Texts(row), rest))
  {
    if |row| == 1 {
      LastCellReadsBack(row[0], end, rest);
      assert Texts(row) == [Text(row[0])];
    } else {
      LineReadsBack(row[1..], end, rest);
      FirstCellReadsBack(row[0], Line(row[1..]) + end, Texts(row[1..]), rest);
      LineSplits(row, end);
      TextsSplit(row);
    }
  }

  function AllTexts(rows: seq<seq<Cell>>): (t: seq<seq<string>>)
    ensures |t| == |rows| && forall i :: 0 <= i < |rows| ==> t[i] == Texts(rows[i])
  {
    seq(|rows|, i requires 0 <= i < |rows| => Texts(rows[i]))
  }

  // Every table with at least one column is read back exactly, whatever its cells hold.
  lemma {:induction false} CsvReadsBack(rows: seq<seq<Cell>>)
    requires forall i :: 0 <= i < |rows| ==> rows[i] != []
    ensures ReadCsv(Lines(rows)) == Some(AllTexts(rows))
  {
    if rows != [] {
      var end := "\r\n" + Lines(rows[1..]);
      assert Lines(rows) == Line(rows[0]) + end;
      LineReadsBack(rows[0], end, Lines(rows[1..]));
      CsvReadsBack(rows[1..]);
      assert AllTexts(rows) == [Texts(rows[0])] + AllTexts(rows[1..]);
    }
  }

  // Without columns there is nothing to tell a row from a row of one empty cell.
  lemma NoColumnsReadAsOneEmptyCell()
    ensures ReadCsv(Lines([[]])) == Some([[""]]) != Some(AllTexts([[]]))
  {
    var s := "\r\n";
    var row: seq<Cell> := [];
    assert Line(row) == "" && [row][1..] == [];
    assert Lines([row]) == s;
    assert s == "\r\n" + "" && ReadPlain(s) == Some(("", s));
    assert ReadField(s) == Some(("", s));
    LastFieldReads(s, "", "");
    assert ReadCsv("") == Some([]);
    var none: seq<seq<string>> := [];
    assert [[""]] + none == [[""]];
    assert ReadCsv(s) == Some([[""]]);
    assert AllTexts([row])[0] == [];
  }
}
