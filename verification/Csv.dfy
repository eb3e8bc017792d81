/** The CSV half of clients/packages/api-client/src/portable.ts: the cell printer
    `csvEscape` and the quoted/unquoted row scanner `csvRows`. */
module Csv {
  import opened Prelude

  type Row = seq<string>

  // --- newline normalisation: the two `replace` calls of csvRows -------------

  function CrLfToLf(s: string): string {
    if s == "" then ""
    else if |s| >= 2 && s[0] == '\r' && s[1] == '\n' then "\n" + CrLfToLf(s[2..])
    else [s[0]] + CrLfToLf(s[1..])
  }

  function CrToLf(s: string): string {
    if s == "" then "" else [if s[0] == '\r' then '\n' else s[0]] + CrToLf(s[1..])
  }

  function NormalizeNewlines(s: string): string {
    CrToLf(CrLfToLf(s))
  }

  function NormalizeCells(row: Row): Row {
    Map(NormalizeNewlines, row)
  }

  // --- printer ---------------------------------------------------------------

  predicate IsSpecial(c: char) {
    c == '"' || c == ',' || c == '\r' || c == '\n'
  }

  predicate NeedsQuotes(v: string) {
    exists i :: 0 <= i < |v| && IsSpecial(v[i])
  }

  function DoubleQuotes(v: string): string {
    if v == "" then ""
    else (if v[0] == '"' then "\"\"" else [v[0]]) + DoubleQuotes(v[1..])
  }

  function CsvEscape(v: string): string {
    if NeedsQuotes(v) then "\"" + DoubleQuotes(v) + "\"" else v
  }

  function PrintRow(row: Row): string {
    Join(Map(CsvEscape, row), ",")
  }

  function Print(rows: seq<Row>): string {
    Join(Map(PrintRow, rows), "\r\n")
  }

  // --- scanner ---------------------------------------------------------------

  predicate NotBlank(row: Row) {
    exists i :: 0 <= i < |row| && row[i] != ""
  }

  /** The loop variables of csvRows. */
  datatype Scan = Scan(rows: seq<Row>, row: Row, cell: string, quoted: bool) {
    /** `row.push(cell)` and, unless every cell is blank, `rows.push(row)`. */
    function EndRow(): Scan {
      var full := row + [cell];
      Scan(if NotBlank(full) then rows + [full] else rows, [], "", quoted)
    }
  }

  const START := Scan([], [], "", false)

  function ScanAll(src: string, p: Scan): Scan
    decreases |src|
  {
    if src == "" then p
    else if p.quoted then
      if src[0] != '"' then ScanAll(src[1..], p.(cell := p.cell + [src[0]]))
      else if |src| >= 2 && src[1] == '"' then ScanAll(src[2..], p.(cell := p.cell + "\""))
      else ScanAll(src[1..], p.(quoted := false))
    else if src[0] == '"' then ScanAll(src[1..], p.(quoted := true))
    else if src[0] == ',' then ScanAll(src[1..], p.(row := p.row + [p.cell], cell := ""))
    else if src[0] == '\n' then ScanAll(src[1..], p.EndRow())
    else ScanAll(src[1..], p.(cell := p.cell + [src[0]]))
  }

  function Finish(p: Scan): seq<Row> {
    if p.cell != "" || p.row != [] then p.EndRow().rows else p.rows
  }

  /** What csvRows returns. */
  function Rows(text: string): seq<Row> {
    Finish(ScanAll(NormalizeNewlines(text), START))
  }

  method CsvRows(text: string) returns (rows: seq<Row>)
    ensures rows == Rows(text)
  {
    rows := [];
    var row: Row := [];
    var cell := "";
    var quoted := false;
    var src := NormalizeNewlines(text);
    var i := 0;
    while i < |src|
      invariant 0 <= i <= |src|
      invariant ScanAll(src[i..], Scan(rows, row, cell, quoted)) == ScanAll(src, START)
    {
      var ch := src[i];
      if i + 1 < |src| {
        assert src[i..][2..] == src[i + 2..];
      }
      assert src[i..][1..] == src[i + 1..];
      if quoted {
        if ch == '"' {
          if i + 1 < |src| && src[i + 1] == '"' {
            cell := cell + "\"";
            i := i + 1;
          } else {
            quoted := false;
          }
        } else {
          cell := cell + [ch];
        }
      } else if ch == '"' {
        quoted := true;
      } else if ch == ',' {
        row := row + [cell];
        cell := "";
      } else if ch == '\n' {
        row := row + [cell];
        if NotBlank(row) { rows := rows + [row]; }
        row := [];
        cell := "";
      } else {
        cell := cell + [ch];
      }
      i := i + 1;
    }
    assert src[i..] == "";
    if cell != "" || row != [] {
      row := row + [cell];
      if NotBlank(row) { rows := rows + [row]; }
    }
  }

  // --- newline normalisation commutes with printing --------------------------

  predicate StartsCrLf(s: string) {
    |s| >= 2 && s[0] == '\r' && s[1] == '\n'
  }

  /** The two replacements in one pass. */
  function OnePass(s: string): string {
    if s == "" then ""
    else if StartsCrLf(s) then "\n" + OnePass(s[2..])
    else [if s[0] == '\r' then '\n' else s[0]] + OnePass(s[1..])
  }

  lemma {:induction false} TwoPasses(s: string)
    ensures NormalizeNewlines(s) == OnePass(s)
    decreases |s|
  {
    if s != "" {
      var k := if StartsCrLf(s) then 2 else 1;
      var head := if StartsCrLf(s) then '\n' else s[0];
      TwoPasses(s[k..]);
      assert CrLfToLf(s) == [head] + CrLfToLf(s[k..]);
      CrToLfCons(head, CrLfToLf(s[k..]));
    }
  }

  lemma CrToLfCons(c: char, s: string)
    ensures CrToLf([c] + s) == [if c == '\r' then '\n' else c] + CrToLf(s)
  {
    assert ([c] + s)[1..] == s;
  }

  lemma {:induction false} OnePassConcat(a: string, b: string)
    requires !(a != "" && a[|a| - 1] == '\r' && b != "" && b[0] == '\n')
    ensures OnePass(a + b) == OnePass(a) + OnePass(b)
    decreases |a|
  {
    if a == "" {
      assert a + b == b;
    } else {
      var k := if StartsCrLf(a) then 2 else 1;
      assert StartsCrLf(a + b) <==> StartsCrLf(a);
      assert (a + b)[k..] == a[k..] + b;
      OnePassConcat(a[k..], b);
    }
  }

  /** Splitting a text anywhere but inside a CRLF pair does not change what
      normalisation does to the two parts. */
  lemma NormalizeConcat(a: string, b: string)
    requires !(a != "" && a[|a| - 1] == '\r' && b != "" && b[0] == '\n')
    ensures NormalizeNewlines(a + b) == NormalizeNewlines(a) + NormalizeNewlines(b)
  {
    OnePassConcat(a, b);
    TwoPasses(a);
    TwoPasses(b);
    TwoPasses(a + b);
  }

  /** What normalisation does at the head of a text. */
  lemma NewlinesAre(c: char, s: string)
    ensures NormalizeNewlines("") == ""
    ensures NormalizeNewlines("\r\n" + s) == "\n" + NormalizeNewlines(s)
    ensures c != '\r' ==> NormalizeNewlines([c] + s) == [c] + NormalizeNewlines(s)
    ensures s == "" || s[0] != '\n' ==> NormalizeNewlines("\r" + s) == "\n" + NormalizeNewlines(s)
  {
    TwoPasses("\r\n" + s);
    TwoPasses(s);
    TwoPasses([c] + s);
    TwoPasses("\r" + s);
    OnePassCrLf(s);
    assert ([c] + s)[1..] == s && ("\r" + s)[1..] == s;
  }

  lemma {:induction false} OnePassRemovesCr(v: string)
    ensures '\r' !in OnePass(v)
    ensures '\r' !in v ==> OnePass(v) == v
    ensures OnePass(v) == "" <==> v == ""
    decreases |v|
  {
    if v != "" {
      OnePassRemovesCr(v[if StartsCrLf(v) then 2 else 1..]);
    }
  }

  /** Normalisation never leaves a CR, and leaves a CR-free text alone. */
  lemma NormalizeRemovesCr(v: string)
    ensures '\r' !in NormalizeNewlines(v)
    ensures '\r' !in v ==> NormalizeNewlines(v) == v
    ensures NormalizeNewlines(v) == "" <==> v == ""
  {
    OnePassRemovesCr(v);
    TwoPasses(v);
  }

  lemma DoubleCons(c: char, s: string)
    ensures DoubleQuotes([c] + s) == (if c == '"' then "\"\"" else [c]) + DoubleQuotes(s)
  {
    assert ([c] + s)[1..] == s;
  }

  lemma DoubleStarts(s: string)
    ensures s != "" ==> DoubleQuotes(s) != "" && DoubleQuotes(s)[0] == s[0]
  {
  }

  lemma OnePassCons(c: char, s: string)
    requires !StartsCrLf([c] + s)
    ensures OnePass([c] + s) == [if c == '\r' then '\n' else c] + OnePass(s)
  {
    assert ([c] + s)[1..] == s;
  }

  lemma OnePassCrLf(s: string)
    ensures OnePass("\r\n" + s) == "\n" + OnePass(s)
  {
    assert ("\r\n" + s)[2..] == s;
  }

  lemma OnePassQuotes(s: string)
    ensures OnePass("\"\"" + s) == "\"\"" + OnePass(s)
  {
    assert "\"\"" + s == ['"'] + (['"'] + s);
    OnePassCons('"', ['"'] + s);
    OnePassCons('"', s);
  }

  lemma {:induction false} OnePassDoubled(v: string)
    ensures OnePass(DoubleQuotes(v)) == DoubleQuotes(OnePass(v))
    decreases |v|
  {
    if StartsCrLf(v) {
      var rest := v[2..];
      assert v == ['\r'] + (['\n'] + rest);
      DoubleCons('\r', ['\n'] + rest);
      DoubleCons('\n', rest);
      assert DoubleQuotes(v) == "\r\n" + DoubleQuotes(rest);
      OnePassCrLf(DoubleQuotes(rest));
      OnePassDoubled(rest);
      DoubleCons('\n', OnePass(rest));
    } else if v != "" {
      var c, rest := v[0], v[1..];
      assert v == [c] + rest;
      DoubleCons(c, rest);
      OnePassDoubled(rest);
      if c == '"' {
        OnePassQuotes(DoubleQuotes(rest));
        DoubleCons(c, OnePass(rest));
      } else {
        DoubleStarts(rest);
        OnePassCons(c, DoubleQuotes(rest));
        DoubleCons(if c == '\r' then '\n' else c, OnePass(rest));
      }
    }
  }

  lemma SpecialCons(c: char, s: string)
    ensures NeedsQuotes([c] + s) <==> IsSpecial(c) || NeedsQuotes(s)
  {
    var v := [c] + s;
    if NeedsQuotes(s) {
      var i :| 0 <= i < |s| && IsSpecial(s[i]);
      assert IsSpecial(v[i + 1]);
    }
    assert IsSpecial(c) ==> IsSpecial(v[0]);
    if NeedsQuotes(v) && !IsSpecial(c) {
      var i :| 0 <= i < |v| && IsSpecial(v[i]);
      assert IsSpecial(s[i - 1]);
    }
  }

  lemma {:induction false} OnePassKeepsSpecials(v: string)
    ensures NeedsQuotes(OnePass(v)) <==> NeedsQuotes(v)
    decreases |v|
  {
    if StartsCrLf(v) {
      assert IsSpecial(v[0]) && IsSpecial(OnePass(v)[0]);
    } else if v != "" {
      assert v == [v[0]] + v[1..];
      OnePassKeepsSpecials(v[1..]);
      SpecialCons(v[0], v[1..]);
      SpecialCons(if v[0] == '\r' then '\n' else v[0], OnePass(v[1..]));
    }
  }

  /** Normalising a printed cell is printing the normalised cell. */
  lemma NormalizeEscaped(v: string)
    ensures NormalizeNewlines(CsvEscape(v)) == CsvEscape(NormalizeNewlines(v))
    ensures CsvEscape(v) != "" ==> CsvEscape(v)[|CsvEscape(v)| - 1] != '\r'
    ensures CsvEscape(v) != "" ==> CsvEscape(v)[0] != '\n'
  {
    OnePassKeepsSpecials(v);
    TwoPasses(v);
    if NeedsQuotes(v) {
      var q, d := "\"", DoubleQuotes(v);
      OnePassDoubled(v);
      TwoPasses(d);
      NormalizeConcat(q + d, q);
      NormalizeConcat(q, d);
      assert CsvEscape(v) == (q + d) + q;
      NormalizeRemovesCr(q);
    } else if v != "" {
      assert !IsSpecial(v[|v| - 1]) && !IsSpecial(v[0]);
    }
  }

  lemma {:induction false} NormalizeRow(row: Row)
    ensures NormalizeNewlines(PrintRow(row)) == PrintRow(NormalizeCells(row))
    ensures PrintRow(row) != "" ==> PrintRow(row)[|PrintRow(row)| - 1] != '\r'
  {
    if row == [] {
    } else {
      var first := CsvEscape(row[0]);
      NormalizeEscaped(row[0]);
      if |row| > 1 {
        var rest := row[1..];
        NormalizeRow(rest);
        assert Map(CsvEscape, row)[1..] == Map(CsvEscape, rest);
        var normal := Map(NormalizeNewlines, row);
        assert normal[1..] == Map(NormalizeNewlines, rest);
        assert Map(CsvEscape, normal)[1..] == Map(CsvEscape, normal[1..]);
        NormalizeConcat(first + ",", PrintRow(rest));
        NormalizeConcat(first, ",");
        NormalizeRemovesCr(",");
        assert PrintRow(row) == (first + ",") + PrintRow(rest);
      }
    }
  }

  lemma {:induction false} NormalizePrinted(rows: seq<Row>)
    ensures NormalizeNewlines(Print(rows)) == Join(Map(PrintRow, Map(NormalizeCells, rows)), "\n")
  {
    var normal := Map(NormalizeCells, rows);
    JoinMapStep(PrintRow, rows, "\r\n");
    JoinMapStep(PrintRow, normal, "\n");
    if rows != [] {
      NormalizeRow(rows[0]);
      if |rows| > 1 {
        var rest := rows[1..];
        NormalizePrinted(rest);
        assert normal[1..] == Map(NormalizeCells, rest);
        NormalizeLine(PrintRow(rows[0]), Print(rest));
      }
    }
  }

  lemma NormalizeLine(line: string, rest: string)
    requires line != "" ==> line[|line| - 1] != '\r'
    ensures NormalizeNewlines(line + ("\r\n" + rest)) == NormalizeNewlines(line) + ("\n" + NormalizeNewlines(rest))
  {
    var tail := "\r\n" + rest;
    NormalizeConcat(line, tail);
    OnePassCrLf(rest);
    TwoPasses(tail);
    TwoPasses(rest);
    assert tail[2..] == rest;
  }

  // --- the scanner undoes the printer ----------------------------------------

  /** What may follow a printed cell. */
  predicate CellEnd(rest: string) {
    rest == "" || rest[0] == ',' || rest[0] == '\n'
  }

  lemma {:induction false} ScanPlain(v: string, rest: string, p: Scan)
    requires !NeedsQuotes(v) && !p.quoted
    ensures ScanAll(v + rest, p) == ScanAll(rest, p.(cell := p.cell + v))
  {
    if v == "" {
      assert v + rest == rest && p.cell + v == p.cell;
    } else {
      assert !IsSpecial(v[0]);
      assert !NeedsQuotes(v[1..]) by {
        assert forall i :: 0 <= i < |v[1..]| ==> v[1..][i] == v[i + 1];
      }
      assert (v + rest)[1..] == v[1..] + rest;
      ScanPlain(v[1..], rest, p.(cell := p.cell + [v[0]]));
      assert p.cell + [v[0]] + v[1..] == p.cell + v;
    }
  }

  lemma {:induction false} ScanQuoted(v: string, rest: string, p: Scan)
    requires p.quoted && CellEnd(rest)
    ensures ScanAll(DoubleQuotes(v) + "\"" + rest, p)
         == ScanAll(rest, p.(cell := p.cell + v, quoted := false))
  {
    var text := DoubleQuotes(v) + "\"" + rest;
    if v == "" {
      assert text == "\"" + rest && text[1..] == rest && p.cell + v == p.cell;
    } else {
      var tail := DoubleQuotes(v[1..]) + "\"" + rest;
      ScanQuoted(v[1..], rest, p.(cell := p.cell + [v[0]]));
      assert p.cell + [v[0]] + v[1..] == p.cell + v;
      if v[0] == '"' {
        assert text == "\"\"" + tail && text[2..] == tail;
      } else {
        assert text == [v[0]] + tail && text[1..] == tail;
      }
    }
  }

  lemma ScanCell(v: string, rest: string, p: Scan)
    requires !p.quoted && p.cell == "" && CellEnd(rest)
    ensures ScanAll(CsvEscape(v) + rest, p) == ScanAll(rest, p.(cell := v))
  {
    assert "" + v == v;
    if NeedsQuotes(v) {
      var text := CsvEscape(v) + rest;
      assert text[1..] == DoubleQuotes(v) + "\"" + rest;
      ScanQuoted(v, rest, p.(quoted := true));
    } else {
      ScanPlain(v, rest, p);
    }
  }

  lemma ScanSeparator(rest: string, p: Scan)
    requires !p.quoted
    ensures ScanAll("," + rest, p) == ScanAll(rest, p.(row := p.row + [p.cell], cell := ""))
    ensures ScanAll("\n" + rest, p) == ScanAll(rest, p.EndRow())
  {
    assert ("," + rest)[1..] == rest && ("\n" + rest)[1..] == rest;
  }

  lemma PrintRowStep(row: Row)
    requires |row| > 1
    ensures PrintRow(row) == CsvEscape(row[0]) + ("," + PrintRow(row[1..]))
  {
    JoinMapStep(CsvEscape, row, ",");
  }

  /** The first of several printed cells is pushed. */
  lemma ScanFirst(row: Row, rest: string, p: Scan)
    requires |row| > 1 && !p.quoted && p.cell == ""
    ensures ScanAll(PrintRow(row) + rest, p) == ScanAll(PrintRow(row[1..]) + rest, p.(row := p.row + [row[0]]))
  {
    var mid := PrintRow(row[1..]) + rest;
    PrintRowStep(row);
    assert PrintRow(row) + rest == CsvEscape(row[0]) + ("," + mid);
    ScanCell(row[0], "," + mid, p);
    ScanSeparator(mid, p.(cell := row[0]));
  }

  /** The scan with all cells of a row pushed but the last. */
  function Pending(p: Scan, row: Row): Scan
    requires row != []
  {
    p.(row := p.row + row[..|row| - 1], cell := row[|row| - 1])
  }

  lemma PendingStep(p: Scan, row: Row)
    requires |row| > 1
    ensures Pending(p.(row := p.row + [row[0]]), row[1..]) == Pending(p, row)
  {
    assert [row[0]] + row[1..][..|row| - 2] == row[..|row| - 1];
  }

  /** Scanning a printed row leaves its last cell pending and the others pushed. */
  lemma {:induction false} ScanRow(row: Row, rest: string, p: Scan)
    requires row != [] && !p.quoted && p.cell == "" && CellEnd(rest)
    ensures ScanAll(PrintRow(row) + rest, p) == ScanAll(rest, Pending(p, row))
  {
    if |row| == 1 {
      JoinMapStep(CsvEscape, row, ",");
      ScanCell(row[0], rest, p);
      assert p.row + row[..0] == p.row;
    } else {
      ScanFirst(row, rest, p);
      ScanRow(row[1..], rest, p.(row := p.row + [row[0]]));
      PendingStep(p, row);
    }
  }

  lemma BlankRowPrints()
    ensures PrintRow([]) == PrintRow([""])
    ensures NotBlank([""]) == NotBlank([])
  {
    JoinMapStep(CsvEscape, [], ",");
    JoinMapStep(CsvEscape, [""], ",");
  }

  /** The end of a line, with its last cell pending. */
  lemma LineEnds(cells: Row, rest: string, done: seq<Row>)
    requires cells != [] && (rest == "" || rest[0] == '\n')
    ensures var done' := if NotBlank(cells) then done + [cells] else done;
            Finish(ScanAll(rest, Scan(done, cells[..|cells| - 1], cells[|cells| - 1], false)))
            == if rest == "" then done' else Finish(ScanAll(rest[1..], Scan(done', [], "", false)))
  {
    var q := Scan(done, cells[..|cells| - 1], cells[|cells| - 1], false);
    assert q.row + [q.cell] == cells;
    if rest != "" {
      assert rest == "\n" + rest[1..];
      ScanSeparator(rest[1..], q);
    } else {
      assert ScanAll(rest, q) == q;
      assert q.cell == "" && q.row == [] ==> !NotBlank(cells);
    }
  }

  /** One printed line: its cells are pushed as a row, unless they are all blank. */
  lemma ScanLine(row: Row, rest: string, done: seq<Row>)
    requires rest == "" || rest[0] == '\n'
    ensures var done' := if NotBlank(row) then done + [row] else done;
            Finish(ScanAll(PrintRow(row) + rest, Scan(done, [], "", false)))
            == if rest == "" then done' else Finish(ScanAll(rest[1..], Scan(done', [], "", false)))
  {
    BlankRowPrints();
    var cells := if row == [] then [""] else row;
    ScanRow(cells, rest, Scan(done, [], "", false));
    assert [] + cells[..|cells| - 1] == cells[..|cells| - 1];
    LineEnds(cells, rest, done);
  }

  lemma {:induction false} ScanPrinted(rows: seq<Row>, done: seq<Row>)
    ensures Finish(ScanAll(Join(Map(PrintRow, rows), "\n"), Scan(done, [], "", false)))
         == done + Filter(NotBlank, rows)
  {
    JoinMapStep(PrintRow, rows, "\n");
    if rows != [] {
      var row := rows[0];
      var rest := if |rows| == 1 then "" else "\n" + Join(Map(PrintRow, rows[1..]), "\n");
      var done' := if NotBlank(row) then done + [row] else done;
      ScanLine(row, rest, done);
      assert PrintRow(row) + "" == PrintRow(row);
      if |rows| == 1 {
        assert Filter(NotBlank, rows[1..]) == [];
      } else {
        assert rest[1..] == Join(Map(PrintRow, rows[1..]), "\n");
        ScanPrinted(rows[1..], done');
      }
    }
  }

  /** RFC 4180 section 2, modulo newlines and blank rows: whatever the rows hold,
      scanning the printed text gives them back with each CRLF or lone CR inside a
      cell turned into LF, and with the all-blank rows dropped. */
  lemma RoundTrip(rows: seq<Row>)
    ensures Rows(Print(rows)) == Filter(NotBlank, Map(NormalizeCells, rows))
  {
    NormalizePrinted(rows);
    ScanPrinted(Map(NormalizeCells, rows), []);
  }

  // --- exporting what was imported loses nothing -----------------------------

  ghost predicate Clean(rows: seq<Row>) {
    forall r :: r in rows ==> NotBlank(r) && CrFree(r)
  }

  ghost predicate CrFree(row: Row) {
    forall i :: 0 <= i < |row| ==> '\r' !in row[i]
  }

  lemma {:induction false} ScanStaysClean(src: string, p: Scan)
    requires '\r' !in src && Clean(p.rows) && CrFree(p.row) && '\r' !in p.cell
    ensures Clean(Finish(ScanAll(src, p)))
    decreases |src|
  {
    if src == "" {
      assert CrFree(p.row + [p.cell]);
    } else if p.quoted {
      if src[0] != '"' {
        ScanStaysClean(src[1..], p.(cell := p.cell + [src[0]]));
      } else if |src| >= 2 && src[1] == '"' {
        ScanStaysClean(src[2..], p.(cell := p.cell + "\""));
      } else {
        ScanStaysClean(src[1..], p.(quoted := false));
      }
    } else if src[0] == '"' {
      ScanStaysClean(src[1..], p.(quoted := true));
    } else if src[0] == ',' {
      ScanStaysClean(src[1..], p.(row := p.row + [p.cell], cell := ""));
    } else if src[0] == '\n' {
      assert CrFree(p.row + [p.cell]);
      ScanStaysClean(src[1..], p.EndRow());
    } else {
      ScanStaysClean(src[1..], p.(cell := p.cell + [src[0]]));
    }
  }

  /** For every text whatsoever, well-formed or not: printing the scanned rows and
      scanning again gives the same rows. */
  lemma RescanIsStable(text: string)
    ensures Rows(Print(Rows(text))) == Rows(text)
  {
    var rows := Rows(text);
    NormalizeRemovesCr(text);
    ScanStaysClean(NormalizeNewlines(text), START);
    RoundTrip(rows);
    forall i | 0 <= i < |rows| ensures NormalizeCells(rows[i]) == rows[i] {
      assert rows[i] in rows;
      forall j | 0 <= j < |rows[i]| ensures NormalizeNewlines(rows[i][j]) == rows[i][j] {
        NormalizeRemovesCr(rows[i][j]);
      }
    }
    assert Map(NormalizeCells, rows) == rows;
    FilterAll(NotBlank, rows);
  }
}
