/** What any text at all reads as, without the scanner: lines are cut at the newlines
    outside quotes, cells at the commas outside quotes, and of the quotes only those that
    reopen a cell at once are kept. */
module CsvReading {
  import opened Prelude
  import opened Csv

  /** The quote turns inside and outside about. */
  predicate Turned(inside: bool, c: char) {
    inside != (c == '"')
  }

  /** The pieces between the separators outside quotes. */
  function Cut(s: string, sep: char, inside: bool): (pieces: seq<string>)
    ensures pieces != []
  {
    if s == "" then [""]
    else if s[0] == sep && !inside then [""] + Cut(s[1..], sep, false)
    else
      var rest := Cut(s[1..], sep, Turned(inside, s[0]));
      [[s[0]] + rest[0]] + rest[1..]
  }

  /** A quote stands for itself when it opens right after one that closed. */
  function Unquoted(s: string, inside: bool, closed: bool): string {
    if s == "" then ""
    else if s[0] != '"' then [s[0]] + Unquoted(s[1..], inside, false)
    else (if closed && !inside then "\"" else "") + Unquoted(s[1..], !inside, inside)
  }

  function CellText(piece: string): string {
    Unquoted(piece, false, false)
  }

  function Cells(line: string): Row {
    Map(CellText, Cut(line, ',', false))
  }

  function Lines(text: string): seq<string> {
    Cut(NormalizeNewlines(text), '\n', false)
  }

  // --- the scanner reads the same --------------------------------------------

  /** A row whose first cells are known, and its pending one begun. */
  function Resumed(line: string, row: Row, cell: string, inside: bool): Row {
    var pieces := Cut(line, ',', inside);
    row + [cell + Unquoted(pieces[0], inside, false)] + Map(CellText, pieces[1..])
  }

  function Reading(src: string, p: Scan): seq<Row> {
    var lines := Cut(src, '\n', p.quoted);
    p.rows + Filter(NotBlank, [Resumed(lines[0], p.row, p.cell, p.quoted)] + Map(Cells, lines[1..]))
  }

  lemma CutStep(c: char, s: string, sep: char, inside: bool)
    ensures c == sep && !inside ==> Cut([c] + s, sep, inside) == [""] + Cut(s, sep, false)
    ensures !(c == sep && !inside) ==>
              var rest := Cut(s, sep, Turned(inside, c)); Cut([c] + s, sep, inside) == [[c] + rest[0]] + rest[1..]
  {
    assert ([c] + s)[1..] == s;
  }

  lemma UnquotedStep(c: char, s: string, inside: bool, closed: bool)
    ensures c != '"' ==> Unquoted([c] + s, inside, closed) == [c] + Unquoted(s, inside, false)
    ensures c == '"' ==>
              Unquoted([c] + s, inside, closed)
              == (if closed && !inside then "\"" else "") + Unquoted(s, !inside, inside)
  {
    assert ([c] + s)[1..] == s;
  }

  lemma ClosedMattersOnce(s: string, inside: bool)
    requires inside || s == "" || s[0] != '"'
    ensures Unquoted(s, inside, true) == Unquoted(s, inside, false)
  {
  }

  lemma {:induction false} CutFirst(s: string, sep: char, inside: bool)
    ensures var first := Cut(s, sep, inside)[0]; s == "" || first == "" || first[0] == s[0]
  {
  }

  /** A character that is kept. */
  lemma ResumedText(c: char, line: string, row: Row, cell: string, inside: bool)
    requires c != '"' && (inside || c != ',')
    ensures Resumed([c] + line, row, cell, inside) == Resumed(line, row, cell + [c], inside)
  {
    CutStep(c, line, ',', inside);
    var pieces := Cut(line, ',', inside);
    UnquotedStep(c, pieces[0], inside, false);
    assert Cut([c] + line, ',', inside)[1..] == pieces[1..];
    assert cell + ([c] + Unquoted(pieces[0], inside, false)) == cell + [c] + Unquoted(pieces[0], inside, false);
  }

  /** A comma outside quotes. */
  lemma ResumedComma(line: string, row: Row, cell: string)
    ensures Resumed("," + line, row, cell, false) == Resumed(line, row + [cell], "", false)
  {
    CutStep(',', line, ',', false);
    var pieces := Cut(line, ',', false);
    assert Cut("," + line, ',', false)[1..] == pieces;
    assert Map(CellText, pieces) == [CellText(pieces[0])] + Map(CellText, pieces[1..]);
    assert cell + "" == cell && "" + CellText(pieces[0]) == CellText(pieces[0]);
    assert row + [cell] + ([CellText(pieces[0])] + Map(CellText, pieces[1..]))
        == (row + [cell]) + [CellText(pieces[0])] + Map(CellText, pieces[1..]);
  }

  /** A quote that opens, or one that closes and is not followed by another. */
  lemma ResumedQuote(line: string, row: Row, cell: string, inside: bool)
    requires inside ==> line == "" || line[0] != '"'
    ensures Resumed("\"" + line, row, cell, inside) == Resumed(line, row, cell, !inside)
  {
    CutStep('"', line, ',', inside);
    var pieces := Cut(line, ',', !inside);
    UnquotedStep('"', pieces[0], inside, false);
    assert Cut("\"" + line, ',', inside)[1..] == pieces[1..];
    if inside {
      CutFirst(line, ',', false);
      ClosedMattersOnce(pieces[0], false);
    }
    assert "" + Unquoted(pieces[0], !inside, inside) == Unquoted(pieces[0], !inside, false);
  }

  /** Two quotes inside. */
  lemma ResumedPair(line: string, row: Row, cell: string)
    ensures Resumed("\"\"" + line, row, cell, true) == Resumed(line, row, cell + "\"", true)
  {
    var pieces := Cut(line, ',', true);
    assert "\"\"" + line == "\"" + ("\"" + line);
    CutStep('"', "\"" + line, ',', true);
    CutStep('"', line, ',', false);
    UnquotedStep('"', "\"" + pieces[0], true, false);
    UnquotedStep('"', pieces[0], false, true);
    assert Unquoted("\"" + ("\"" + pieces[0]), true, false) == "\"" + Unquoted(pieces[0], true, false);
    assert Cut("\"\"" + line, ',', true)[1..] == pieces[1..];
    assert Cut("\"\"" + line, ',', true)[0] == "\"" + ("\"" + pieces[0]);
    assert cell + ("\"" + Unquoted(pieces[0], true, false)) == cell + "\"" + Unquoted(pieces[0], true, false);
  }

  lemma ReadingText(c: char, src: string, p: Scan)
    requires c != '"' && (p.quoted || (c != ',' && c != '\n'))
    ensures Reading([c] + src, p) == Reading(src, p.(cell := p.cell + [c]))
  {
    CutStep(c, src, '\n', p.quoted);
    ResumedText(c, Cut(src, '\n', p.quoted)[0], p.row, p.cell, p.quoted);
  }

  lemma ReadingComma(src: string, p: Scan)
    requires !p.quoted
    ensures Reading("," + src, p) == Reading(src, p.(row := p.row + [p.cell], cell := ""))
  {
    CutStep(',', src, '\n', false);
    ResumedComma(Cut(src, '\n', false)[0], p.row, p.cell);
  }

  lemma ReadingQuote(src: string, p: Scan)
    requires p.quoted ==> src == "" || src[0] != '"'
    ensures Reading("\"" + src, p) == Reading(src, p.(quoted := !p.quoted))
  {
    CutStep('"', src, '\n', p.quoted);
    CutFirst(src, '\n', !p.quoted);
    ResumedQuote(Cut(src, '\n', !p.quoted)[0], p.row, p.cell, p.quoted);
  }

  lemma ReadingPair(src: string, p: Scan)
    requires p.quoted
    ensures Reading("\"\"" + src, p) == Reading(src, p.(cell := p.cell + "\""))
  {
    var lines := Cut(src, '\n', true);
    assert "\"\"" + src == "\"" + ("\"" + src);
    CutStep('"', "\"" + src, '\n', true);
    CutStep('"', src, '\n', false);
    assert Cut("\"\"" + src, '\n', true)[0] == "\"\"" + lines[0];
    assert Cut("\"\"" + src, '\n', true)[1..] == lines[1..];
    ResumedPair(lines[0], p.row, p.cell);
  }

  lemma ResumedStart(line: string)
    ensures Resumed(line, [], "", false) == Cells(line)
  {
    var pieces := Cut(line, ',', false);
    assert "" + CellText(pieces[0]) == CellText(pieces[0]);
    assert [] + [CellText(pieces[0])] + Map(CellText, pieces[1..]) == Map(CellText, pieces);
  }

  lemma ResumedEnd(row: Row, cell: string, inside: bool)
    ensures Resumed("", row, cell, inside) == row + [cell]
  {
    assert cell + "" == cell && row + [cell] + [] == row + [cell];
  }

  lemma ReadingNewline(src: string, p: Scan)
    requires !p.quoted
    ensures Reading("\n" + src, p) == Reading(src, p.EndRow())
  {
    CutStep('\n', src, '\n', false);
    var lines := Cut(src, '\n', false);
    assert Cut("\n" + src, '\n', false)[1..] == lines;
    var full, tail := p.row + [p.cell], Map(Cells, lines);
    ResumedEnd(p.row, p.cell, false);
    ResumedStart(lines[0]);
    assert [Resumed(lines[0], [], "", false)] + Map(Cells, lines[1..]) == tail;
    FilterCons(NotBlank, full, tail);
  }

  lemma ReadingEnd(p: Scan)
    ensures Reading("", p) == Finish(p)
  {
    ResumedEnd(p.row, p.cell, p.quoted);
    var full := p.row + [p.cell];
    assert [full][1..] == [] && [full] + Map(Cells, []) == [full];
    assert Filter(NotBlank, [full]) == if NotBlank(full) then [full] else [];
    if p.cell == "" && p.row == [] {
      assert !NotBlank(full);
    }
  }

  lemma {:induction false} ScannerReads(src: string, p: Scan)
    ensures Finish(ScanAll(src, p)) == Reading(src, p)
    decreases |src|
  {
    if src == "" {
      ReadingEnd(p);
    } else {
      var c, rest := src[0], src[1..];
      assert src == [c] + rest;
      if c == '"' {
        if p.quoted && rest != "" && rest[0] == '"' {
          assert src == "\"\"" + src[2..];
          ReadingPair(src[2..], p);
          ScannerReads(src[2..], p.(cell := p.cell + "\""));
        } else {
          ReadingQuote(rest, p);
          ScannerReads(rest, p.(quoted := !p.quoted));
        }
      } else if p.quoted || (c != ',' && c != '\n') {
        ReadingText(c, rest, p);
        ScannerReads(rest, p.(cell := p.cell + [c]));
      } else if c == ',' {
        ReadingComma(rest, p);
        ScannerReads(rest, p.(row := p.row + [p.cell], cell := ""));
      } else {
        ReadingNewline(rest, p);
        ScannerReads(rest, p.EndRow());
      }
    }
  }

  /** For every text, however its quotes are placed: its rows are its lines, cut into
      cells and unquoted, less the blank ones. */
  lemma RowsAre(text: string)
    ensures Rows(text) == Filter(NotBlank, Map(Cells, Lines(text)))
  {
    ScannerReads(NormalizeNewlines(text), START);
    var lines := Lines(text);
    ResumedStart(lines[0]);
    assert [Resumed(lines[0], [], "", false)] + Map(Cells, lines[1..]) == Map(Cells, lines);
  }
}
