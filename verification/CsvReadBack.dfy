/** Which tables that section 2 of RFC 4180 allows the reader gives back, exactly. */
module CsvReadBack {
  import opened CsvLine
  import opened Stream
  import opened CsvReader
  import opened CsvTable

  predicate OneLineAll(texts: seq<string>) {
    forall t <- texts :: OneLine(t)
  }

  lemma {:induction false} ScanClean(s: Scanner, text: string)
    requires OneLineAll(s.Fields()) && OneLine(text)
    ensures OneLineAll(Scan(s, text).Fields())
    decreases text
  {
    if text != "" {
      FeedClean(s, text[0]);
      ScanClean(Feed(s, text[0]), text[1..]);
    }
  }

  lemma FeedClean(s: Scanner, c: char)
    requires OneLineAll(s.Fields()) && c != '\n' && c != '\r'
    ensures OneLineAll(Feed(s, c).Fields())
  {
    assert OneLine(s.current) && OneLineAll(s.closed) by {
      assert s.Fields()[|s.closed|] == s.current;
      assert forall t <- s.closed :: t in s.Fields();
    }
  }

  /** No field the reader parses holds a line break. */
  lemma ParsedClean(line: string)
    ensures OneLineAll(ParseLine(line))
  {
    StripIdempotent(line);
    ScanClean(START, Strip(line));
  }

  lemma {:induction false} StrippedClean(ss: seq<string>)
    ensures OneLineAll(StripAll(ss))
  {
    if ss != [] {
      StripIdempotent(ss[0]);
      StrippedClean(ss[1..]);
    }
  }

  predicate OneLineRows(rows: seq<Record>) {
    forall r <- rows :: r.Unbroken()
  }

  lemma {:induction false} ReadRowsClean(lines: seq<string>, rows: seq<Record>)
    requires ParseRows(lines) == TableTexts(rows)
    ensures OneLineRows(rows)
  {
    forall r <- rows, c <- r.cells ensures OneLine(c.text) {
      var i :| 0 <= i < |rows| && rows[i] == r;
      var j :| 0 <= j < |r.cells| && r.cells[j] == c;
      TableTextsAt(rows, i);
      ParsedClean(lines[i]);
      assert Texts(r.cells)[j] in ParseLine(lines[i]);
    }
  }

  // The header

  function Total(parts: seq<string>): nat {
    if parts == [] then 0 else |parts[0]| + Total(parts[1..])
  }

  lemma {:induction false} JoinLength(parts: seq<string>)
    requires parts != []
    ensures |Join(parts)| == Total(parts) + |parts| - 1
  {
    if |parts| > 1 {
      JoinLength(parts[1..]);
    }
  }

  lemma JoinCons(first: string, rest: seq<string>)
    requires rest != []
    ensures Join([first] + rest) == first + "," + Join(rest)
  {
    assert ([first] + rest)[1..] == rest;
  }

  lemma CutAt(text: string, k: nat)
    requires k < |text| && text[k] == ','
    ensures text[..k] + "," + text[k + 1..] == text
  {
  }

  lemma {:induction false} JoinSplit(text: string)
    ensures Join(SplitOn(text, ',')) == text
    decreases |text|
  {
    var k := IndexOf(text, ',');
    if k < |text| {
      var head, tail := text[..k], text[k + 1..];
      JoinSplit(tail);
      JoinCons(head, SplitOn(tail, ','));
      CutAt(text, k);
    }
  }

  lemma {:induction false} DoubledLength(text: string)
    ensures |Doubled(text)| >= |text|
  {
    if text != "" {
      DoubledLength(text[1..]);
    }
  }

  predicate Unquoted(cells: seq<Cell>) {
    forall c <- cells :: !c.quoted
  }

  /** Quotes make a header longer than its names. */
  lemma {:induction false} PrintedLength(cells: seq<Cell>)
    ensures Total(PrintCells(cells)) >= Total(Texts(cells))
    ensures Total(PrintCells(cells)) == Total(Texts(cells)) ==> Unquoted(cells)
  {
    if cells != [] {
      DoubledLength(cells[0].text);
      PrintedLength(cells[1..]);
      assert cells == [cells[0]] + cells[1..];
    }
  }

  lemma {:induction false} UnquotedPrint(cells: seq<Cell>)
    requires Unquoted(cells)
    ensures PrintCells(cells) == Texts(cells)
  {
    if cells != [] {
      UnquotedPrint(cells[1..]);
    }
  }

  lemma HeaderSplit(line: string, crlf: bool)
    requires OneLine(line)
    ensures Columns(line + if crlf then "\r" else "") == SplitOn(line, ',')
  {
    SplitStripped(line);
    StripLine("", crlf);
    assert "" + (if crlf then "\r" else "") == if crlf then "\r" else "";
    SplitTrailing(line, if crlf then "\r" else "");
  }

  /** A printed header line gives its names back only if none of them is quoted. */
  lemma HeaderUnquoted(header: Record, width: nat)
    requires width > 0 && header.Legal(width) && header.Unbroken()
    ensures var line := Join(PrintCells(header.cells));
      && OneLine(line)
      && (Columns(line + if header.crlf then "\r" else "") == Texts(header.cells) ==> Unquoted(header.cells))
  {
    var line := Join(PrintCells(header.cells));
    PrintCellsClean(header.cells);
    JoinClean(PrintCells(header.cells), '\n');
    JoinClean(PrintCells(header.cells), '\r');
    HeaderSplit(line, header.crlf);
    JoinSplit(line);
    JoinLength(PrintCells(header.cells));
    JoinLength(SplitOn(line, ','));
    PrintedLength(header.cells);
  }

  // The table

  predicate LegalTable(header: Record, rows: seq<Record>) {
    header.cells != [] && header.Legal(|header.cells|) && forall r <- rows :: r.Legal(|header.cells|)
  }

  /** The header and all rows, each line ended, and a tail behind them. */
  function Text(header: Record, rows: seq<Record>, tail: string): string
    requires LegalTable(header, rows)
  {
    Join(PrintCells(header.cells)) + LineBreak(header.crlf) + (PrintRecords(rows, |header.cells|) + tail)
  }

  /** What the reader gives back holds no line break, so a header that comes back holds none; nor quotes. */
  lemma HeaderComesBack(header: Record, body: string)
    requires header.cells != [] && header.Legal(|header.cells|)
    ensures var lines := Pieces(Join(PrintCells(header.cells)) + LineBreak(header.crlf) + body, '\n');
      Columns(HeaderOf(lines)) == Texts(header.cells) ==> Unquoted(header.cells)
  {
    var lines := Pieces(Join(PrintCells(header.cells)) + LineBreak(header.crlf) + body, '\n');
    if Columns(HeaderOf(lines)) == Texts(header.cells) {
      StrippedClean(SplitOn(HeaderOf(lines), ','));
      forall c <- header.cells ensures c.Printable() {
        var j :| 0 <= j < |header.cells| && header.cells[j] == c;
        assert Texts(header.cells)[j] in Columns(HeaderOf(lines));
      }
      HeaderUnquoted(header, |header.cells|);
      PiecesOfLine(Join(PrintCells(header.cells)), header.crlf, body);
    }
  }

  /** With an unquoted header only the rows decide. */
  lemma UnquotedHeader(header: Record, rows: seq<Record>, tail: string, texts: seq<seq<string>>)
    requires LegalTable(header, rows) && Unquoted(header.cells)
    ensures ReadsAs(Text(header, rows, tail), Texts(header.cells), texts)
       <==> ParseRows(Pieces(PrintRecords(rows, |header.cells|) + tail, '\n')) == texts
  {
    var names := Texts(header.cells);
    UnquotedPrint(header.cells);
    forall n <- names ensures PlainName(n) {
      var j :| 0 <= j < |names| && names[j] == n;
      assert header.cells[j].Legal();
    }
    PrintedPieces(names, header.crlf, PrintRecords(rows, |names|) + tail);
  }

  /** Of all tables that section 2 of RFC 4180 allows, with all lines ended, the reader gives back exactly
      those whose header is unquoted and whose fields hold no line break. */
  lemma TableReadsBack(header: Record, rows: seq<Record>)
    requires LegalTable(header, rows)
    ensures ReadsAs(Text(header, rows, ""), Texts(header.cells), TableTexts(rows))
       <==> Unquoted(header.cells) && OneLineRows(rows)
  {
    var body := PrintRecords(rows, |header.cells|);
    HeaderComesBack(header, body + "");
    if Unquoted(header.cells) {
      UnquotedHeader(header, rows, "", TableTexts(rows));
      if OneLineRows(rows) {
        RecordsRoundTrip(rows, |header.cells|, "");
      } else if ParseRows(Pieces(body + "", '\n')) == TableTexts(rows) {
        ReadRowsClean(Pieces(body + "", '\n'), rows);
      }
    }
  }

  /** And with the last line break left out, exactly those whose last line, besides, is not empty. */
  lemma UnendedTableReadsBack(header: Record, rows: seq<Record>, last: Record)
    requires LegalTable(header, rows) && last.Legal(|header.cells|)
    ensures var line := Join(PrintCells(last.cells));
      ReadsAs(Text(header, rows, line), Texts(header.cells), TableTexts(rows + [last]))
      <==> Unquoted(header.cells) && OneLineRows(rows + [last]) && line != ""
  {
    var line := Join(PrintCells(last.cells));
    var body := PrintRecords(rows, |header.cells|) + line;
    HeaderComesBack(header, body);
    if Unquoted(header.cells) {
      UnquotedHeader(header, rows, line, TableTexts(rows + [last]));
      if OneLineRows(rows + [last]) {
        assert last in rows + [last] && forall r <- rows :: r in rows + [last];
        UnendedBody(|header.cells|, rows, last, line);
      } else if ParseRows(Pieces(body, '\n')) == TableTexts(rows + [last]) {
        ReadRowsClean(Pieces(body, '\n'), rows + [last]);
      }
    }
  }
}
