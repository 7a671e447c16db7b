/** Section 2 of RFC 4180 as a printer, and what iterating CSVRange makes of printed text. */
module CsvTable {
  import opened Basics
  import opened CsvLine
  import opened Stream
  import opened CsvReader

  /** A field, and whether the printer encloses it in double quotes. */
  datatype Cell = Cell(text: string, quoted: bool) {
    /** Quotes are optional unless the text holds a line break, a comma or a double quote (rules 5 to 7). */
    predicate Legal() {
      quoted || (OneLine(text) && ',' !in text && '"' !in text)
    }

    /** Legal, and all on one line. */
    predicate Printable() { Legal() && OneLine(text) }
  }

  predicate OneLine(text: string) { '\n' !in text && '\r' !in text }

  /** One record and its line break: CRLF or a bare LF. */
  datatype Record = Record(cells: seq<Cell>, crlf: bool) {
    predicate Legal(width: nat) {
      |cells| == width && forall c <- cells :: c.Legal()
    }

    /** No line break inside a field. */
    predicate Unbroken() {
      forall c <- cells :: OneLine(c.text)
    }
  }

  predicate PlainName(name: string) {
    ',' !in name && '\r' !in name && '\n' !in name
  }

  function Doubled(text: string): string {
    if text == "" then "" else (if text[0] == '"' then "\"\"" else [text[0]]) + Doubled(text[1..])
  }

  function PrintCell(c: Cell): string {
    if c.quoted then "\"" + Doubled(c.text) + "\"" else c.text
  }

  function Join(parts: seq<string>): string
    requires parts != []
  {
    if |parts| == 1 then parts[0] else parts[0] + "," + Join(parts[1..])
  }

  function PrintCells(cells: seq<Cell>): (parts: seq<string>)
    ensures |parts| == |cells|
  {
    if cells == [] then [] else [PrintCell(cells[0])] + PrintCells(cells[1..])
  }

  function LineBreak(crlf: bool): string {
    if crlf then "\r\n" else "\n"
  }

  function PrintRecords(rows: seq<Record>, width: nat): string
    requires width > 0 && forall r <- rows :: r.Legal(width)
  {
    if rows == [] then ""
    else
      assert rows[0].Legal(width);
      Join(PrintCells(rows[0].cells)) + LineBreak(rows[0].crlf) + PrintRecords(rows[1..], width)
  }

  function PrintTable(names: seq<string>, crlf: bool, rows: seq<Record>): string
    requires names != [] && forall r <- rows :: r.Legal(|names|)
  {
    Join(names) + LineBreak(crlf) + PrintRecords(rows, |names|)
  }

  function Texts(cells: seq<Cell>): (ts: seq<string>)
    ensures |ts| == |cells| && forall i | 0 <= i < |cells| :: ts[i] == cells[i].text
  {
    if cells == [] then [] else [cells[0].text] + Texts(cells[1..])
  }

  function TableTexts(rows: seq<Record>): (ts: seq<seq<string>>)
    ensures |ts| == |rows|
  {
    if rows == [] then [] else [Texts(rows[0].cells)] + TableTexts(rows[1..])
  }

  function ParseRows(lines: seq<string>): (rows: seq<seq<string>>)
    ensures |rows| == |lines| && forall i | 0 <= i < |lines| :: rows[i] == ParseLine(lines[i])
  {
    if lines == [] then [] else [ParseLine(lines[0])] + ParseRows(lines[1..])
  }

  // Cells

  lemma {:induction false} ScanPlain(s: Scanner, text: string)
    requires s.state == UnquotedField && ',' !in text && '"' !in text
    ensures Scan(s, text) == s.(current := s.current + text)
    decreases text
  {
    if text != "" {
      ScanPlain(Feed(s, text[0]), text[1..]);
      assert s.current + [text[0]] + text[1..] == s.current + text;
    } else {
      assert s.current + text == s.current;
    }
  }

  lemma {:induction false} ScanDoubled(s: Scanner, text: string)
    requires s.state == QuotedField
    ensures Scan(s, Doubled(text)) == s.(current := s.current + text)
    decreases text
  {
    if text == "" {
      assert s.current + text == s.current;
    } else {
      var t := s.(current := s.current + [text[0]]);
      var head := if text[0] == '"' then "\"\"" else [text[0]];
      ScanConcat(s, head, Doubled(text[1..]));
      assert Scan(s, head) == t by {
        assert Scan(Feed(s, head[0]), head[1..]) == t by {
          if text[0] == '"' {
            assert head[1..] == "\"";
            assert Scan(Feed(Feed(s, '"'), '"'), "") == t;
          }
        }
      }
      ScanDoubled(t, text[1..]);
      assert s.current + [text[0]] + text[1..] == s.current + text;
    }
  }

  lemma ScanCell(c: Cell)
    requires c.Printable()
    ensures var s := Scan(START, PrintCell(c)); s.Fields() == [c.text] && s.state != QuotedField
  {
    if c.quoted {
      var open := Feed(START, '"');
      ScanConcat(START, "\"" + Doubled(c.text), "\"");
      ScanConcat(START, "\"", Doubled(c.text));
      assert Scan(START, "\"") == Scan(open, "") == open;
      ScanDoubled(open, c.text);
      var end := open.(current := open.current + c.text);
      assert open.current + c.text == c.text;
      assert Scan(end, "\"") == Scan(Feed(end, '"'), "");
    } else {
      ScanPlain(START, c.text);
      assert START.current + c.text == c.text;
    }
  }

  lemma {:induction false} DoubledClean(text: string, c: char)
    requires c !in text && c != '"'
    ensures c !in Doubled(text)
  {
    if text != "" {
      DoubledClean(text[1..], c);
    }
  }

  lemma {:induction false} JoinClean(parts: seq<string>, c: char)
    requires parts != [] && c != ',' && forall p <- parts :: c !in p
    ensures c !in Join(parts)
  {
    if |parts| > 1 {
      JoinClean(parts[1..], c);
    }
  }

  lemma {:induction false} PrintCellsClean(cells: seq<Cell>)
    requires forall c <- cells :: c.Printable()
    ensures forall p <- PrintCells(cells) :: '\n' !in p && '\r' !in p
  {
    if cells != [] {
      var c := cells[0];
      assert c.Printable();
      DoubledClean(c.text, '\n');
      DoubledClean(c.text, '\r');
      PrintCellsClean(cells[1..]);
    }
  }

  // Records

  lemma {:induction false} ScanRecord(cells: seq<Cell>)
    requires cells != [] && forall c <- cells :: c.Printable()
    ensures Scan(START, Join(PrintCells(cells))).Fields() == Texts(cells)
  {
    ScanCell(cells[0]);
    if |cells| > 1 {
      ScanRecord(cells[1..]);
      JoinOutsideQuote(PrintCell(cells[0]), Join(PrintCells(cells[1..])));
    }
  }

  lemma StripLine(text: string, crlf: bool)
    requires '\n' !in text && '\r' !in text
    ensures Strip(text + if crlf then "\r" else "") == text
  {
    StripClean(text);
    assert text + "" == text;
    StripConcat(text, "\r");
    assert Without("\r", '\r') == Without("", '\r');
  }

  /** A printed record, whatever its line break, parses to its texts. */
  lemma RecordRoundTrip(r: Record, width: nat)
    requires width > 0 && r.Legal(width) && r.Unbroken()
    ensures var line := Join(PrintCells(r.cells));
      '\n' !in line && ParseLine(line + if r.crlf then "\r" else "") == Texts(r.cells) == ParseLine(line)
  {
    var line := Join(PrintCells(r.cells));
    PrintCellsClean(r.cells);
    JoinClean(PrintCells(r.cells), '\n');
    JoinClean(PrintCells(r.cells), '\r');
    StripLine(line, r.crlf);
    StripLine(line, false);
    assert line + "" == line;
    ScanRecord(r.cells);
  }

  lemma {:induction false} SplitJoin(names: seq<string>)
    requires names != [] && forall n <- names :: PlainName(n)
    ensures SplitOn(Join(names), ',') == names
  {
    var n := names[0];
    assert PlainName(n);
    if |names| == 1 {
      FirstOccurrence(n, ',', |n|);
    } else {
      var text := Join(names);
      assert text[..|n|] == n && text[|n| + 1..] == Join(names[1..]);
      FirstOccurrence(text, ',', |n|);
      SplitJoin(names[1..]);
    }
  }

  lemma {:induction false} SplitStripped(text: string)
    requires '\n' !in text && '\r' !in text
    ensures StripAll(SplitOn(text, ',')) == SplitOn(text, ',')
    decreases |text|
  {
    var k := IndexOf(text, ',');
    if k < |text| {
      StripClean(text[..k]);
      SplitStripped(text[k + 1..]);
    } else {
      StripClean(text);
    }
  }

  lemma {:induction false} SplitTrailing(text: string, tail: string)
    requires ',' !in tail && Strip(tail) == ""
    ensures StripAll(SplitOn(text + tail, ',')) == StripAll(SplitOn(text, ','))
    decreases |text|
  {
    var k := IndexOf(text, ',');
    if k < |text| {
      assert (text + tail)[..k] == text[..k] && (text + tail)[k + 1..] == text[k + 1..] + tail;
      FirstOccurrence(text + tail, ',', k);
      SplitTrailing(text[k + 1..], tail);
      SplitFirst(text, k);
      SplitFirst(text + tail, k);
    } else {
      LastPieceTrailing(text, tail);
    }
  }

  lemma SplitFirst(text: string, k: nat)
    requires k == IndexOf(text, ',') < |text|
    ensures StripAll(SplitOn(text, ',')) == [Strip(text[..k])] + StripAll(SplitOn(text[k + 1..], ','))
  {
  }

  lemma {:induction false} LastPieceTrailing(text: string, tail: string)
    requires ',' !in text && ',' !in tail && Strip(tail) == ""
    ensures StripAll(SplitOn(text + tail, ',')) == StripAll(SplitOn(text, ','))
  {
    FirstOccurrence(text + tail, ',', |text + tail|);
    FirstOccurrence(text, ',', |text|);
    StripConcat(text, tail);
    assert Strip(text) + "" == Strip(text);
    OneStripped(text + tail);
    OneStripped(text);
  }

  lemma OneStripped(text: string)
    requires ',' !in text
    ensures StripAll(SplitOn(text, ',')) == [Strip(text)]
  {
    FirstOccurrence(text, ',', |text|);
    assert StripAll([text]) == [Strip(text)] + StripAll([]);
  }

  lemma HeaderRoundTrip(names: seq<string>, crlf: bool)
    requires names != [] && forall n <- names :: PlainName(n)
    ensures '\n' !in Join(names) && Columns(Join(names) + if crlf then "\r" else "") == names
  {
    forall n <- names ensures '\n' !in n && '\r' !in n { assert PlainName(n); }
    JoinClean(names, '\n');
    JoinClean(names, '\r');
    SplitJoin(names);
    SplitStripped(Join(names));
    StripLine("", crlf);
    assert "" + (if crlf then "\r" else "") == if crlf then "\r" else "";
    SplitTrailing(Join(names), if crlf then "\r" else "");
  }

  // Tables

  lemma PiecesOfLine(line: string, crlf: bool, rest: string)
    requires '\n' !in line
    ensures Pieces(line + LineBreak(crlf) + rest, '\n')
         == [line + if crlf then "\r" else ""] + Pieces(rest, '\n')
  {
    var body := line + if crlf then "\r" else "";
    var text := line + LineBreak(crlf) + rest;
    assert text == body + "\n" + rest;
    assert text[..|body|] == body && text[|body| + 1..] == rest;
    FirstOccurrence(text, '\n', |body|);
  }

  lemma {:induction false} RecordsRoundTrip(rows: seq<Record>, width: nat, last: string)
    requires width > 0 && (forall r <- rows :: r.Legal(width) && r.Unbroken()) && '\n' !in last
    ensures ParseRows(Pieces(PrintRecords(rows, width) + last, '\n'))
         == TableTexts(rows) + if last == "" then [] else [ParseLine(last)]
  {
    if rows == [] {
      assert "" + last == last;
      FirstOccurrence(last, '\n', |last|);
      if last != "" {
        assert ParseRows([last]) == [ParseLine(last)] + ParseRows([]);
      }
    } else {
      RecordsRoundTrip(rows[1..], width, last);
      FirstRecordRoundTrip(rows, width, last);
    }
  }

  lemma FirstRecordRoundTrip(rows: seq<Record>, width: nat, last: string)
    requires width > 0 && rows != [] && (forall r <- rows :: r.Legal(width) && r.Unbroken())
    ensures ParseRows(Pieces(PrintRecords(rows, width) + last, '\n'))
         == [Texts(rows[0].cells)] + ParseRows(Pieces(PrintRecords(rows[1..], width) + last, '\n'))
  {
    var r := rows[0];
    assert r.Legal(width);
    var line, body := Join(PrintCells(r.cells)), PrintRecords(rows[1..], width);
    RecordRoundTrip(r, width);
    PiecesOfLine(line, r.crlf, body + last);
    ConcatAssoc(line + LineBreak(r.crlf), body, last);
    ParseRowsCons(line + if r.crlf then "\r" else "", Pieces(body + last, '\n'));
  }

  lemma ParseRowsCons(line: string, lines: seq<string>)
    ensures ParseRows([line] + lines) == [ParseLine(line)] + ParseRows(lines)
  {
  }

  ghost predicate ReadsAs(text: string, names: seq<string>, rows: seq<seq<string>>) {
    var lines := Pieces(text, '\n');
    Columns(HeaderOf(lines)) == names && ParseRows(RowsOf(lines)) == rows
  }

  lemma PrintedPieces(names: seq<string>, crlf: bool, body: string)
    requires names != [] && forall n <- names :: PlainName(n)
    ensures var lines := Pieces(Join(names) + LineBreak(crlf) + body, '\n');
      Columns(HeaderOf(lines)) == names && RowsOf(lines) == Pieces(body, '\n')
  {
    HeaderRoundTrip(names, crlf);
    PiecesOfLine(Join(names), crlf, body);
  }

  /** Every table printed as section 2 of RFC 4180 allows, without line breaks inside fields but with any
      optional quoting and any mixture of CRLF and LF, is read back as its header and exactly its rows in order. */
  lemma {:induction false} TableRoundTrip(names: seq<string>, crlf: bool, rows: seq<Record>)
    requires names != [] && (forall n <- names :: PlainName(n))
    requires forall r <- rows :: r.Legal(|names|) && r.Unbroken()
    ensures ReadsAs(PrintTable(names, crlf, rows), names, TableTexts(rows))
  {
    var body := PrintRecords(rows, |names|);
    PrintedPieces(names, crlf, body);
    RecordsRoundTrip(rows, |names|, "");
    assert body + "" == body;
  }

  /** Every printed line has exactly header width when it is read. */
  lemma TableWidth(names: seq<string>, crlf: bool, rows: seq<Record>)
    requires names != [] && (forall n <- names :: PlainName(n))
    requires forall r <- rows :: r.Legal(|names|) && r.Unbroken()
    ensures forall l <- RowsOf(Pieces(PrintTable(names, crlf, rows), '\n')) :: |ParseLine(l)| == |names|
    ensures FitText(Pieces(PrintTable(names, crlf, rows), '\n'))
  {
    TableRoundTrip(names, crlf, rows);
    TextsWidth(rows, |names|);
    var lines := RowsOf(Pieces(PrintTable(names, crlf, rows), '\n'));
    forall l <- lines ensures |ParseLine(l)| == |names| {
      var i :| 0 <= i < |lines| && lines[i] == l;
      assert ParseRows(lines)[i] in TableTexts(rows);
    }
  }

  lemma {:induction false} TextsWidth(rows: seq<Record>, width: nat)
    requires forall r <- rows :: r.Legal(width) && r.Unbroken()
    ensures forall t <- TableTexts(rows) :: |t| == width
  {
    if rows != [] {
      assert rows[0].Legal(width);
      TextsWidth(rows[1..], width);
    }
  }

  /** With the last line break left out the table still reads back, exactly when the last
      printed line is not empty (it is empty only for a single unquoted empty field). */
  lemma UnendedTableRoundTrip(names: seq<string>, crlf: bool, rows: seq<Record>, last: Record)
    requires names != [] && (forall n <- names :: PlainName(n))
    requires (forall r <- rows :: r.Legal(|names|) && r.Unbroken()) && last.Legal(|names|) && last.Unbroken()
    ensures ReadsAs(PrintTable(names, crlf, rows) + Join(PrintCells(last.cells)), names, TableTexts(rows + [last]))
       <==> Join(PrintCells(last.cells)) != ""
  {
    var line := Join(PrintCells(last.cells));
    var body := PrintRecords(rows, |names|) + line;
    PrintedPieces(names, crlf, body);
    ConcatAssoc(Join(names) + LineBreak(crlf), PrintRecords(rows, |names|), line);
    UnendedBody(|names|, rows, last, line);
  }

  lemma UnendedBody(width: nat, rows: seq<Record>, last: Record, line: string)
    requires width > 0 && (forall r <- rows :: r.Legal(width) && r.Unbroken()) && last.Legal(width) && last.Unbroken()
    requires line == Join(PrintCells(last.cells))
    ensures ParseRows(Pieces(PrintRecords(rows, width) + line, '\n')) == TableTexts(rows + [last]) <==> line != ""
  {
    RecordRoundTrip(last, width);
    RecordsRoundTrip(rows, width, line);
    TableTextsConcat(rows, last);
  }

  lemma {:induction false} TableTextsConcat(rows: seq<Record>, last: Record)
    ensures TableTexts(rows + [last]) == TableTexts(rows) + [Texts(last.cells)]
  {
    if rows == [] {
      assert TableTexts([last]) == [Texts(last.cells)] + TableTexts([]);
    } else {
      assert (rows + [last])[1..] == rows[1..] + [last];
      TableTextsConcat(rows[1..], last);
    }
  }

  // The stored columns

  /** With distinct names a stored row answers each of its columns with its own field,
      and every other column as before. */
  lemma {:induction false} StoreLookup(m: Values, columns: seq<string>, fields: seq<string>)
    requires |fields| <= |columns|
    requires forall i, j | 0 <= i < j < |columns| :: columns[i] != columns[j]
    ensures forall j | 0 <= j < |fields| :: Get(Store(m, columns, fields), columns[j]) == fields[j]
    ensures forall c | c !in columns[..|fields|] :: Get(Store(m, columns, fields), c) == Get(m, c)
  {
    if fields != [] {
      var n := |fields| - 1;
      StoreLookup(m, columns, fields[..n]);
      assert columns[..|fields|] == columns[..n] + [columns[n]];
    }
  }

  /** The row values after each line of a file whose rows are not transformed. */
  function StoreRows(base: Values, columns: seq<string>, rows: seq<seq<string>>): (ms: seq<Values>)
    requires FitRows(rows, |columns|)
    ensures |ms| == |rows|
    decreases rows
  {
    if rows == [] then []
    else
      assert rows[0] in rows;
      var m := Store(base, columns, rows[0]);
      [m] + StoreRows(m, columns, rows[1..])
  }

  /** Rows of full width answer every column by name with their own fields. */
  lemma {:induction false} StoreRowsLookup(base: Values, columns: seq<string>, rows: seq<seq<string>>, i: nat, j: nat)
    requires forall r <- rows :: |r| == |columns|
    requires forall i, j | 0 <= i < j < |columns| :: columns[i] != columns[j]
    requires i < |rows| && j < |columns|
    ensures Get(StoreRows(base, columns, rows)[i], columns[j]) == rows[i][j]
    decreases rows
  {
    assert rows[0] in rows;
    if i == 0 {
      StoreLookup(base, columns, rows[0]);
    } else {
      StoreRowsLookup(Store(base, columns, rows[0]), columns, rows[1..], i - 1, j);
    }
  }

  predicate FitRows(rows: seq<seq<string>>, width: nat) {
    forall r <- rows :: |r| <= width
  }

  lemma FitParsed(lines: seq<string>, width: nat)
    requires FitLines(lines, width)
    ensures FitRows(ParseRows(lines), width)
  {
    forall r <- ParseRows(lines) ensures |r| <= width {
      var i :| 0 <= i < |lines| && ParseRows(lines)[i] == r;
      assert lines[i] in lines;
    }
  }

  /** The values after row i come from storing row i over the values after row i - 1. */
  ghost predicate Chained(values: seq<Values>, base: Values, columns: seq<string>, rows: seq<seq<string>>) {
    |values| == |rows| && FitRows(rows, |columns|)
    && forall i {:trigger rows[i]} | 0 <= i < |rows| ::
      |rows[i]| <= |columns| && values[i] == Store(if i == 0 then base else values[i - 1], columns, rows[i])
  }

  lemma {:induction false} StoreRowsChained(base: Values, columns: seq<string>, rows: seq<seq<string>>)
    requires FitRows(rows, |columns|)
    ensures Chained(StoreRows(base, columns, rows), base, columns, rows)
    decreases rows
  {
    if rows != [] {
      assert rows[0] in rows;
      var m := Store(base, columns, rows[0]);
      StoreRowsChained(m, columns, rows[1..]);
      var rest, all := StoreRows(m, columns, rows[1..]), StoreRows(base, columns, rows);
      forall i | 0 <= i < |rows| ensures |rows[i]| <= |columns|
        && all[i] == Store(if i == 0 then base else all[i - 1], columns, rows[i])
      {
        assert rows[i] in rows;
        if i > 0 {
          assert all[i] == rest[i - 1] && rows[i] == rows[1..][i - 1];
        }
      }
    }
  }

  /** What is expected of the rows of a file: fields and column values. */
  ghost predicate Expected(parsed: seq<seq<string>>, values: seq<Values>, lines: seq<string>, names: seq<string>) {
    |parsed| == |lines| && (forall i | 0 <= i < |lines| :: parsed[i] == ParseLine(lines[i]))
    && Chained(values, map[], names, parsed)
  }

  function Before(values: seq<Values>, k: nat): Values
    requires k <= |values|
  {
    if k == 0 then map[] else values[k - 1]
  }

  /** The loop body: row k is copied out, then ++. */
  method TakeRow(it: CSVIterator, ghost lines: seq<string>, ghost names: seq<string>,
                 ghost parsed: seq<seq<string>>, ghost expected: seq<Values>, ghost k: nat)
    returns (fields: seq<string>, value: Values)
    requires it.Fits() && Expected(parsed, expected, lines, names)
    requires k < |lines| && At(it, lines[k..], names, Before(expected, k))
    modifies it, it.stream, it.row
    ensures it.Fits() && (it.stream == null || it.stream == old(it.stream))
    ensures fields == parsed[k] && value == expected[k]
    ensures At(it, lines[k + 1..], names, Before(expected, k + 1))
  {
    TakeNext(lines, k);
    fields, value := it.row.fields, it.row.mapData;
    assert |parsed[k]| <= |names|;
    NextRow(it, lines[k..], names);
  }

  lemma TakenNext(lines: seq<string>, names: seq<string>, parsed: seq<seq<string>>, expected: seq<Values>, k: nat)
    requires Expected(parsed, expected, lines, names) && k < |lines|
    ensures parsed[..k + 1] == parsed[..k] + [parsed[k]] && expected[..k + 1] == expected[..k] + [expected[k]]
  {
    TakeNext(parsed, k);
    TakeNext(expected, k);
  }

  lemma AllTaken(lines: seq<string>, names: seq<string>, parsed: seq<seq<string>>, expected: seq<Values>, k: nat)
    requires Expected(parsed, expected, lines, names) && k <= |lines| && lines[k..] == []
    ensures parsed[..k] == parsed && expected[..k] == expected
  {
    assert k == |lines|;
  }

  /** for (auto &row : range): the fields and the column values of every row up to the end. */
  method Collect(it: CSVIterator, end: CSVIterator, ghost lines: seq<string>, ghost names: seq<string>,
                 ghost parsed: seq<seq<string>>, ghost expected: seq<Values>)
    returns (rows: seq<seq<string>>, values: seq<Values>)
    requires it.Fits() && At(it, lines, names, map[]) && end.stream == null && it != end
    requires Expected(parsed, expected, lines, names)
    modifies it, it.stream, it.row
    ensures rows == parsed && values == expected
  {
    rows, values := [], [];
    ghost var k := 0;
    while !it.Equals(end)
      invariant k <= |lines| && rows == parsed[..k] && values == expected[..k]
      invariant it.Fits() && (it.stream == null || it.stream == old(it.stream))
      invariant At(it, lines[k..], names, Before(expected, k))
      decreases |lines| - k
    {
      var fields, value := TakeRow(it, lines, names, parsed, expected, k);
      TakenNext(lines, names, parsed, expected, k);
      rows := rows + [fields];
      values := values + [value];
      k := k + 1;
    }
    AllTaken(lines, names, parsed, expected, k);
  }

  /** Iterating CSVRange(stream, true) from begin() to end(). */
  method ReadTable(text: string) returns (rows: seq<seq<string>>, values: seq<Values>)
    requires FitText(Pieces(text, '\n'))
    ensures rows == ParseRows(RowsOf(Pieces(text, '\n')))
    ensures var names := Columns(HeaderOf(Pieces(text, '\n')));
      FitRows(rows, |names|) && values == StoreRows(map[], names, rows)
  {
    var s := new IStream(text);
    ghost var lines := RowsOf(Pieces(text, '\n'));
    ghost var names := Columns(HeaderOf(Pieces(text, '\n')));
    FitParsed(lines, |names|);
    StoreRowsChained(map[], names, ParseRows(lines));
    var it := new CSVIterator.Begin(s, true);
    var end := new CSVIterator.End();
    rows, values := Collect(it, end, lines, names, ParseRows(lines), StoreRows(map[], names, ParseRows(lines)));
  }

  /** The reader run on any printed table: its rows in order, each answering by column name. */
  method ReadPrinted(names: seq<string>, crlf: bool, rows: seq<Record>)
    returns (read: seq<seq<string>>, values: seq<Values>)
    requires names != [] && (forall n <- names :: PlainName(n))
    requires forall i, j | 0 <= i < j < |names| :: names[i] != names[j]
    requires forall r <- rows :: r.Legal(|names|) && r.Unbroken()
    ensures |read| == |values| == |rows|
    ensures forall i | 0 <= i < |rows| :: read[i] == Texts(rows[i].cells) && |read[i]| == |names|
    ensures forall i, j | 0 <= i < |rows| && 0 <= j < |names| :: Get(values[i], names[j]) == read[i][j]
  {
    TableRoundTrip(names, crlf, rows);
    TableWidth(names, crlf, rows);
    TextsWidth(rows, |names|);
    read, values := ReadTable(PrintTable(names, crlf, rows));
    forall i | 0 <= i < |rows| ensures read[i] == Texts(rows[i].cells) && |read[i]| == |names| {
      TableTextsAt(rows, i);
      assert TableTexts(rows)[i] in TableTexts(rows);
    }
    forall i, j | 0 <= i < |rows| && 0 <= j < |names| ensures Get(values[i], names[j]) == read[i][j] {
      StoreRowsLookup(map[], names, read, i, j);
    }
  }

  lemma {:induction false} TableTextsAt(rows: seq<Record>, i: nat)
    requires i < |rows|
    ensures TableTexts(rows)[i] == Texts(rows[i].cells)
  {
    if i > 0 {
      TableTextsAt(rows[1..], i - 1);
    }
  }
}
