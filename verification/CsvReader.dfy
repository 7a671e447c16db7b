/** CSVRow, CSVIterator and CSVRange: one mutable row driven over a stream. */
module CsvReader {
  import opened Basics
  import opened CsvLine
  import opened Stream

  /** m_map_data, with operator[] reading a missing column as the empty string. */
  type Values = map<string, string>

  function Get(m: Values, column: string): string {
    if column in m then m[column] else ""
  }

  function Touch(m: Values, column: string): Values {
    if column in m then m else m[column := ""]
  }

  /** The fields of one line assigned to the first columns, in order. */
  function Store(m: Values, columns: seq<string>, fields: seq<string>): Values
    requires |fields| <= |columns|
  {
    if fields == [] then m
    else
      var n := |fields| - 1;
      Store(m, columns, fields[..n])[columns[n] := fields[n]]
  }

  function SplitOn(text: string, delim: char): (pieces: seq<string>)
    ensures pieces != []
    decreases |text|
  {
    var k := IndexOf(text, delim);
    if k < |text| then [text[..k]] + SplitOn(text[k + 1..], delim) else [text]
  }

  function StripAll(ss: seq<string>): (ts: seq<string>)
    ensures |ts| == |ss|
  {
    if ss == [] then [] else [Strip(ss[0])] + StripAll(ss[1..])
  }

  /** The column names of a header line: split at every comma, quotes not recognised. */
  function Columns(header: string): seq<string> {
    StripAll(SplitOn(header, ','))
  }

  /** One getline of the header split: a name, and the names of what is left. */
  lemma HeaderPiece(s: StreamState)
    requires s.Good()
    ensures var g := Extract(s, "", ',');
      && Columns(s.rest) == [Strip(g.line)] + (if g.stream.Good() then Columns(g.stream.rest) else [])
      && (g.stream.Good() ==> |g.stream.rest| < |s.rest|)
  {
    var k := IndexOf(s.rest, ',');
    if k == |s.rest| {
      assert StripAll([s.rest]) == [Strip(s.rest)] + StripAll([]);
    }
  }

  class CSVRow {
    var line: string
    var fields: seq<string>
    var columns: seq<string>
    var mapData: Values

    constructor ()
      ensures line == "" && fields == [] && columns == [] && mapData == map[]
    {
      line, fields, columns, mapData := "", [], [], map[];
    }

    /** operator[](column) used as a value: a missing column is inserted empty. */
    method At(column: string) returns (value: string)
      modifies this`mapData
      ensures mapData == Touch(old(mapData), column)
      ensures value == Get(old(mapData), column)
    {
      if column !in mapData {
        mapData := mapData[column := ""];
      }
      value := mapData[column];
    }

    /** operator[](column) used as the target of an assignment. */
    method Put(column: string, value: string)
      modifies this`mapData
      ensures mapData == old(mapData)[column := value]
    {
      mapData := mapData[column := value];
    }

    /** m_fields[i] is stored under its column, as at the end of every field. */
    method EndField(i: nat, ghost base: Values, ghost closed: seq<string>)
      requires i == |closed| < |columns| && |fields| == i + 1 && fields[..i] == closed
      requires mapData == Store(base, columns, closed)
      modifies this`mapData
      ensures mapData == Store(base, columns, fields)
    {
      mapData := mapData[columns[i] := fields[i]];
    }

    /** One turn of the switch: state, i and the fields move as the scanner s does. */
    method ReadChar(state: State, i: nat, c: char, ghost base: Values, ghost s: Scanner)
      returns (next: State, j: nat)
      requires s.state == state && s.Fields() == fields && |s.closed| == i < |columns|
      requires mapData == Store(base, columns, s.closed)
      modifies this`fields, this`mapData
      ensures next == Feed(s, c).state && fields == Feed(s, c).Fields() && j == |Feed(s, c).closed|
      ensures j <= |columns| && mapData == Store(base, columns, Feed(s, c).closed)
    {
      next, j := state, i;
      match state {
        case UnquotedField =>
          match c {
            case ',' =>
              EndField(i, base, s.closed);
              fields := fields + [""];
              j := i + 1;
            case '"' =>
              next := QuotedField;
            case _ =>
              fields := fields[i := fields[i] + [c]];
          }
        case QuotedField =>
          match c {
            case '"' =>
              next := QuotedQuote;
            case _ =>
              fields := fields[i := fields[i] + [c]];
          }
        case QuotedQuote =>
          match c {
            case ',' =>
              EndField(i, base, s.closed);
              fields := fields + [""];
              j := i + 1;
              next := UnquotedField;
            case '"' =>
              fields := fields[i := fields[i] + ['"']];
              next := QuotedField;
            case _ =>
              next := UnquotedField;
          }
      }
    }

    /** The character loop over m_line. */
    method ScanLine()
      requires |Scan(START, line).Fields()| <= |columns|
      modifies this`fields, this`mapData
      ensures fields == Scan(START, line).Fields()
      ensures mapData == Store(old(mapData), columns, fields)
    {
      var state := UnquotedField;
      fields := [""];
      var i := 0;
      ghost var s := START;
      for k := 0 to |line|
        invariant s == Scan(START, line[..k])
        invariant s.state == state && s.Fields() == fields && |s.closed| == i < |columns|
        invariant mapData == Store(old(mapData), columns, s.closed)
      {
        ScanStep(line, k, |columns|);
        state, i := ReadChar(state, i, line[k], old(mapData), s);
        s := Feed(s, line[k]);
      }
      assert line[..|line|] == line;
      EndField(i, old(mapData), s.closed);
    }

    /** Reads and parses one line; the columns must be at least as many as its fields. */
    method Next(stream: IStream)
      requires |ParseLine(Extract(stream.State(), line, '\n').line)| <= |columns|
      modifies stream, this`line, this`fields, this`mapData
      ensures stream.State() == Extract(old(stream.State()), old(line), '\n').stream
      ensures line == Strip(Extract(old(stream.State()), old(line), '\n').line)
      ensures fields == ParseLine(line)
      ensures |fields| <= |columns| && mapData == Store(old(mapData), columns, fields)
    {
      line := stream.Getline(line, '\n');
      StripIdempotent(line);
      line := Strip(line);
      ScanLine();
    }
  }

  /** One character read; no prefix of a line has more fields than the line. */
  lemma ScanStep(line: string, k: nat, width: nat)
    requires k < |line| && |Scan(START, line).Fields()| <= width
    ensures Scan(START, line[..k + 1]) == Feed(Scan(START, line[..k]), line[k])
    ensures |Scan(START, line[..k + 1]).Fields()| <= width
  {
    var s := Scan(START, line[..k]);
    assert line[..k + 1] == line[..k] + [line[k]];
    ScanConcat(START, line[..k], [line[k]]);
    assert Scan(s, [line[k]]) == Scan(Feed(s, line[k]), "");
    assert line == line[..k + 1] + line[k + 1..];
    ScanConcat(START, line[..k + 1], line[k + 1..]);
    ScanExtends(Scan(START, line[..k + 1]), line[k + 1..]);
  }

  lemma ParseLineStripped(line: string)
    ensures ParseLine(Strip(line)) == ParseLine(line)
  {
    StripIdempotent(line);
  }

  /** The lines an iterator has not yet read, seen as a header line and row lines. */
  function HeaderOf(lines: seq<string>): string {
    if lines == [] then "" else lines[0]
  }

  function RowsOf(lines: seq<string>): seq<string> {
    if lines == [] then [] else lines[1..]
  }

  predicate FitLines(lines: seq<string>, width: nat) {
    forall l <- lines :: |ParseLine(l)| <= width
  }

  /** A file with its header line: every row line has at most as many fields as there are columns. */
  predicate FitText(lines: seq<string>) {
    FitLines(RowsOf(lines), |Columns(HeaderOf(lines))|)
  }

  class CSVIterator {
    var stream: IStream?
    var hasHeader: bool
    const row: CSVRow

    /** The columns the next row is stored under. */
    function NextColumns(): seq<string>
      requires stream != null
      reads this, stream, row`columns
    {
      if hasHeader then Columns(HeaderOf(Pending(stream.State(), '\n'))) else row.columns
    }

    /** The row lines still to be read. */
    function RowLines(): seq<string>
      reads this, stream
    {
      if stream == null then []
      else if hasHeader then RowsOf(Pending(stream.State(), '\n'))
      else Pending(stream.State(), '\n')
    }

    /** No line has more fields than there are columns. */
    ghost predicate Fits()
      reads this, stream, row`columns, row`line
    {
      stream != null ==>
        FitLines(RowLines(), |NextColumns()|) && |ParseLine(row.line)| <= |NextColumns()|
    }

    constructor Begin(s: IStream, hasHeader: bool)
      requires s.Good() ==> hasHeader && FitText(Pending(s.State(), '\n'))
      modifies s
      ensures fresh(row) && (stream == null || stream == s) && Fits()
      ensures var lines := old(Pending(s.State(), '\n'));
        At(this, RowsOf(lines), Columns(HeaderOf(lines)), map[])
    {
      this.stream := if s.Good() then s else null;
      this.hasHeader := hasHeader;
      row := new CSVRow();
      new;
      Advance();
    }

    constructor End()
      ensures stream == null
    {
      stream, hasHeader := null, false;
      row := new CSVRow();
    }

    /** The header line split with getline(ss, column, ','), CR and LF removed from each name. */
    method SplitColumns(header: string) returns (columns: seq<string>)
      ensures columns == Columns(header)
    {
      columns := [];
      var ss := new IStream(header);
      while ss.Good()
        invariant columns + (if ss.Good() then Columns(ss.rest) else []) == Columns(header)
        decreases if ss.Good() then 1 else 0, |ss.rest|
      {
        ghost var before, s := columns, ss.State();
        HeaderPiece(s);
        var column := ss.Getline("", ',');
        columns := columns + [Strip(column)];
        ConcatAssoc(before, [Strip(column)], if ss.Good() then Columns(ss.rest) else []);
      }
    }

    method SetColumns(s: IStream)
      modifies s, row`columns
      ensures s.State() == Extract(old(s.State()), "", '\n').stream
      ensures row.columns == Columns(Extract(old(s.State()), "", '\n').line)
    {
      var header := s.Getline("", '\n');
      row.columns := SplitColumns(header);
    }

    method ReadHeader()
      requires stream != null && hasHeader && Fits()
      modifies this`hasHeader, stream, row`columns
      ensures !hasHeader && Fits()
      ensures row.columns == old(NextColumns()) && RowLines() == old(RowLines())
    {
      GetlineDelivers(stream.State(), "", '\n');
      SetColumns(stream);
      hasHeader := false;
    }

    method ReadRow()
      requires stream != null && !hasHeader && Fits()
      modifies this`stream, stream, row`line, row`fields, row`mapData
      ensures Fits()
      ensures stream == null || stream == old(stream)
      ensures At(this, old(RowLines()), row.columns, old(row.mapData))
    {
      GetlineDelivers(stream.State(), row.line, '\n');
      ParseLineStripped(Extract(stream.State(), row.line, '\n').line);
      row.Next(stream);
      if stream.fail {
        stream := null;
      }
    }

    /** operator++: header first if it is still due, then one row; at the end the stream is dropped. */
    method Advance()
      requires Fits()
      modifies this, stream, row
      ensures Fits()
      ensures stream == null || stream == old(stream)
      ensures old(stream) == null ==> stream == null && unchanged(row)
      ensures old(stream) != null ==>
        At(this, old(RowLines()), old(if stream == null then [] else NextColumns()), old(row.mapData))
    {
      if stream != null {
        if hasHeader {
          ReadHeader();
        }
        ReadRow();
      }
    }

    /** operator==: the same object, or both at the end. */
    predicate Equals(rhs: CSVIterator)
      reads this, rhs
    {
      this == rhs || (stream == null && rhs.stream == null)
    }
  }

  /** An iterator on the first of these row lines: it has been parsed, the others are still due. */
  ghost predicate OnRow(it: CSVIterator, lines: seq<string>, columns: seq<string>)
    requires lines != []
    reads it, it.stream, it.row`columns, it.row`fields
  {
    && it.stream != null && !it.hasHeader && it.RowLines() == lines[1..]
    && it.row.columns == columns
    && it.row.fields == ParseLine(lines[0]) && |it.row.fields| <= |columns|
  }

  /** Where an iterator stands once the row lines still due were lines: at the end if there
      were none, else on the first of them, its fields stored over the values base. */
  ghost predicate At(it: CSVIterator, lines: seq<string>, columns: seq<string>, base: Values)
    reads it, it.row, it.stream
  {
    if lines == [] then it.stream == null
    else OnRow(it, lines, columns) && it.row.mapData == Store(base, columns, it.row.fields)
  }

  /** ++ on an iterator that stands on a row, whose values may have been worked on. */
  method NextRow(it: CSVIterator, ghost lines: seq<string>, ghost names: seq<string>)
    requires lines != [] && OnRow(it, lines, names) && it.Fits()
    modifies it, it.stream, it.row
    ensures it.Fits() && (it.stream == null || it.stream == old(it.stream))
    ensures At(it, lines[1..], names, old(it.row.mapData))
  {
    it.Advance();
  }
}
