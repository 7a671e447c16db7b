/** From the text of a printed table, through reader, transformer chain and publish, to the messages. */
module EndToEnd {
  import opened CsvLine
  import opened Stream
  import opened CsvReader
  import opened CsvTable
  import opened RowIndependence
  import opened Publish
  import opened Handle

  /** What a table means to the pipeline: its records one after the other, each turned into column values
      by name, transformed and published on its own, until the exception budget is spent. */
  function RunRecords(ctx: Context, records: seq<seq<string>>, k: nat, done: Tally): Tally
    requires ValidTopics(ctx.topics) && FitRows(records, |ctx.columns|)
    decreases records
  {
    if records == [] then done
    else
      assert records[0] in records;
      var counted := done.Count(PublishAt(ctx, k, FreshRow(ctx.columns, records[0], ctx.actions), done.results));
      if counted.Stops() then counted else RunRecords(ctx, records[1..], k + 1, counted)
  }

  lemma RunRecordsTurn(ctx: Context, records: seq<seq<string>>, k: nat, done: Tally, counted: Tally)
    requires ValidTopics(ctx.topics) && FitRows(records, |ctx.columns|) && records != []
    requires |records[0]| <= |ctx.columns| && FitRows(records[1..], |ctx.columns|)
    requires counted == done.Count(PublishAt(ctx, k, FreshRow(ctx.columns, records[0], ctx.actions), done.results))
    ensures RunRecords(ctx, records, k, done)
         == if counted.Stops() then counted else RunRecords(ctx, records[1..], k + 1, counted)
  {
  }

  lemma ParsedTail(lines: seq<string>, width: nat)
    requires lines != [] && FitLines(lines, width)
    ensures |ParseLine(lines[0])| <= width && FitLines(lines[1..], width) && FitRows(ParseRows(lines[1..]), width)
    ensures ParseRows(lines)[0] == ParseLine(lines[0]) && ParseRows(lines)[1..] == ParseRows(lines[1..])
  {
    FitTail(lines, width);
    FitParsed(lines[1..], width);
  }

  lemma {:induction false} RunParsed(ctx: Context, lines: seq<string>, k: nat, done: Tally)
    requires ValidTopics(ctx.topics) && FitLines(lines, |ctx.columns|) && FitRows(ParseRows(lines), |ctx.columns|)
    ensures RunFresh(ctx, lines, k, done) == RunRecords(ctx, ParseRows(lines), k, done)
    decreases lines
  {
    if lines != [] {
      ParsedTail(lines, |ctx.columns|);
      var fields := ParseLine(lines[0]);
      var counted := done.Count(PublishAt(ctx, k, FreshRow(ctx.columns, fields, ctx.actions), done.results));
      RunFreshTurn(ctx, lines, k, done, counted);
      RunRecordsTurn(ctx, ParseRows(lines), k, done, counted);
      RunParsed(ctx, lines[1..], k + 1, counted);
    }
  }

  /** Handling a file that holds a table printed as section 2 of RFC 4180 allows, without line breaks inside
      its fields, is handling its records: neither quoting, nor line breaks, nor the reuse of one row object, nor
      the text of other records can be told from the counts and the messages. */
  lemma PrintedTableHandled(ctx: Context, names: seq<string>, crlf: bool, rows: seq<Record>, start: Tally)
    requires ValidTopics(ctx.topics) && ctx.columns == names
    requires names != [] && (forall n <- names :: PlainName(n))
    requires forall r <- rows :: r.Legal(|names|) && r.Unbroken()
    requires ReusableChain(ctx.actions, names)
    ensures var text := PrintTable(names, crlf, rows);
      && ForFile(ctx, text) == ctx && FitText(Pieces(text, '\n')) && FitRows(TableTexts(rows), |names|)
      && RunRows(ctx, RowsOf(Pieces(text, '\n')), 0, map[], start) == RunRecords(ctx, TableTexts(rows), 0, start)
  {
    var lines := RowsOf(Pieces(PrintTable(names, crlf, rows), '\n'));
    TableRoundTrip(names, crlf, rows);
    TableWidth(names, crlf, rows);
    TextsWidth(rows, |names|);
    FileRowsIndependent(ctx, lines, 0, map[], start);
    RunParsed(ctx, lines, 0, start);
  }
}
