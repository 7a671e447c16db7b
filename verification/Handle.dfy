/** CsvProcessor::handle: claim a file by renaming it, run its rows, rename it again. */
module Handle {
  import opened Basics
  import opened CsvLine
  import opened Stream
  import opened CsvReader
  import opened Transformers
  import opened RowIndependence
  import opened Schema
  import opened Publish
  import opened FileSystem

  /** What stays fixed while one file is handled; clock gives the time at each row. */
  datatype Context = Context(columns: seq<string>, actions: seq<Action>, topics: seq<SchemaConfig>,
                             limit: AgeLimit, env: Env, clock: nat -> int)
  {
    function EnvAt(k: nat): Env { env.(now := clock(k)) }
  }

  /** What became of the rows of a file so far, and what the producer was handed and will answer. */
  datatype Tally = Tally(published: nat, aged: nat, raised: nat, retrying: bool,
                         log: seq<Attempt>, results: seq<ErrorCode>)
  {
    function Visited(): nat { published + aged + raised + if retrying then 1 else 0 }

    /** One more row, for which publish returned p. */
    function Count(p: Published): Tally {
      Tally(published + if p.outcome == Completed then 1 else 0, aged + if p.outcome == TooOld then 1 else 0,
            raised + if p.outcome == Exception then 1 else 0, p.outcome == Retrying, log + p.log, p.results)
    }

    /** The loop is left by the exception budget, or stuck in a retry. */
    predicate Stops() { retrying || raised > EXCEPTION_BUDGET }
  }

  function PublishAt(ctx: Context, k: nat, row: Values, results: seq<ErrorCode>): Published
    requires ValidTopics(ctx.topics)
  {
    PublishFrom(ctx.topics, row, ctx.limit, ctx.EnvAt(k), [], results)
  }

  /** The row loop: lines are those still due, the first of them row k of the file, base the values
      the row object holds from earlier lines, done the counts so far. */
  function RunRows(ctx: Context, lines: seq<string>, k: nat, base: Values, done: Tally): Tally
    requires ValidTopics(ctx.topics) && FitLines(lines, |ctx.columns|)
    decreases lines
  {
    if lines == [] then done
    else
      assert lines[0] in lines;
      var m := ActAll(ctx.actions, Store(base, ctx.columns, ParseLine(lines[0])));
      var counted := done.Count(PublishAt(ctx, k, m, done.results));
      if counted.Stops() then counted else RunRows(ctx, lines[1..], k + 1, m, counted)
  }

  /** The same loop with a row object of its own for every line. */
  function RunFresh(ctx: Context, lines: seq<string>, k: nat, done: Tally): Tally
    requires ValidTopics(ctx.topics) && FitLines(lines, |ctx.columns|)
    decreases lines
  {
    if lines == [] then done
    else
      assert lines[0] in lines;
      var m := FreshRow(ctx.columns, ParseLine(lines[0]), ctx.actions);
      var counted := done.Count(PublishAt(ctx, k, m, done.results));
      if counted.Stops() then counted else RunFresh(ctx, lines[1..], k + 1, counted)
  }

  lemma {:induction false} DataSame(c: SchemaConfig, columns: seq<string>, m: Values, n: Values, env: Env)
    requires SameValues(m, n)
    ensures DataOf(c, columns, m, env) == DataOf(c, columns, n, env)
    decreases columns
  {
    if columns != [] {
      ColumnSame(c, columns[0], m, n, None, env);
      DataSame(c, columns[1..], m, n, env);
    }
  }

  /** publish sees a row only through the values of its columns. */
  lemma {:induction false} PublishSame(topics: seq<SchemaConfig>, m: Values, n: Values, limit: AgeLimit, env: Env,
                                       bytes: seq<Framing.byte>, results: seq<ErrorCode>)
    requires ValidTopics(topics) && SameValues(m, n)
    ensures PublishFrom(topics, m, limit, env, bytes, results) == PublishFrom(topics, n, limit, env, bytes, results)
    decreases topics
  {
    if topics != [] {
      var c := topics[0];
      assert c in topics;
      VerdictSame(c, c.columns, m, n, limit, env);
      DataSame(c, c.columns, m, n, env);
      assert Get(m, c.keyColumn) == Get(n, c.keyColumn);
      PublishSame(topics[1..], m, n, limit, env, bytes, results);
      if Encoded(c, m, env).Some? {
        PublishSame(topics[1..], m, n, limit, env,
                    bytes + Framing.Frame(c.schemaId, Encoded(c, m, env).value), AfterProduce(results));
      }
    }
  }

  lemma {:induction false} RunRowsSame(ctx: Context, lines: seq<string>, k: nat, m: Values, n: Values, done: Tally)
    requires ValidTopics(ctx.topics) && FitLines(lines, |ctx.columns|) && SameValues(m, n)
    ensures RunRows(ctx, lines, k, m, done) == RunRows(ctx, lines, k, n, done)
    decreases lines
  {
    if lines != [] {
      assert lines[0] in lines;
      var x, y := Store(m, ctx.columns, ParseLine(lines[0])), Store(n, ctx.columns, ParseLine(lines[0]));
      StoreRespects(m, n, ctx.columns, ParseLine(lines[0]));
      ActAllRespects(ctx.actions, x, y);
      PublishSame(ctx.topics, ActAll(ctx.actions, x), ActAll(ctx.actions, y), ctx.limit, ctx.EnvAt(k), [],
                  done.results);
      var counted := done.Count(PublishAt(ctx, k, ActAll(ctx.actions, x), done.results));
      RunRowsSame(ctx, lines[1..], k + 1, ActAll(ctx.actions, x), ActAll(ctx.actions, y), counted);
    }
  }

  /** A file whose lines all have header width, with a chain that sets the columns outside the header
      it leaves filled before it reads them, is handled as if every line had been parsed into a row of its own: no line
      affects another, except through the exception budget and the producer. */
  lemma {:induction false} FileRowsIndependent(ctx: Context, lines: seq<string>, k: nat, base: Values, done: Tally)
    requires ValidTopics(ctx.topics) && forall l <- lines :: |ParseLine(l)| == |ctx.columns|
    requires OnlyKnown(base, ctx.columns, Scratch(ctx.actions, ctx.columns)) && ReusableChain(ctx.actions, ctx.columns)
    ensures RunRows(ctx, lines, k, base, done) == RunFresh(ctx, lines, k, done)
    decreases lines
  {
    if lines != [] {
      assert lines[0] in lines;
      var fields := ParseLine(lines[0]);
      var m := ActAll(ctx.actions, Store(base, ctx.columns, fields));
      OneLine(base, ctx.columns, fields, ctx.actions);
      PublishSame(ctx.topics, m, FreshRow(ctx.columns, fields, ctx.actions), ctx.limit, ctx.EnvAt(k), [], done.results);
      FileRowsIndependent(ctx, lines[1..], k + 1, m, done.Count(PublishAt(ctx, k, m, done.results)));
    }
  }

  /** Of due rows: every visited row was published, dropped as old, or raised (or is being retried,
      the last one); at most 14 raise in all, and rows stay unvisited only when 14 have raised or
      the last one visited is still being retried. */
  predicate Accounted(before: Tally, t: Tally, due: nat) {
    && t.raised <= 14
    && before.Visited() <= t.Visited() <= before.Visited() + due
    && (t.retrying ==> t.raised <= 13)
    && (t.Visited() < before.Visited() + due ==> t.retrying || t.raised == 14)
  }

  lemma CountAccounted(done: Tally, p: Published, due: nat)
    requires due > 0 && !done.Stops()
    ensures var t := done.Count(p);
      t.Visited() == done.Visited() + 1 && (t.Stops() ==> Accounted(done, t, due))
  {
  }

  lemma {:induction false} RowAccounting(ctx: Context, lines: seq<string>, k: nat, base: Values, done: Tally)
    requires ValidTopics(ctx.topics) && FitLines(lines, |ctx.columns|) && !done.Stops()
    ensures Accounted(done, RunRows(ctx, lines, k, base, done), |lines|)
    decreases lines
  {
    if lines != [] {
      assert lines[0] in lines;
      var m := ActAll(ctx.actions, Store(base, ctx.columns, ParseLine(lines[0])));
      var p := PublishAt(ctx, k, m, done.results);
      CountAccounted(done, p, |lines|);
      if !done.Count(p).Stops() {
        RowAccounting(ctx, lines[1..], k + 1, m, done.Count(p));
      }
    }
  }

  lemma RunRowsTurn(ctx: Context, lines: seq<string>, k: nat, base: Values, done: Tally, m: Values, counted: Tally)
    requires ValidTopics(ctx.topics) && lines != [] && FitLines(lines, |ctx.columns|)
    requires |ParseLine(lines[0])| <= |ctx.columns|
    requires m == ActAll(ctx.actions, Store(base, ctx.columns, ParseLine(lines[0])))
    requires counted == done.Count(PublishAt(ctx, k, m, done.results))
    ensures FitLines(lines[1..], |ctx.columns|)
    ensures RunRows(ctx, lines, k, base, done)
         == if counted.Stops() then counted else RunRows(ctx, lines[1..], k + 1, m, counted)
  {
  }

  lemma RunFreshTurn(ctx: Context, lines: seq<string>, k: nat, done: Tally, counted: Tally)
    requires ValidTopics(ctx.topics) && lines != [] && FitLines(lines, |ctx.columns|)
    requires |ParseLine(lines[0])| <= |ctx.columns| && FitLines(lines[1..], |ctx.columns|)
    requires counted
          == done.Count(PublishAt(ctx, k, FreshRow(ctx.columns, ParseLine(lines[0]), ctx.actions), done.results))
    ensures RunFresh(ctx, lines, k, done)
         == if counted.Stops() then counted else RunFresh(ctx, lines[1..], k + 1, counted)
  {
  }

  /** The first turn of the loop on the first v due lines. */
  lemma PrefixTurn(ctx: Context, lines: seq<string>, v: nat, k: nat, base: Values, done: Tally, m: Values,
                   counted: Tally)
    requires ValidTopics(ctx.topics) && FitLines(lines, |ctx.columns|) && 0 < v <= |lines|
    requires |ParseLine(lines[0])| <= |ctx.columns|
    requires m == ActAll(ctx.actions, Store(base, ctx.columns, ParseLine(lines[0])))
    requires counted == done.Count(PublishAt(ctx, k, m, done.results))
    ensures FitLines(lines[..v], |ctx.columns|) && FitLines(lines[1..][..v - 1], |ctx.columns|)
    ensures RunRows(ctx, lines[..v], k, base, done)
         == if counted.Stops() then counted else RunRows(ctx, lines[1..][..v - 1], k + 1, m, counted)
  {
    assert lines[..v][1..] == lines[1..][..v - 1];
  }

  /** The counts cover the lines the loop reaches, one each: it comes out the same on exactly that many
      of the due lines, whatever the others are. */
  lemma {:induction false} ReachesVisited(ctx: Context, lines: seq<string>, k: nat, base: Values, done: Tally, v: nat)
    requires ValidTopics(ctx.topics) && FitLines(lines, |ctx.columns|) && !done.Stops()
    requires done.Visited() + v == RunRows(ctx, lines, k, base, done).Visited()
    ensures v <= |lines| && FitLines(lines[..v], |ctx.columns|)
    ensures RunRows(ctx, lines[..v], k, base, done) == RunRows(ctx, lines, k, base, done)
    decreases lines
  {
    if lines != [] {
      assert lines[0] in lines;
      var m := ActAll(ctx.actions, Store(base, ctx.columns, ParseLine(lines[0])));
      var counted := done.Count(PublishAt(ctx, k, m, done.results));
      CountAccounted(done, PublishAt(ctx, k, m, done.results), |lines|);
      if !counted.Stops() {
        RowAccounting(ctx, lines[1..], k + 1, m, counted);
        ReachesVisited(ctx, lines[1..], k + 1, m, counted, v - 1);
      }
      PrefixTurn(ctx, lines, v, k, base, done, m, counted);
    }
  }

  // The loop over the real row object

  ghost predicate Runs(transformers: seq<Transformer>, actions: seq<Action>)
    reads if transformers == [] then {} else transformers[0].Repr
  {
    |transformers| <= 1
    && (if transformers == [] then actions == []
        else transformers[0].Valid() && transformers[0].Actions() == actions)
  }

  /** The try block: transform the row in place, then publish it. */
  method ProcessRow(ctx: Context, k: nat, transformers: seq<Transformer>, row: CSVRow, littleHost: bool,
                    producer: Producer, oldCount: nat)
    returns (outcome: Outcome, newCount: nat)
    requires ValidTopics(ctx.topics) && Runs(transformers, ctx.actions)
    modifies row`mapData, producer
    ensures var m := ActAll(ctx.actions, old(row.mapData));
      var p := PublishAt(ctx, k, m, old(producer.results));
      && SameValues(row.mapData, m) && outcome == p.outcome
      && producer.log == old(producer.log) + p.log && producer.results == p.results
    ensures newCount == oldCount + if outcome == TooOld then 1 else 0
  {
    ghost var m := ActAll(ctx.actions, row.mapData);
    for i := 0 to |transformers|
      invariant Runs(transformers, ctx.actions) && unchanged(producer)
      invariant row.mapData == if i == 0 then old(row.mapData) else m
    {
      transformers[i].Operation(row);
    }
    var signals;
    outcome, newCount, signals := PublishRow(ctx.topics, row, ctx.limit, ctx.EnvAt(k), littleHost, producer, oldCount);
  }

  /** The ++, unless the loop is left; the transformers are not touched by it. */
  method NextUnless(leave: bool, it: CSVIterator, ghost lines: seq<string>, ghost names: seq<string>,
                    ghost transformers: seq<Transformer>, ghost actions: seq<Action>)
    requires lines != [] && OnRow(it, lines, names) && it.Fits() && Runs(transformers, actions)
    modifies it, it.stream, it.row
    ensures it.Fits() && (it.stream == null || it.stream == old(it.stream)) && Runs(transformers, actions)
    ensures if leave then it.RowLines() == lines[1..] else At(it, lines[1..], names, old(it.row.mapData))
  {
    if !leave {
      CsvReader.NextRow(it, lines, names);
    }
  }

  /** The row loop from a row whose values have already been transformed and published, up to
      default insertions, on. */
  lemma RunRowsTail(ctx: Context, lines: seq<string>, k: nat, base: Values, done: Tally, fields: seq<string>,
                    m: Values, after: Values, counted: Tally)
    requires ValidTopics(ctx.topics) && lines != [] && FitLines(lines, |ctx.columns|)
    requires fields == ParseLine(lines[0]) && |fields| <= |ctx.columns| && FitLines(lines[1..], |ctx.columns|)
    requires m == ActAll(ctx.actions, Store(base, ctx.columns, fields)) && SameValues(after, m)
    requires counted == done.Count(PublishAt(ctx, k, m, done.results))
    ensures RunRows(ctx, lines, k, base, done)
         == if counted.Stops() then counted else RunRows(ctx, lines[1..], k + 1, after, counted)
  {
    RunRowsSame(ctx, lines[1..], k + 1, after, m, counted);
  }

  lemma FitTail(lines: seq<string>, width: nat)
    requires lines != [] && FitLines(lines, width)
    ensures |ParseLine(lines[0])| <= width && FitLines(lines[1..], width)
  {
    assert lines[0] in lines;
  }

  /** The bookkeeping of the catch block; leave tells whether the loop is left. */
  method CountOutcome(outcome: Outcome, published: nat, exc: nat)
    returns (newPublished: nat, newExc: nat, retrying: bool, leave: bool)
    ensures newPublished == published + if outcome == Completed then 1 else 0
    ensures newExc == exc + if outcome == Exception then 1 else 0
    ensures retrying <==> outcome == Retrying
    ensures exc <= EXCEPTION_BUDGET ==> (leave <==> retrying || newExc > EXCEPTION_BUDGET)
  {
    newPublished, newExc, retrying, leave := published, exc, false, false;
    match outcome {
      case Completed => newPublished := published + 1;
      case TooOld =>
      case Exception =>
        newExc := exc + 1;
        leave := newExc > EXCEPTION_BUDGET;
      case Retrying =>
        retrying, leave := true, true;
    }
  }

  /** The try and catch blocks on the current row. */
  method VisitRow(ctx: Context, k: nat, row: CSVRow, transformers: seq<Transformer>, littleHost: bool,
                  producer: Producer, published: nat, oldCount: nat, exc: nat, ghost m: Values, ghost counted: Tally)
    returns (newPublished: nat, newOld: nat, newExc: nat, retrying: bool, leave: bool)
    requires ValidTopics(ctx.topics) && Runs(transformers, ctx.actions) && exc <= EXCEPTION_BUDGET
    requires m == ActAll(ctx.actions, row.mapData)
    requires var done := Tally(published, oldCount, exc, false, producer.log, producer.results);
      counted == done.Count(PublishAt(ctx, k, m, producer.results))
    modifies row`mapData, producer
    ensures SameValues(row.mapData, m)
    ensures counted == Tally(newPublished, newOld, newExc, retrying, producer.log, producer.results)
    ensures leave == counted.Stops()
    ensures newPublished + newOld + newExc + (if retrying then 1 else 0) == published + oldCount + exc + 1
  {
    var outcome;
    outcome, newOld := ProcessRow(ctx, k, transformers, row, littleHost, producer, oldCount);
    newPublished, newExc, retrying, leave := CountOutcome(outcome, published, exc);
  }

  /** One turn of the row loop, up to ++. */
  method RowTurn(ctx: Context, k: nat, row: CSVRow, transformers: seq<Transformer>, littleHost: bool,
                 producer: Producer, published: nat, oldCount: nat, exc: nat,
                 ghost todo: seq<string>, ghost base: Values)
    returns (newPublished: nat, newOld: nat, newExc: nat, retrying: bool, leave: bool)
    requires ValidTopics(ctx.topics) && Runs(transformers, ctx.actions) && exc <= EXCEPTION_BUDGET
    requires todo != [] && FitLines(todo, |ctx.columns|)
    requires row.fields == ParseLine(todo[0]) && |row.fields| <= |ctx.columns|
    requires row.mapData == Store(base, ctx.columns, row.fields)
    modifies row`mapData, producer
    ensures Runs(transformers, ctx.actions) && FitLines(todo[1..], |ctx.columns|)
    ensures var counted := Tally(newPublished, newOld, newExc, retrying, producer.log, producer.results);
      && leave == counted.Stops()
      && RunRows(ctx, todo, k, base, Tally(published, oldCount, exc, false, old(producer.log), old(producer.results)))
         == if leave then counted else RunRows(ctx, todo[1..], k + 1, row.mapData, counted)
    ensures newPublished + newOld + newExc + (if retrying then 1 else 0) == published + oldCount + exc + 1
  {
    FitTail(todo, |ctx.columns|);
    ghost var done := Tally(published, oldCount, exc, false, producer.log, producer.results);
    ghost var m := ActAll(ctx.actions, row.mapData);
    ghost var counted := done.Count(PublishAt(ctx, k, m, producer.results));
    newPublished, newOld, newExc, retrying, leave :=
      VisitRow(ctx, k, row, transformers, littleHost, producer, published, oldCount, exc, m, counted);
    RunRowsTail(ctx, todo, k, base, done, row.fields, m, row.mapData, counted);
  }

  /** The row loop after visited turns, todo still due: what it has counted and what it still does make up total. */
  ghost predicate LoopState(ctx: Context, todo: seq<string>, visited: nat, base: Values, done: Tally, total: Tally)
    requires ValidTopics(ctx.topics)
  {
    && FitLines(todo, |ctx.columns|) && done.Visited() == visited && !done.Stops()
    && total == RunRows(ctx, todo, visited, base, done)
  }

  /** One turn of the loop up to ++, counted. */
  method CountedTurn(ctx: Context, row: CSVRow, transformers: seq<Transformer>, littleHost: bool, producer: Producer,
                     published: nat, oldCount: nat, exc: nat, visited: nat,
                     ghost todo: seq<string>, ghost base: Values, ghost done: Tally, ghost total: Tally)
    returns (newPublished: nat, newOld: nat, newExc: nat, retrying: bool, leave: bool, ghost newBase: Values,
             ghost counted: Tally)
    requires ValidTopics(ctx.topics) && Runs(transformers, ctx.actions)
    requires done == Tally(published, oldCount, exc, false, producer.log, producer.results)
    requires LoopState(ctx, todo, visited, base, done, total) && todo != []
    requires row.fields == ParseLine(todo[0]) && |row.fields| <= |ctx.columns|
    requires row.mapData == Store(base, ctx.columns, row.fields)
    modifies row`mapData, producer
    ensures Runs(transformers, ctx.actions) && newBase == row.mapData
    ensures counted == Tally(newPublished, newOld, newExc, retrying, producer.log, producer.results)
    ensures if leave then counted.Visited() == visited + 1 && total == counted
            else !retrying && LoopState(ctx, todo[1..], visited + 1, newBase, counted, total)
  {
    newPublished, newOld, newExc, retrying, leave :=
      RowTurn(ctx, visited, row, transformers, littleHost, producer, published, oldCount, exc, todo, base);
    newBase := row.mapData;
    counted := Tally(newPublished, newOld, newExc, retrying, producer.log, producer.results);
  }

  /** One turn with the ++ that follows it. */
  method RowTurnAndNext(ctx: Context, it: CSVIterator, transformers: seq<Transformer>, littleHost: bool,
                        producer: Producer, published: nat, oldCount: nat, exc: nat, visited: nat,
                        ghost todo: seq<string>, ghost base: Values, ghost done: Tally, ghost total: Tally)
    returns (newPublished: nat, newOld: nat, newExc: nat, retrying: bool, leave: bool, ghost newBase: Values,
             ghost counted: Tally)
    requires ValidTopics(ctx.topics) && Runs(transformers, ctx.actions) && it.Fits()
    requires done == Tally(published, oldCount, exc, false, producer.log, producer.results)
    requires LoopState(ctx, todo, visited, base, done, total)
    requires todo != [] && At(it, todo, ctx.columns, base)
    modifies it, it.stream, it.row, producer
    ensures Runs(transformers, ctx.actions) && it.Fits() && (it.stream == null || it.stream == old(it.stream))
    ensures counted == Tally(newPublished, newOld, newExc, retrying, producer.log, producer.results)
    ensures if leave then counted.Visited() == visited + 1 && total == counted
            else !retrying && LoopState(ctx, todo[1..], visited + 1, newBase, counted, total)
    ensures if leave then it.RowLines() == todo[1..] else At(it, todo[1..], ctx.columns, newBase)
  {
    newPublished, newOld, newExc, retrying, leave, newBase, counted :=
      CountedTurn(ctx, it.row, transformers, littleHost, producer, published, oldCount, exc, visited, todo, base,
                  done, total);
    NextUnless(leave, it, todo, ctx.columns, transformers, ctx.actions);
  }

  /** for (auto &row : CSVRange(file, true)). visited counts the turns of the loop: it is the sum of what
      became of the rows, and the lines after the first visited ones are those the iterator has not read. */
  method RunLoop(ctx: Context, it: CSVIterator, end: CSVIterator, transformers: seq<Transformer>, littleHost: bool,
                 producer: Producer, ghost lines: seq<string>)
    returns (published: nat, oldCount: nat, exc: nat, retrying: bool, visited: nat)
    requires ValidTopics(ctx.topics) && Runs(transformers, ctx.actions) && FitLines(lines, |ctx.columns|)
    requires it.Fits() && At(it, lines, ctx.columns, map[]) && end.stream == null && it != end
    modifies it, it.stream, it.row, producer
    ensures Tally(published, oldCount, exc, retrying, producer.log, producer.results)
         == RunRows(ctx, lines, 0, map[], Tally(0, 0, 0, false, old(producer.log), old(producer.results)))
    ensures visited == published + oldCount + exc + if retrying then 1 else 0
    ensures visited <= |lines| && it.RowLines() == lines[visited..]
  {
    published, oldCount, exc, retrying, visited := 0, 0, 0, false, 0;
    ghost var base, done, todo := map[], Tally(0, 0, 0, false, producer.log, producer.results), lines;
    ghost var total := RunRows(ctx, lines, 0, base, done);
    while !it.Equals(end)
      invariant it.Fits() && (it.stream == null || it.stream == old(it.stream))
      invariant Runs(transformers, ctx.actions) && !retrying
      invariant done == Tally(published, oldCount, exc, retrying, producer.log, producer.results)
      invariant LoopState(ctx, todo, visited, base, done, total)
      invariant At(it, todo, ctx.columns, base)
      invariant visited <= |lines| && todo == lines[visited..]
      decreases |todo|
    {
      var leave;
      published, oldCount, exc, retrying, leave, base, done :=
        RowTurnAndNext(ctx, it, transformers, littleHost, producer, published, oldCount, exc, visited, todo, base,
                       done, total);
      TakeNext(lines, visited);
      visited, todo := visited + 1, todo[1..];
      if leave {
        return;
      }
    }
  }

  // The file

  /** The context of a file: its header decides the columns. */
  function ForFile(ctx: Context, content: string): Context {
    ctx.(columns := Columns(HeaderOf(Pieces(content, '\n'))))
  }

  /** The row counts and the messages t of a file's content, started from start; visited lines were reached,
      and the counts and messages are theirs. */
  ghost predicate ContentHandled(ctx: Context, content: string, start: Tally, t: Tally, visited: nat)
    requires ValidTopics(ctx.topics)
  {
    var file, lines := ForFile(ctx, content), RowsOf(Pieces(content, '\n'));
    && FitLines(lines, |file.columns|) && t == RunRows(file, lines, 0, map[], start)
    && Accounted(start, t, |lines|) && t.Visited() == start.Visited() + visited
    && visited <= |lines| && FitLines(lines[..visited], |file.columns|)
    && t == RunRows(file, lines[..visited], 0, map[], start)
  }

  /** begin() and end() of CSVRange(file, true). */
  method OpenRows(content: string, ghost lines: seq<string>, ghost columns: seq<string>)
    returns (it: CSVIterator, end: CSVIterator)
    requires lines == RowsOf(Pieces(content, '\n')) && columns == Columns(HeaderOf(Pieces(content, '\n')))
    requires FitLines(lines, |columns|)
    ensures fresh(it) && fresh(it.row) && (it.stream != null ==> fresh(it.stream))
    ensures it.Fits() && At(it, lines, columns, map[]) && end.stream == null && it != end
  {
    var s := new IStream(content);
    assert Pending(s.State(), '\n') == Pieces(content, '\n');
    it := new CSVIterator.Begin(s, true);
    end := new CSVIterator.End();
  }

  /** Opens the file and runs its row loop. */
  method RunContent(content: string, file: Context, transformers: seq<Transformer>, littleHost: bool,
                    producer: Producer, ghost lines: seq<string>)
    returns (published: nat, oldCount: nat, exc: nat, retrying: bool, visited: nat)
    requires ValidTopics(file.topics) && Runs(transformers, file.actions) && FitLines(lines, |file.columns|)
    requires lines == RowsOf(Pieces(content, '\n')) && file.columns == Columns(HeaderOf(Pieces(content, '\n')))
    modifies producer
    ensures Tally(published, oldCount, exc, retrying, producer.log, producer.results)
         == RunRows(file, lines, 0, map[], Tally(0, 0, 0, false, old(producer.log), old(producer.results)))
    ensures visited == published + oldCount + exc + (if retrying then 1 else 0) <= |lines|
  {
    var it, end := OpenRows(content, lines, file.columns);
    published, oldCount, exc, retrying, visited := RunLoop(file, it, end, transformers, littleHost, producer, lines);
  }

  /** The rows of one claimed file. */
  method HandleContent(content: string, ctx: Context, transformers: seq<Transformer>, littleHost: bool,
                       producer: Producer)
    returns (published: nat, oldCount: nat, exc: nat, retrying: bool, visited: nat)
    requires ValidTopics(ctx.topics) && Runs(transformers, ctx.actions) && FitText(Pieces(content, '\n'))
    modifies producer
    ensures ContentHandled(ctx, content, Tally(0, 0, 0, false, old(producer.log), old(producer.results)),
                           Tally(published, oldCount, exc, retrying, producer.log, producer.results), visited)
  {
    ghost var lines, start := RowsOf(Pieces(content, '\n')), Tally(0, 0, 0, false, producer.log, producer.results);
    var file := ForFile(ctx, content);
    published, oldCount, exc, retrying, visited := RunContent(content, file, transformers, littleHost, producer, lines);
    RowAccounting(file, lines, 0, map[], start);
    ReachesVisited(file, lines, 0, map[], start, visited);
  }

  /** handle, from the claim to the finish: exactly one of two things happens. Either the path did not
      exist, and nothing at all is changed; or its content ends under the done name, whatever its rows
      did, and the row counts and messages are those of the row loop over its lines. */
  method HandleFile(path: string, fs: Directory, ctx: Context, transformers: seq<Transformer>, littleHost: bool,
                    producer: Producer)
    returns (claimed: bool, published: nat, oldCount: nat, exc: nat, retrying: bool, visited: nat)
    requires ValidTopics(ctx.topics) && Runs(transformers, ctx.actions)
    requires path in fs.files ==> FitText(Pieces(fs.files[path], '\n'))
    modifies fs, producer
    ensures claimed <==> path in old(fs.files)
    ensures !claimed ==> fs.files == old(fs.files) && unchanged(producer)
    ensures claimed ==> fs.files == if retrying then Claimed(old(fs.files), path) else Finished(old(fs.files), path)
    ensures claimed ==>
      ContentHandled(ctx, old(fs.files)[path], Tally(0, 0, 0, false, old(producer.log), old(producer.results)),
                     Tally(published, oldCount, exc, retrying, producer.log, producer.results), visited)
  {
    claimed, published, oldCount, exc, retrying, visited := false, 0, 0, 0, false, 0;
    var tmp := InProgress(path);
    claimed := fs.Rename(path, tmp);
    if claimed {
      var file := fs.files[tmp];
      published, oldCount, exc, retrying, visited := HandleContent(file, ctx, transformers, littleHost, producer);
      if !retrying {
        var _ := fs.Rename(tmp, Done(path));
      }
    }
  }
}
