/** What handle makes of a line, in terms of the configured age limit, the clock and publish. */
module HandleMeaning {
  import opened CsvLine
  import opened CsvReader
  import opened Transformers
  import opened Publish
  import opened PublishFacts
  import opened Handle

  /** The counts and messages after a row that publish has ended as p. */
  function Added(done: Tally, p: Published): Tally {
    match p.outcome
    case Completed => done.(published := done.published + 1, log := done.log + p.log, results := p.results)
    case TooOld => done.(aged := done.aged + 1, log := done.log + p.log, results := p.results)
    case Exception => done.(raised := done.raised + 1, log := done.log + p.log, results := p.results)
    case Retrying => done.(retrying := true, log := done.log + p.log, results := p.results)
  }

  /** The first line is stored over what the row held, transformed, and published under the configured limit at
      its own time; the loop is left at the 14th exception or stuck in a retry, and goes on otherwise. */
  lemma LineMeans(ctx: Context, lines: seq<string>, k: nat, base: Values, done: Tally, m: Values, p: Published)
    requires ValidTopics(ctx.topics) && lines != [] && FitLines(lines, |ctx.columns|) && !done.Stops()
    requires |ParseLine(lines[0])| <= |ctx.columns| && FitLines(lines[1..], |ctx.columns|)
    requires m == ActAll(ctx.actions, Store(base, ctx.columns, ParseLine(lines[0])))
    requires p == PublishFrom(ctx.topics, m, ctx.limit, ctx.env.(now := ctx.clock(k)), [], done.results)
    ensures RunRows(ctx, lines, k, base, done)
         == if p.outcome == Retrying || (p.outcome == Exception && done.raised == 13) then Added(done, p)
            else RunRows(ctx, lines[1..], k + 1, m, Added(done, p))
  {
    AddedIsCount(done, p);
    RunRowsTurn(ctx, lines, k, base, done, m, Added(done, p));
  }

  lemma AddedIsCount(done: Tally, p: Published)
    requires !done.Stops()
    ensures Added(done, p) == done.Count(p)
    ensures Added(done, p).Stops() <==> p.outcome == Retrying || (p.outcome == Exception && done.raised == 13)
  {
  }

  // The age limit in a file

  /** What row k meets: the clock stands at its time. */
  function EnvOf(ctx: Context, k: nat): Env { ctx.env.(now := ctx.clock(k)) }

  /** The timestamp of the row can be read and lies over the configured limit at the clock of row k. */
  predicate OverLimit(ctx: Context, k: nat, m: Values, ageColumn: string) {
    && ctx.limit.Some? && ctx.env.conv.stol(Get(m, ageColumn)).Some?
    && MaxAge.TooOld(ctx.clock(k), ctx.env.conv.stol(Get(m, ageColumn)).value, ctx.limit.value.1)
  }

  /** n is the first topic with the age column, if any has it; nothing fails up to the topic where the row stops. */
  ghost predicate Clean(ctx: Context, k: nat, m: Values, ageColumn: string, n: nat, stop: nat,
                        results: seq<ErrorCode>) {
    && n <= |ctx.topics| && stop == (if OverLimit(ctx, k, m, ageColumn) then n else |ctx.topics|)
    && Smooth(ctx.topics, 0, stop, m, EnvOf(ctx, k), results)
    && (forall i | 0 <= i < |ctx.topics| && i <= stop ::
          Converts(ctx.topics[i], ctx.topics[i].columns, m, ctx.limit, EnvOf(ctx, k), ageColumn))
    && (forall i | 0 <= i < n :: !HasAge(ctx.topics[i], ctx.topics[i].columns, ctx.limit))
    && (n < |ctx.topics| ==> HasAge(ctx.topics[n], ctx.topics[n].columns, ctx.limit))
  }

  /** t is done with one row more: dropped at topic n, with the messages of the topics before it, if it is over
      the limit and a topic has the age column; published to all topics otherwise. */
  ghost predicate RowCounted(ctx: Context, k: nat, m: Values, ageColumn: string, n: nat, stop: nat, done: Tally,
                             t: Tally)
    requires ValidTopics(ctx.topics) && stop <= |ctx.topics| && stop <= |done.results|
  {
    var dropped := n < |ctx.topics| && OverLimit(ctx, k, m, ageColumn);
    && t.aged == done.aged + (if dropped then 1 else 0) && t.published == done.published + (if dropped then 0 else 1)
    && t.raised == done.raised && t.retrying == done.retrying
    && done.log <= t.log && SentExactly(t.log[|done.log|..], ctx.topics, 0, stop, m, EnvOf(ctx, k))
    && t.results == done.results[stop..]
  }

  lemma CleanRow(ctx: Context, k: nat, m: Values, ageColumn: string, n: nat, stop: nat, done: Tally, p: Published)
    requires ValidTopics(ctx.topics) && Clean(ctx, k, m, ageColumn, n, stop, done.results)
    requires p == PublishFrom(ctx.topics, m, ctx.limit, EnvOf(ctx, k), [], done.results)
    ensures RowCounted(ctx, k, m, ageColumn, n, stop, done, Added(done, p))
    ensures p.outcome != Retrying && p.outcome != Exception
  {
    AgedRows(ctx.topics, n, m, ctx.limit, EnvOf(ctx, k), ageColumn, done.results, stop);
    assert (done.log + p.log)[|done.log|..] == p.log;
  }

  /** A line of a file under the configured age limit. */
  lemma AgedLine(ctx: Context, lines: seq<string>, k: nat, base: Values, done: Tally, m: Values, ageColumn: string,
                 n: nat, stop: nat) returns (t: Tally)
    requires ValidTopics(ctx.topics) && lines != [] && FitLines(lines, |ctx.columns|) && !done.Stops()
    requires |ParseLine(lines[0])| <= |ctx.columns| && FitLines(lines[1..], |ctx.columns|)
    requires m == ActAll(ctx.actions, Store(base, ctx.columns, ParseLine(lines[0])))
    requires Clean(ctx, k, m, ageColumn, n, stop, done.results)
    ensures RowCounted(ctx, k, m, ageColumn, n, stop, done, t)
    ensures RunRows(ctx, lines, k, base, done) == RunRows(ctx, lines[1..], k + 1, m, t)
  {
    var p := PublishFrom(ctx.topics, m, ctx.limit, EnvOf(ctx, k), [], done.results);
    t := Added(done, p);
    CleanRow(ctx, k, m, ageColumn, n, stop, done, p);
    LineMeans(ctx, lines, k, base, done, m, p);
  }

  /** No line meets an error, each with the row and the producer as the lines before leave them. */
  ghost predicate CleanLines(ctx: Context, lines: seq<string>, k: nat, base: Values, ageColumn: string, n: nat,
                             results: seq<ErrorCode>)
    requires FitLines(lines, |ctx.columns|)
    decreases lines
  {
    if lines == [] then true
    else
      assert lines[0] in lines;
      var m := RowOf(ctx, base, lines[0]);
      var stop := if OverLimit(ctx, k, m, ageColumn) then n else |ctx.topics|;
      && Clean(ctx, k, m, ageColumn, n, stop, results)
      && CleanLines(ctx, lines[1..], k + 1, m, ageColumn, n, results[stop..])
  }

  function RowOf(ctx: Context, base: Values, line: string): Values
    requires |ParseLine(line)| <= |ctx.columns|
  {
    ActAll(ctx.actions, Store(base, ctx.columns, ParseLine(line)))
  }

  /** How many of the rows are over the limit, each at its own time. */
  function OverCount(ctx: Context, lines: seq<string>, k: nat, base: Values, ageColumn: string): nat
    requires FitLines(lines, |ctx.columns|)
    decreases lines
  {
    if lines == [] then 0
    else
      assert lines[0] in lines;
      var m := RowOf(ctx, base, lines[0]);
      (if OverLimit(ctx, k, m, ageColumn) then 1 else 0) + OverCount(ctx, lines[1..], k + 1, m, ageColumn)
  }

  lemma CleanTurn(ctx: Context, lines: seq<string>, k: nat, base: Values, ageColumn: string, n: nat,
                  results: seq<ErrorCode>, m: Values, stop: nat)
    requires FitLines(lines, |ctx.columns|) && lines != [] && CleanLines(ctx, lines, k, base, ageColumn, n, results)
    requires |ParseLine(lines[0])| <= |ctx.columns| && m == RowOf(ctx, base, lines[0])
    requires stop == if OverLimit(ctx, k, m, ageColumn) then n else |ctx.topics|
    ensures FitLines(lines[1..], |ctx.columns|)
    ensures Clean(ctx, k, m, ageColumn, n, stop, results) && stop <= |results|
    ensures CleanLines(ctx, lines[1..], k + 1, m, ageColumn, n, results[stop..])
    ensures OverCount(ctx, lines, k, base, ageColumn)
      == (if OverLimit(ctx, k, m, ageColumn) then 1 else 0) + OverCount(ctx, lines[1..], k + 1, m, ageColumn)
  {
  }

  /** How the counts t after these lines differ from done: over rows dropped, all others published. */
  predicate FileCounted(due: nat, over: nat, done: Tally, t: Tally) {
    && t.aged == done.aged + over && t.published == done.published + due - over
    && t.raised == done.raised && t.retrying == done.retrying
  }

  /** A file without errors: if some topic has the age column, the rows over the limit are dropped, exactly those,
      and all others are published. */
  lemma {:induction false} AgedInFile(ctx: Context, lines: seq<string>, k: nat, base: Values, done: Tally,
                                      ageColumn: string, n: nat)
    requires ValidTopics(ctx.topics) && FitLines(lines, |ctx.columns|) && !done.Stops()
    requires CleanLines(ctx, lines, k, base, ageColumn, n, done.results)
    ensures FileCounted(|lines|, if n < |ctx.topics| then OverCount(ctx, lines, k, base, ageColumn) else 0, done,
                        RunRows(ctx, lines, k, base, done))
    decreases lines
  {
    if lines != [] {
      FitTail(lines, |ctx.columns|);
      var m := RowOf(ctx, base, lines[0]);
      var stop := if OverLimit(ctx, k, m, ageColumn) then n else |ctx.topics|;
      CleanTurn(ctx, lines, k, base, ageColumn, n, done.results, m, stop);
      var t := AgedLine(ctx, lines, k, base, done, m, ageColumn, n, stop);
      AgedInFile(ctx, lines[1..], k + 1, m, t, ageColumn, n);
    }
  }
}
