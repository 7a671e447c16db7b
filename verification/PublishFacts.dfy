/** What the messages of a row contain, and which topics an aged row reaches. */
module PublishFacts {
  import opened Basics
  import opened CsvReader
  import opened Schema
  import opened Framing
  import opened Publish

  /** The frames serialized for these topics, those the encoder refused left out. */
  function Pieces(topics: seq<SchemaConfig>, row: Values, env: Env): (pieces: seq<Piece>)
    requires ValidTopics(topics)
    ensures forall p <- pieces :: p.Valid()
  {
    if topics == [] then []
    else
      var n := |topics| - 1;
      var e := Encoded(topics[n], row, env);
      assert topics[n] in topics;
      Pieces(topics[..n], row, env) + if e.Some? then [Piece(topics[n].schemaId, e.value)] else []
  }

  /** The row's buffer once the first k topics have been serialized. */
  function Buffered(topics: seq<SchemaConfig>, k: nat, row: Values, env: Env): seq<byte>
    requires k <= |topics| && ValidTopics(topics)
  {
    Concatenated(Pieces(topics[..k], row, env))
  }

  /** The message of topic i: the frames of all topics up to it, under the row's key for the topic. */
  function MessageOf(topics: seq<SchemaConfig>, i: nat, row: Values, env: Env): Message
    requires i < |topics| && ValidTopics(topics)
  {
    Message(topics[i].name, Buffered(topics, i + 1, row, env), Get(row, topics[i].keyColumn))
  }

  /** publish from topic k on. */
  function RunFrom(topics: seq<SchemaConfig>, k: nat, row: Values, limit: AgeLimit, env: Env,
                   results: seq<ErrorCode>): Published
    requires k <= |topics| && ValidTopics(topics)
  {
    PublishFrom(topics[k..], row, limit, env, Buffered(topics, k, row, env), results)
  }

  lemma BufferedSnoc(topics: seq<SchemaConfig>, k: nat, row: Values, env: Env)
    requires k < |topics| && ValidTopics(topics)
    ensures topics[k] in topics
    ensures var e := Encoded(topics[k], row, env);
      Buffered(topics, k + 1, row, env)
        == if e.None? then Buffered(topics, k, row, env)
           else Buffered(topics, k, row, env) + Frame(topics[k].schemaId, e.value)
  {
    assert topics[k] in topics;
    assert topics[..k + 1][..k] == topics[..k];
    var e := Encoded(topics[k], row, env);
    var pieces := Pieces(topics[..k], row, env);
    if e.Some? {
      ConcatenatedSnoc(pieces, Piece(topics[k].schemaId, e.value));
    } else {
      assert pieces + [] == pieces;
    }
  }

  lemma RunSkips(topics: seq<SchemaConfig>, k: nat, row: Values, limit: AgeLimit, env: Env, results: seq<ErrorCode>)
    requires k < |topics| && ValidTopics(topics)
    requires TopicVerdict(topics[k], row, limit, env) == Continue && Encoded(topics[k], row, env).None?
    ensures var rest := RunFrom(topics, k + 1, row, limit, env, results);
      RunFrom(topics, k, row, limit, env, results) == rest.(signals := rest.signals + 1)
  {
    BufferedSnoc(topics, k, row, env);
    assert topics[k..][0] == topics[k] && topics[k..][1..] == topics[k + 1..];
  }

  lemma RunSends(topics: seq<SchemaConfig>, k: nat, row: Values, limit: AgeLimit, env: Env, results: seq<ErrorCode>)
    requires k < |topics| && ValidTopics(topics)
    requires TopicVerdict(topics[k], row, limit, env) == Continue && Encoded(topics[k], row, env).Some?
    ensures var rest := RunFrom(topics, k + 1, row, limit, env, AfterProduce(results));
      var sent := Attempts(MessageOf(topics, k, row, env), results);
      RunFrom(topics, k, row, limit, env, results)
        == if Returns(results) then rest.(log := sent + rest.log) else Published(Retrying, sent, [], 0)
  {
    BufferedSnoc(topics, k, row, env);
    assert topics[k..][0] == topics[k] && topics[k..][1..] == topics[k + 1..];
  }

  lemma RunStops(topics: seq<SchemaConfig>, k: nat, row: Values, limit: AgeLimit, env: Env, results: seq<ErrorCode>)
    requires k <= |topics| && ValidTopics(topics)
    requires k < |topics| ==> TopicVerdict(topics[k], row, limit, env) != Continue
    ensures RunFrom(topics, k, row, limit, env, results)
         == Published(OutcomeAt(topics, k, row, limit, env), [], results, 0)
  {
    if k < |topics| {
      assert topics[k..][0] == topics[k];
    }
  }

  lemma {:induction false} AttemptsSend(message: Message, results: seq<ErrorCode>)
    ensures forall a <- Attempts(message, results) :: a.message == message
  {
    if results != [] && results[0] == QueueFull {
      AttemptsSend(message, results[1..]);
    }
  }

  /** The message of some topic from k on whose record was encoded; it and all from k before it let the row through. */
  ghost predicate IsMessageFrom(m: Message, topics: seq<SchemaConfig>, k: nat, row: Values, limit: AgeLimit, env: Env)
    requires ValidTopics(topics)
  {
    exists i | k <= i < |topics| :: m == MessageOf(topics, i, row, env) && Encoded(topics[i], row, env).Some?
      && forall j | k <= j <= i :: TopicVerdict(topics[j], row, limit, env) == Continue
  }

  /** In every run, retries and failures included, whatever is handed to the producer is for some
      topic i the frames of all the topics serialized so far, that of topic i last. */
  lemma {:induction false} PayloadsAreFramesSoFar(topics: seq<SchemaConfig>, k: nat, row: Values, limit: AgeLimit,
                                                  env: Env, results: seq<ErrorCode>)
    requires k <= |topics| && ValidTopics(topics)
    ensures forall a <- RunFrom(topics, k, row, limit, env, results).log ::
      IsMessageFrom(a.message, topics, k, row, limit, env)
    decreases |topics| - k
  {
    if k == |topics| || TopicVerdict(topics[k], row, limit, env) != Continue {
      RunStops(topics, k, row, limit, env, results);
    } else if Encoded(topics[k], row, env).Some? {
      RunSends(topics, k, row, limit, env, results);
      AttemptsSend(MessageOf(topics, k, row, env), results);
      PayloadsAreFramesSoFar(topics, k + 1, row, limit, env, AfterProduce(results));
      OwnOrLater(topics, k, row, limit, env, RunFrom(topics, k + 1, row, limit, env, AfterProduce(results)).log);
    } else {
      RunSkips(topics, k, row, limit, env, results);
      PayloadsAreFramesSoFar(topics, k + 1, row, limit, env, results);
      OwnOrLater(topics, k, row, limit, env, RunFrom(topics, k + 1, row, limit, env, results).log);
    }
  }

  lemma OwnOrLater(topics: seq<SchemaConfig>, k: nat, row: Values, limit: AgeLimit, env: Env, log: seq<Attempt>)
    requires k < |topics| && ValidTopics(topics) && TopicVerdict(topics[k], row, limit, env) == Continue
    requires forall a <- log :: IsMessageFrom(a.message, topics, k + 1, row, limit, env)
    ensures forall a <- log :: IsMessageFrom(a.message, topics, k, row, limit, env)
    ensures Encoded(topics[k], row, env).Some? ==>
      IsMessageFrom(MessageOf(topics, k, row, env), topics, k, row, limit, env)
  {
  }

  /** None of topics k to n - 1 fails to encode and the produce of each succeeds at once. */
  ghost predicate Smooth(topics: seq<SchemaConfig>, k: nat, n: nat, row: Values, env: Env, results: seq<ErrorCode>) {
    && k <= n <= |topics| && n - k <= |results|
    && (forall i | k <= i < n :: Encoded(topics[i], row, env).Some?)
    && forall i | 0 <= i < n - k :: results[i] == NoError
  }

  /** n is the first topic, if any, that does not let the row through. */
  ghost predicate StopsAt(topics: seq<SchemaConfig>, n: nat, row: Values, limit: AgeLimit, env: Env) {
    && n <= |topics|
    && (forall i | 0 <= i < n :: TopicVerdict(topics[i], row, limit, env) == Continue)
    && (n < |topics| ==> TopicVerdict(topics[n], row, limit, env) != Continue)
  }

  function OutcomeAt(topics: seq<SchemaConfig>, n: nat, row: Values, limit: AgeLimit, env: Env): Outcome
    requires n <= |topics|
  {
    if n == |topics| then Completed
    else if TopicVerdict(topics[n], row, limit, env) == Aged then TooOld else Exception
  }

  /** Exactly the messages of topics k to n - 1, once each, in order. */
  ghost predicate SentExactly(log: seq<Attempt>, topics: seq<SchemaConfig>, k: nat, n: nat, row: Values, env: Env)
    requires k <= n <= |topics| && ValidTopics(topics)
  {
    |log| == n - k && forall i | k <= i < n :: log[i - k] == Attempt(MessageOf(topics, i, row, env), NoError)
  }

  /** A run without errors up to the first topic that stops the row publishes exactly to the topics
      before it, in order, once each, and message i carries the frames of topics 0 to i. */
  lemma {:induction false} SmoothRun(topics: seq<SchemaConfig>, k: nat, n: nat, row: Values, limit: AgeLimit, env: Env,
                                     results: seq<ErrorCode>, p: Published)
    requires ValidTopics(topics) && StopsAt(topics, n, row, limit, env)
    requires Smooth(topics, k, n, row, env, results) && p == RunFrom(topics, k, row, limit, env, results)
    ensures p.outcome == OutcomeAt(topics, n, row, limit, env) && SentExactly(p.log, topics, k, n, row, env)
    ensures p.results == results[n - k..] && p.signals == 0
    decreases n - k
  {
    if k == n {
      RunStops(topics, k, row, limit, env, results);
    } else {
      SmoothStep(topics, k, n, row, limit, env, results);
      var rest := RunFrom(topics, k + 1, row, limit, env, results[1..]);
      SmoothRun(topics, k + 1, n, row, limit, env, results[1..], rest);
      SentCons(rest.log, topics, k, n, row, env);
    }
  }

  lemma OneAttempt(message: Message, results: seq<ErrorCode>)
    requires results != [] && results[0] == NoError
    ensures Returns(results) && Attempts(message, results) == [Attempt(message, NoError)]
    ensures AfterProduce(results) == results[1..]
  {
  }

  lemma SmoothStep(topics: seq<SchemaConfig>, k: nat, n: nat, row: Values, limit: AgeLimit, env: Env,
                   results: seq<ErrorCode>)
    requires k < n && ValidTopics(topics) && Smooth(topics, k, n, row, env, results)
    requires TopicVerdict(topics[k], row, limit, env) == Continue
    ensures |results| > 0 && Smooth(topics, k + 1, n, row, env, results[1..])
    ensures var rest := RunFrom(topics, k + 1, row, limit, env, results[1..]);
      RunFrom(topics, k, row, limit, env, results)
        == rest.(log := [Attempt(MessageOf(topics, k, row, env), NoError)] + rest.log)
  {
    OneAttempt(MessageOf(topics, k, row, env), results);
    RunSends(topics, k, row, limit, env, results);
  }

  lemma SentCons(log: seq<Attempt>, topics: seq<SchemaConfig>, k: nat, n: nat, row: Values, env: Env)
    requires k < n <= |topics| && ValidTopics(topics) && SentExactly(log, topics, k + 1, n, row, env)
    ensures SentExactly([Attempt(MessageOf(topics, k, row, env), NoError)] + log, topics, k, n, row, env)
  {
    var all := [Attempt(MessageOf(topics, k, row, env), NoError)] + log;
    forall i | k <= i < n ensures all[i - k] == Attempt(MessageOf(topics, i, row, env), NoError) {
      if i > k {
        assert all[i - k] == log[i - (k + 1)];
      }
    }
  }

  lemma {:induction false} NoPieces(topics: seq<SchemaConfig>, row: Values, env: Env)
    requires ValidTopics(topics)
    ensures Pieces(topics, row, env) == [] <==> forall c <- topics :: Encoded(c, row, env).None?
  {
    if topics != [] {
      var n := |topics| - 1;
      assert topics == topics[..n] + [topics[n]] && topics[n] in topics;
      NoPieces(topics[..n], row, env);
      if Encoded(topics[n], row, env).None? {
        assert Pieces(topics, row, env) == Pieces(topics[..n], row, env);
      }
    }
  }

  /** Whatever the encoder refuses: a consumer of topic i finds its own topic's id and body in the message
      exactly when no topic before i was serialized. */
  lemma OnlyFirstTopicDecodes(topics: seq<SchemaConfig>, i: nat, row: Values, env: Env, body: seq<byte>,
                              d: Option<Decoded>)
    requires i < |topics| && ValidTopics(topics)
    requires Encoded(topics[i], row, env) == Some(body) && d == DecodeFrame(MessageOf(topics, i, row, env).payload)
    ensures d == Some(Decoded(topics[i].schemaId, body)) <==>
            forall c <- topics[..i] :: Encoded(c, row, env).None?
  {
    NoPieces(topics[..i], row, env);
    assert topics[i] in topics && topics[..i + 1][..i] == topics[..i];
    OwnFrameOnly(Pieces(topics[..i + 1], row, env), Buffered(topics, i + 1, row, env), d);
  }

  // Aged rows

  predicate HasAge(c: SchemaConfig, columns: seq<string>, limit: AgeLimit) {
    limit.Some? && exists column <- columns :: c.Renamed(column) == limit.value.0
  }

  /** The column converts, and if it carries the age it is the source column ageColumn. */
  predicate ColumnConverts(c: SchemaConfig, column: string, row: Values, limit: AgeLimit, env: Env, ageColumn: string) {
    && DatumOf(c, column, row, env).Some?
    && (limit.Some? && c.Renamed(column) == limit.value.0 ==>
          column == ageColumn && env.conv.stol(Get(row, column)).Some?)
  }

  predicate Converts(c: SchemaConfig, columns: seq<string>, row: Values, limit: AgeLimit, env: Env, ageColumn: string) {
    forall column <- columns :: ColumnConverts(c, column, row, limit, env, ageColumn)
  }

  predicate AgedRow(row: Values, limit: AgeLimit, env: Env, ageColumn: string) {
    limit.Some? && env.conv.stol(Get(row, ageColumn)).Some?
    && MaxAge.TooOld(env.now, env.conv.stol(Get(row, ageColumn)).value, limit.value.1)
  }

  lemma {:induction false} ConvertingVerdict(c: SchemaConfig, columns: seq<string>, row: Values, limit: AgeLimit,
                                             env: Env, ageColumn: string)
    requires Converts(c, columns, row, limit, env, ageColumn)
    ensures FirstVerdict(c, columns, row, limit, env)
         == if HasAge(c, columns, limit) && AgedRow(row, limit, env, ageColumn) then Aged else Continue
    decreases columns
  {
    if columns != [] {
      assert ColumnConverts(c, columns[0], row, limit, env, ageColumn);
      ConvertingVerdict(c, columns[1..], row, limit, env, ageColumn);
      assert HasAge(c, columns, limit) <==>
        (limit.Some? && c.Renamed(columns[0]) == limit.value.0) || HasAge(c, columns[1..], limit);
    }
  }

  /** A run without errors, in which n is the first topic, if any, with the age column: an aged row is
      dropped there, and before that published to exactly the topics before n, whatever the topics after
      it hold; every other row goes to all. */
  lemma AgedRows(topics: seq<SchemaConfig>, n: nat, row: Values, limit: AgeLimit, env: Env, ageColumn: string,
                 results: seq<ErrorCode>, stop: nat)
    requires ValidTopics(topics) && stop == if AgedRow(row, limit, env, ageColumn) then n else |topics|
    requires n <= |topics| && Smooth(topics, 0, stop, row, env, results)
    requires forall i | 0 <= i < |topics| && i <= stop ::
      Converts(topics[i], topics[i].columns, row, limit, env, ageColumn)
    requires forall i | 0 <= i < n :: !HasAge(topics[i], topics[i].columns, limit)
    requires n < |topics| ==> HasAge(topics[n], topics[n].columns, limit)
    ensures var p := PublishFrom(topics, row, limit, env, [], results);
      p.outcome == (if stop < |topics| then TooOld else Completed) && SentExactly(p.log, topics, 0, stop, row, env)
      && p.results == results[stop..] && p.signals == 0
  {
    forall i | 0 <= i < |topics| && i <= stop ensures TopicVerdict(topics[i], row, limit, env)
      == if HasAge(topics[i], topics[i].columns, limit) && AgedRow(row, limit, env, ageColumn) then Aged else Continue
    {
      assert topics[i] in topics;
      ConvertingVerdict(topics[i], topics[i].columns, row, limit, env, ageColumn);
    }
    assert topics[0..] == topics && Buffered(topics, 0, row, env) == [];
    SmoothRun(topics, 0, stop, row, limit, env, results, RunFrom(topics, 0, row, limit, env, results));
  }

  /** A column whose type the schema assembler silently declares a string never lets a row through. */
  lemma UnknownTypeStops(c: SchemaConfig, column: string, row: Values, limit: AgeLimit, env: Env)
    requires column in c.columns && !KnownType(c.TypeName(column))
    ensures TopicVerdict(c, row, limit, env) != Continue
  {
    UnknownTypeStopsAmong(c, c.columns, column, row, limit, env);
  }

  lemma {:induction false} UnknownTypeStopsAmong(c: SchemaConfig, columns: seq<string>, column: string, row: Values,
                                                 limit: AgeLimit, env: Env)
    requires column in columns && !KnownType(c.TypeName(column))
    ensures FirstVerdict(c, columns, row, limit, env) != Continue
    decreases columns
  {
    if column == columns[0] {
      DatumAgrees(Get(row, column), c.TypeName(column), env.conv);
    } else {
      UnknownTypeStopsAmong(c, columns[1..], column, row, limit, env);
    }
  }

  /** Every field of a record that publish fills has the type the schema declares at its position. */
  lemma SchemaAgreement(c: SchemaConfig, row: Values, env: Env, record: seq<Datum>, j: nat)
    requires RecordOf(c, row, env, record) && j < |record|
    ensures SchemaOf(c)[j].name == c.Renamed(c.columns[j]) && record[j].Type() == SchemaOf(c)[j].ty
  {
    DatumAgrees(Get(row, c.columns[j]), c.TypeName(c.columns[j]), env.conv);
  }
}
