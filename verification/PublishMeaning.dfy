/** What is in the messages of a row, and what ends a row, down to encoder, number parsers and producer results. */
module PublishMeaning {
  import opened Basics
  import opened CsvReader
  import opened Schema
  import opened Framing
  import opened Publish
  import opened PublishFacts

  // The body of a message is the encoder's output on the filled record

  lemma {:induction false} ColumnConverted(c: SchemaConfig, columns: seq<string>, row: Values, limit: AgeLimit,
                                           env: Env, j: nat)
    requires FirstVerdict(c, columns, row, limit, env) == Continue && j < |columns|
    ensures DatumOf(c, columns[j], row, env).Some?
    decreases columns
  {
    if j > 0 {
      ColumnConverted(c, columns[1..], row, limit, env, j - 1);
    }
  }

  /** A row that a topic lets through fills one record: that of its data. */
  lemma RecordExists(c: SchemaConfig, row: Values, limit: AgeLimit, env: Env)
    requires TopicVerdict(c, row, limit, env) == Continue
    ensures RecordOf(c, row, env, DataOf(c, c.columns, row, env))
  {
    var data := DataOf(c, c.columns, row, env);
    forall j | 0 <= j < |data| ensures DatumOf(c, c.columns[j], row, env) == Some(data[j]) {
      ColumnConverted(c, c.columns, row, limit, env, j);
      DataAt(c, c.columns, row, env, j);
    }
  }

  /** A frame for each of these records, of the topics in order, that the encoder accepts. */
  function BytesOf(topics: seq<SchemaConfig>, records: seq<seq<Datum>>, env: Env): seq<byte>
    requires |records| <= |topics| && ValidTopics(topics)
  {
    if records == [] then []
    else
      var n := |records| - 1;
      assert topics[n] in topics;
      var body := env.encode(SchemaOf(topics[n]), records[n]);
      var before := BytesOf(topics, records[..n], env);
      if body.Some? then before + Frame(topics[n].schemaId, body.value) else before
  }

  /** The message of topic i: its name, the frames of the records that topics 0 to i fill from the row, that
      of its own last, and the row's value in its key column. */
  ghost predicate Carries(m: Message, topics: seq<SchemaConfig>, i: nat, records: seq<seq<Datum>>, row: Values,
                          env: Env)
    requires ValidTopics(topics)
  {
    && |records| == i + 1 <= |topics| && (forall j | 0 <= j <= i :: RecordOf(topics[j], row, env, records[j]))
    && env.encode(SchemaOf(topics[i]), records[i]).Some?
    && m == Message(topics[i].name, BytesOf(topics, records, env), Get(row, topics[i].keyColumn))
  }

  function Records(topics: seq<SchemaConfig>, k: nat, row: Values, env: Env): (records: seq<seq<Datum>>)
    requires k <= |topics|
    ensures |records| == k && forall j | 0 <= j < k :: records[j] == DataOf(topics[j], topics[j].columns, row, env)
  {
    seq(k, j requires 0 <= j < k => DataOf(topics[j], topics[j].columns, row, env))
  }

  lemma BytesSnoc(topics: seq<SchemaConfig>, records: seq<seq<Datum>>, record: seq<Datum>, env: Env)
    requires |records| < |topics| && ValidTopics(topics)
    ensures topics[|records|] in topics
    ensures var c := topics[|records|];
      var body, before := env.encode(SchemaOf(c), record), BytesOf(topics, records, env);
      BytesOf(topics, records + [record], env) == if body.None? then before else before + Frame(c.schemaId, body.value)
  {
    assert (records + [record])[..|records|] == records && topics[|records|] in topics;
  }

  lemma RecordsSnoc(topics: seq<SchemaConfig>, k: nat, row: Values, env: Env)
    requires k < |topics|
    ensures Records(topics, k + 1, row, env)
         == Records(topics, k, row, env) + [DataOf(topics[k], topics[k].columns, row, env)]
  {
  }

  lemma NothingBuffered(topics: seq<SchemaConfig>, row: Values, env: Env)
    requires ValidTopics(topics)
    ensures Buffered(topics, 0, row, env) == []
  {
    assert topics[..0] == [];
  }

  lemma BufferedNext(topics: seq<SchemaConfig>, k: nat, row: Values, env: Env, before: seq<byte>)
    requires k < |topics| && ValidTopics(topics)
    requires before == Buffered(topics, k, row, env) == BytesOf(topics, Records(topics, k, row, env), env)
    ensures Buffered(topics, k + 1, row, env) == BytesOf(topics, Records(topics, k + 1, row, env), env)
  {
    BufferedSnoc(topics, k, row, env);
    RecordsSnoc(topics, k, row, env);
    var c := topics[k];
    BytesSnoc(topics, Records(topics, k, row, env), DataOf(c, c.columns, row, env), env);
  }

  lemma {:induction false} BufferedIsBytes(topics: seq<SchemaConfig>, k: nat, row: Values, env: Env)
    requires k <= |topics| && ValidTopics(topics)
    ensures Buffered(topics, k, row, env) == BytesOf(topics, Records(topics, k, row, env), env)
  {
    if k == 0 {
      NothingBuffered(topics, row, env);
    } else {
      BufferedIsBytes(topics, k - 1, row, env);
      BufferedNext(topics, k - 1, row, env, Buffered(topics, k - 1, row, env));
    }
  }

  lemma MessageCarries(topics: seq<SchemaConfig>, i: nat, row: Values, limit: AgeLimit, env: Env)
    requires i < |topics| && ValidTopics(topics) && Encoded(topics[i], row, env).Some?
    requires forall j | 0 <= j <= i :: TopicVerdict(topics[j], row, limit, env) == Continue
    ensures Carries(MessageOf(topics, i, row, env), topics, i, Records(topics, i + 1, row, env), row, env)
  {
    BufferedIsBytes(topics, i + 1, row, env);
    forall j | 0 <= j <= i ensures RecordOf(topics[j], row, env, Records(topics, i + 1, row, env)[j]) {
      RecordExists(topics[j], row, limit, env);
    }
  }

  ghost predicate EndsWithFrame(payload: seq<byte>, id: int, body: seq<byte>)
    requires IsInt32(id)
  {
    exists before :: payload == before + Frame(id, body)
  }

  lemma CarriedLast(m: Message, topics: seq<SchemaConfig>, i: nat, records: seq<seq<Datum>>, row: Values, env: Env)
    requires ValidTopics(topics) && Carries(m, topics, i, records, row, env)
    ensures topics[i] in topics
    ensures EndsWithFrame(m.payload, topics[i].schemaId, env.encode(SchemaOf(topics[i]), records[i]).value)
  {
    assert topics[i] in topics;
    var body := env.encode(SchemaOf(topics[i]), records[i]).value;
    assert m.payload == BytesOf(topics, records[..i], env) + Frame(topics[i].schemaId, body);
  }

  /** In every run, retries and failures included: whatever is handed to the producer is the message of some
      topic, and its payload ends with the frame of what the encoder makes of that topic's filled record. */
  lemma PayloadsCarryRecords(topics: seq<SchemaConfig>, row: Values, limit: AgeLimit, env: Env, results: seq<ErrorCode>,
                             a: Attempt)
      returns (i: nat, records: seq<seq<Datum>>)
    requires ValidTopics(topics) && a in PublishFrom(topics, row, limit, env, [], results).log
    ensures Carries(a.message, topics, i, records, row, env) && IsInt32(topics[i].schemaId)
    ensures EndsWithFrame(a.message.payload, topics[i].schemaId, env.encode(SchemaOf(topics[i]), records[i]).value)
  {
    i := MessageIndex(topics, row, limit, env, results, a);
    records := Records(topics, i + 1, row, env);
    MessageCarries(topics, i, row, limit, env);
    CarriedLast(a.message, topics, i, records, row, env);
  }

  lemma MessageIndex(topics: seq<SchemaConfig>, row: Values, limit: AgeLimit, env: Env, results: seq<ErrorCode>,
                     a: Attempt)
      returns (i: nat)
    requires ValidTopics(topics) && a in PublishFrom(topics, row, limit, env, [], results).log
    ensures i < |topics| && a.message == MessageOf(topics, i, row, env) && Encoded(topics[i], row, env).Some?
    ensures forall j | 0 <= j <= i :: TopicVerdict(topics[j], row, limit, env) == Continue
  {
    assert topics[0..] == topics && Buffered(topics, 0, row, env) == [];
    PayloadsAreFramesSoFar(topics, 0, row, limit, env, results);
    i :| 0 <= i < |topics| && a.message == MessageOf(topics, i, row, env) && Encoded(topics[i], row, env).Some?
      && forall j | 0 <= j <= i :: TopicVerdict(topics[j], row, limit, env) == Continue;
  }

  // What stands in a filled record

  /** A field is called as the column map says, or else as its column, and holds the column's value under the
      type the type map says, read by that type's parser; a column without a type is a string. */
  lemma FieldMeans(c: SchemaConfig, row: Values, env: Env, record: seq<Datum>, j: nat)
    requires RecordOf(c, row, env, record) && j < |c.columns|
    ensures var column, field, value := c.columns[j], SchemaOf(c)[j], Get(row, c.columns[j]);
      && field.name == (if column in c.columnMap then c.columnMap[column] else column)
      && (column !in c.columnTypeTransforms ==> field.ty == StringType && record[j] == StringDatum(value))
      && (column in c.columnTypeTransforms ==>
            var ty := c.columnTypeTransforms[column];
            && ty in ["string", "float", "double", "int", "long"]
            && (ty == "string" ==> field.ty == StringType && record[j] == StringDatum(value))
            && (ty == "float" ==> field.ty == FloatType && HoldsNumber(record[j], FloatType, env.conv.stof(value)))
            && (ty == "double" ==> field.ty == DoubleType && HoldsNumber(record[j], DoubleType, env.conv.stod(value)))
            && (ty == "int" ==> field.ty == IntType && HoldsNumber(record[j], IntType, env.conv.stoi(value)))
            && (ty == "long" ==> field.ty == LongType && HoldsNumber(record[j], LongType, env.conv.stol(value))))
  {
    assert DatumOf(c, c.columns[j], row, env) == Some(record[j]);
  }

  predicate HoldsNumber(datum: Datum, ty: AvroType, parsed: Option<int>) {
    parsed.Some? && datum == NumberDatum(ty, parsed.value)
  }

  // What ends a row

  /** The column is renamed to the one the age limit names. */
  predicate CarriesAge(c: SchemaConfig, column: string, limit: AgeLimit) {
    limit.Some? && limit.value.0 == if column in c.columnMap then c.columnMap[column] else column
  }

  /** A column that neither raises nor is too old. */
  predicate Passes(c: SchemaConfig, column: string, row: Values, limit: AgeLimit, env: Env) {
    && DatumOf(c, column, row, env).Some?
    && (CarriesAge(c, column, limit) ==>
          var t := env.conv.stol(Get(row, column));
          t.Some? && !MaxAge.TooOld(env.now, t.value, limit.value.1))
  }

  lemma {:induction false} VerdictAtColumn(c: SchemaConfig, columns: seq<string>, j: nat, row: Values, limit: AgeLimit,
                                           env: Env)
    requires j < |columns| && forall i | 0 <= i < j :: Passes(c, columns[i], row, limit, env)
    requires !Passes(c, columns[j], row, limit, env)
    ensures FirstVerdict(c, columns, row, limit, env)
         == if CarriesAge(c, columns[j], limit) && env.conv.stol(Get(row, columns[j])).Some?
               && MaxAge.TooOld(env.now, env.conv.stol(Get(row, columns[j])).value, limit.value.1)
            then Aged else Raised
    decreases columns
  {
    if j > 0 {
      assert Passes(c, columns[0], row, limit, env);
      VerdictAtColumn(c, columns[1..], j - 1, row, limit, env);
    }
  }

  /** The first column of the first topic that does not pass ends the row, with nothing published: as too old if
      it carries the age, can be read and is over the limit; with an exception if its timestamp cannot be read,
      or its value cannot be converted, or its type is unknown. */
  lemma FirstBadColumn(topics: seq<SchemaConfig>, j: nat, row: Values, limit: AgeLimit, env: Env,
                       results: seq<ErrorCode>)
    requires ValidTopics(topics) && topics != [] && j < |topics[0].columns|
    requires forall i | 0 <= i < j :: Passes(topics[0], topics[0].columns[i], row, limit, env)
    requires !Passes(topics[0], topics[0].columns[j], row, limit, env)
    ensures var c, timestamp := topics[0], env.conv.stol(Get(row, topics[0].columns[j]));
      PublishFrom(topics, row, limit, env, [], results)
        == Published(if CarriesAge(c, c.columns[j], limit) && timestamp.Some?
                        && MaxAge.TooOld(env.now, timestamp.value, limit.value.1) then TooOld else Exception,
                     [], results, 0)
  {
    VerdictAtColumn(topics[0], topics[0].columns, j, row, limit, env);
  }

  // The producer

  function Full(n: nat): (results: seq<ErrorCode>)
    ensures |results| == n && forall i | 0 <= i < n :: results[i] == QueueFull
  {
    seq(n, _ => QueueFull)
  }

  /** After n answers that the queue is full, any other answer, an error included, is the last one to the message:
      it has been handed over n + 1 times, and the answers behind are for the next message. */
  lemma {:induction false} ProduceEnds(message: Message, n: nat, answer: ErrorCode, rest: seq<ErrorCode>)
    requires answer != QueueFull
    ensures var results := Full(n) + [answer] + rest;
      && Returns(results) && AfterProduce(results) == rest
      && Attempts(message, results) == seq(n, _ => Attempt(message, QueueFull)) + [Attempt(message, answer)]
  {
    var results := Full(n) + [answer] + rest;
    if n == 0 {
      assert results[1..] == rest;
    } else {
      ProduceEnds(message, n - 1, answer, rest);
      assert results[1..] == Full(n - 1) + [answer] + rest && results[0] == QueueFull;
      var all, less := seq(n, _ => Attempt(message, QueueFull)), seq(n - 1, _ => Attempt(message, QueueFull));
      assert all == [Attempt(message, QueueFull)] + less;
    }
  }

  /** As long as every answer is that the queue is full, the message is handed over again. */
  lemma {:induction false} ProduceStuck(message: Message, n: nat)
    ensures !Returns(Full(n)) && AfterProduce(Full(n)) == []
    ensures Attempts(message, Full(n)) == seq(n, _ => Attempt(message, QueueFull))
  {
    if n > 0 {
      ProduceStuck(message, n - 1);
      assert Full(n)[1..] == Full(n - 1);
    }
  }
}
