/** CsvProcessor::publish: one row turned into one message per topic. */
module Publish {
  import opened Basics
  import opened CsvReader
  import opened RowIndependence
  import opened Schema
  import opened Framing
  import MaxAge

  /** What a row meets on its way: number parsers, the Avro encoder (None is its exception), the clock. */
  datatype Env = Env(
    conv: Conversions,
    encode: (seq<Field>, seq<Datum>) -> Option<seq<byte>>,
    now: int)

  /** The max_age configuration: renamed column and days. */
  type AgeLimit = Option<(string, int)>

  datatype Verdict = Continue | Aged | Raised

  datatype ErrorCode = NoError | QueueFull | OtherError
  datatype Message = Message(topic: string, payload: seq<byte>, key: string)
  datatype Attempt = Attempt(message: Message, result: ErrorCode)

  /** Retrying is a thread still inside the queue-full loop. */
  datatype Outcome = Completed | TooOld | Exception | Retrying

  /** The Kafka producer: what it was handed, and the results it will give. */
  class Producer {
    var log: seq<Attempt>
    var results: seq<ErrorCode>

    constructor (results: seq<ErrorCode>)
      ensures log == [] && this.results == results
    {
      this.log, this.results := [], results;
    }

    /** The produce call and its retry loop; false when the results run out before it ends. */
    method Produce(message: Message) returns (returned: bool)
      modifies this
      ensures returned == Returns(old(results))
      ensures log == old(log) + Attempts(message, old(results))
      ensures results == AfterProduce(old(results))
    {
      ghost var log0, results0 := log, results;
      while true
        invariant log + Attempts(message, results) == log0 + Attempts(message, results0)
        invariant Returns(results) == Returns(results0)
        invariant AfterProduce(results) == AfterProduce(results0)
        decreases |results|
      {
        if results == [] {
          return false;
        }
        var err := results[0];
        assert log + [Attempt(message, err)] + Attempts(message, results[1..])
            == log + ([Attempt(message, err)] + Attempts(message, results[1..]));
        log, results := log + [Attempt(message, err)], results[1..];
        if err != QueueFull {
          return true;
        }
      }
    }
  }

  predicate Returns(results: seq<ErrorCode>) {
    results != [] && (results[0] != QueueFull || Returns(results[1..]))
  }

  function Attempts(message: Message, results: seq<ErrorCode>): seq<Attempt> {
    if results == [] then []
    else [Attempt(message, results[0])] + if results[0] == QueueFull then Attempts(message, results[1..]) else []
  }

  function AfterProduce(results: seq<ErrorCode>): (rest: seq<ErrorCode>)
    ensures !Returns(results) ==> rest == []
  {
    if results == [] then []
    else if results[0] == QueueFull then AfterProduce(results[1..]) else results[1..]
  }

  // One column, one topic

  function AgeVerdict(c: SchemaConfig, column: string, row: Values, limit: AgeLimit, env: Env): Verdict {
    if limit.None? || c.Renamed(column) != limit.value.0 then Continue
    else
      match env.conv.stol(Get(row, column))
      case None => Raised
      case Some(timestamp) => if MaxAge.TooOld(env.now, timestamp, limit.value.1) then Aged else Continue
  }

  function DatumOf(c: SchemaConfig, column: string, row: Values, env: Env): Option<Datum> {
    CreateDatum(Get(row, column), c.TypeName(column), env.conv)
  }

  function ColumnVerdict(c: SchemaConfig, column: string, row: Values, limit: AgeLimit, env: Env): Verdict {
    var v := AgeVerdict(c, column, row, limit, env);
    if v != Continue then v
    else if DatumOf(c, column, row, env).None? then Raised else Continue
  }

  /** The verdict of the first of these columns that does not go through. */
  function FirstVerdict(c: SchemaConfig, columns: seq<string>, row: Values, limit: AgeLimit, env: Env): Verdict
    decreases columns
  {
    if columns == [] then Continue
    else
      var v := ColumnVerdict(c, columns[0], row, limit, env);
      if v != Continue then v else FirstVerdict(c, columns[1..], row, limit, env)
  }

  ghost predicate RecordOf(c: SchemaConfig, row: Values, env: Env, record: seq<Datum>) {
    |record| == |c.columns|
    && forall j | 0 <= j < |record| :: DatumOf(c, c.columns[j], row, env) == Some(record[j])
  }

  /** The max_age check of one column. */
  method CheckAge(c: SchemaConfig, column: string, row: CSVRow, limit: AgeLimit, env: Env) returns (verdict: Verdict)
    modifies row`mapData
    ensures SameValues(row.mapData, old(row.mapData))
    ensures verdict == AgeVerdict(c, column, old(row.mapData), limit, env)
  {
    if limit.Some? && c.Renamed(column) == limit.value.0 {
      var text := row.At(column);
      var timestamp := env.conv.stol(text);
      if timestamp.None? {
        return Raised;
      }
      if MaxAge.TooOld(env.now, timestamp.value, limit.value.1) {
        return Aged;
      }
    }
    verdict := Continue;
  }

  /** The body of the column loop: column k is written at the index its new name has in the schema. */
  method FillColumn(c: SchemaConfig, k: nat, row: CSVRow, limit: AgeLimit, env: Env, record: seq<Datum>)
    returns (verdict: Verdict, filled: seq<Datum>, position: nat)
    requires c.Distinct() && k < |c.columns| == |record|
    modifies row`mapData
    ensures SameValues(row.mapData, old(row.mapData))
    ensures verdict == ColumnVerdict(c, c.columns[k], old(row.mapData), limit, env)
    ensures |filled| == |record| && (verdict == Continue ==> position == k)
    ensures verdict == Continue ==> filled == record[k := filled[k]]
    ensures verdict == Continue ==> DatumOf(c, c.columns[k], old(row.mapData), env) == Some(filled[k])
  {
    var field := c.columns[k];
    filled, position := record, 0;
    ghost var row0 := row.mapData;
    verdict := CheckAge(c, field, row, limit, env);
    assert Get(row.mapData, field) == Get(row0, field);
    if verdict == Continue {
      PositionOfColumn(c, k);
      position := FieldIndex(SchemaOf(c), c.Renamed(field)).value;
      var value := row.At(field);
      var datum := CreateDatum(value, c.TypeName(field), env.conv);
      if datum.None? {
        verdict := Raised;
      } else {
        filled := record[position := datum.value];
      }
    }
  }

  /** The first k fields are written, in order, once each. */
  ghost predicate FilledTo(c: SchemaConfig, row: Values, env: Env, record: seq<Datum>, writes: seq<nat>, k: nat) {
    && k <= |c.columns| == |record| && |writes| == k
    && forall j | 0 <= j < k :: writes[j] == j && DatumOf(c, c.columns[j], row, env) == Some(record[j])
  }

  lemma FilledMore(c: SchemaConfig, row: Values, env: Env, record: seq<Datum>, writes: seq<nat>, k: nat, datum: Datum)
    requires FilledTo(c, row, env, record, writes, k) && k < |record|
    requires DatumOf(c, c.columns[k], row, env) == Some(datum)
    ensures FilledTo(c, row, env, record[k := datum], writes + [k], k + 1)
  {
  }

  lemma VerdictStep(c: SchemaConfig, k: nat, row: Values, limit: AgeLimit, env: Env)
    requires k < |c.columns|
    ensures var v := ColumnVerdict(c, c.columns[k], row, limit, env);
      FirstVerdict(c, c.columns[k..], row, limit, env)
        == if v != Continue then v else FirstVerdict(c, c.columns[k + 1..], row, limit, env)
  {
    assert c.columns[k..][1..] == c.columns[k + 1..];
  }

  /** The column loop: every record field is set exactly once, at the position of its column, to the
      column's value converted to its type; the first column that raises or is too old ends it. */
  method FillRecord(c: SchemaConfig, row: CSVRow, limit: AgeLimit, env: Env)
    returns (verdict: Verdict, record: seq<Datum>, ghost writes: seq<nat>)
    requires c.Distinct()
    modifies row`mapData
    ensures SameValues(row.mapData, old(row.mapData))
    ensures verdict == FirstVerdict(c, c.columns, old(row.mapData), limit, env)
    ensures verdict == Continue ==> RecordOf(c, old(row.mapData), env, record)
    ensures verdict == Continue ==> |writes| == |c.columns| && forall j | 0 <= j < |writes| :: writes[j] == j
  {
    record := seq(|c.columns|, _ => StringDatum(""));
    writes := [];
    ghost var row0 := row.mapData;
    verdict := Continue;
    var k := 0;
    while k < |c.columns|
      invariant FilledTo(c, row0, env, record, writes, k) && verdict == Continue && SameValues(row.mapData, row0)
      invariant FirstVerdict(c, c.columns[k..], row0, limit, env) == FirstVerdict(c, c.columns, row0, limit, env)
    {
      VerdictStep(c, k, row0, limit, env);
      ColumnSame(c, c.columns[k], row.mapData, row0, limit, env);
      ghost var before := record;
      var position;
      verdict, record, position := FillColumn(c, k, row, limit, env, record);
      if verdict != Continue {
        return;
      }
      FilledMore(c, row0, env, before, writes, k, record[k]);
      writes := writes + [position];
      k := k + 1;
    }
  }

  lemma ColumnSame(c: SchemaConfig, column: string, m: Values, n: Values, limit: AgeLimit, env: Env)
    requires SameValues(m, n)
    ensures ColumnVerdict(c, column, m, limit, env) == ColumnVerdict(c, column, n, limit, env)
    ensures DatumOf(c, column, m, env) == DatumOf(c, column, n, env)
  {
    assert Get(m, column) == Get(n, column);
  }

  lemma {:induction false} VerdictSame(c: SchemaConfig, columns: seq<string>, m: Values, n: Values, limit: AgeLimit,
                                       env: Env)
    requires SameValues(m, n)
    ensures FirstVerdict(c, columns, m, limit, env) == FirstVerdict(c, columns, n, limit, env)
    decreases columns
  {
    if columns != [] {
      ColumnSame(c, columns[0], m, n, limit, env);
      VerdictSame(c, columns[1..], m, n, limit, env);
    }
  }

  // All topics

  function TopicVerdict(c: SchemaConfig, row: Values, limit: AgeLimit, env: Env): Verdict {
    FirstVerdict(c, c.columns, row, limit, env)
  }

  /** The data of a row for one topic, read off the row column by column. */
  function DataOf(c: SchemaConfig, columns: seq<string>, row: Values, env: Env): (data: seq<Datum>)
    ensures |data| == |columns|
    decreases columns
  {
    if columns == [] then []
    else
      var d := DatumOf(c, columns[0], row, env);
      [if d.Some? then d.value else StringDatum("")] + DataOf(c, columns[1..], row, env)
  }

  lemma {:induction false} DataAt(c: SchemaConfig, columns: seq<string>, row: Values, env: Env, j: nat)
    requires j < |columns|
    ensures var d := DatumOf(c, columns[j], row, env);
      DataOf(c, columns, row, env)[j] == if d.Some? then d.value else StringDatum("")
    decreases columns
  {
    if j > 0 {
      DataAt(c, columns[1..], row, env, j - 1);
    }
  }

  lemma RecordIsData(c: SchemaConfig, row: Values, env: Env, record: seq<Datum>)
    requires RecordOf(c, row, env, record)
    ensures record == DataOf(c, c.columns, row, env)
  {
    forall j | 0 <= j < |record| ensures record[j] == DataOf(c, c.columns, row, env)[j] {
      DataAt(c, c.columns, row, env, j);
    }
  }

  function Encoded(c: SchemaConfig, row: Values, env: Env): Option<seq<byte>> {
    env.encode(SchemaOf(c), DataOf(c, c.columns, row, env))
  }

  ghost predicate ValidTopics(topics: seq<SchemaConfig>) {
    forall c <- topics :: c.Distinct() && IsInt32(c.schemaId)
  }

  datatype Published = Published(outcome: Outcome, log: seq<Attempt>, results: seq<ErrorCode>, signals: nat)

  /** publish on the topics still to come, with the row's buffer holding bytes. */
  function PublishFrom(topics: seq<SchemaConfig>, row: Values, limit: AgeLimit, env: Env,
                       bytes: seq<byte>, results: seq<ErrorCode>): Published
    requires ValidTopics(topics)
    decreases topics
  {
    if topics == [] then Published(Completed, [], results, 0)
    else
      var c := topics[0];
      match TopicVerdict(c, row, limit, env)
      case Aged => Published(TooOld, [], results, 0)
      case Raised => Published(Exception, [], results, 0)
      case Continue =>
        match Encoded(c, row, env)
        case None =>
          var rest := PublishFrom(topics[1..], row, limit, env, bytes, results);
          rest.(signals := rest.signals + 1)
        case Some(body) =>
          var more := bytes + Frame(c.schemaId, body);
          var message := Message(c.name, more, Get(row, c.keyColumn));
          var sent := Attempts(message, results);
          if !Returns(results) then Published(Retrying, sent, [], 0)
          else
            var rest := PublishFrom(topics[1..], row, limit, env, more, AfterProduce(results));
            rest.(log := sent + rest.log)
  }

  /** After: what a run that was at (topics, bytes, producer) still does, on top of what it did. */
  ghost predicate After(topics: seq<SchemaConfig>, row: Values, limit: AgeLimit, env: Env, bytes: seq<byte>,
                        log: seq<Attempt>, results: seq<ErrorCode>, signals: nat, end: Published)
    requires ValidTopics(topics)
  {
    var rest := PublishFrom(topics, row, limit, env, bytes, results);
    end == Published(rest.outcome, log + rest.log, rest.results, signals + rest.signals)
  }

  lemma AfterSent(topics: seq<SchemaConfig>, row: Values, limit: AgeLimit, env: Env, bytes: seq<byte>,
                  log: seq<Attempt>, results: seq<ErrorCode>, signals: nat, end: Published, body: seq<byte>)
    requires topics != [] && ValidTopics(topics) && After(topics, row, limit, env, bytes, log, results, signals, end)
    requires TopicVerdict(topics[0], row, limit, env) == Continue && Encoded(topics[0], row, env) == Some(body)
    ensures IsInt32(topics[0].schemaId)
    ensures var more := bytes + Frame(topics[0].schemaId, body);
      var sent := Attempts(Message(topics[0].name, more, Get(row, topics[0].keyColumn)), results);
      if Returns(results) then
        After(topics[1..], row, limit, env, more, log + sent, AfterProduce(results), signals, end)
      else end == Published(Retrying, log + sent, [], signals)
  {
    var more := bytes + Frame(topics[0].schemaId, body);
    var sent := Attempts(Message(topics[0].name, more, Get(row, topics[0].keyColumn)), results);
    var rest := PublishFrom(topics[1..], row, limit, env, more, AfterProduce(results));
    ConcatAssoc(log, sent, rest.log);
  }

  /** serialize, produce and its retries for one topic whose record is filled. */
  method Send(c: SchemaConfig, row: CSVRow, record: seq<Datum>, env: Env, littleHost: bool, out: Buffer,
              producer: Producer, ghost row0: Values)
    returns (encoded: bool, returned: bool)
    requires IsInt32(c.schemaId) && SameValues(row.mapData, row0) && RecordOf(c, row0, env, record)
    modifies out, producer, row`mapData
    ensures SameValues(row.mapData, row0) && encoded == Encoded(c, row0, env).Some?
    ensures encoded == env.encode(SchemaOf(c), record).Some?
    ensures encoded ==> out.bytes == old(out.bytes) + Frame(c.schemaId, env.encode(SchemaOf(c), record).value)
    ensures !encoded ==> returned && out.bytes == old(out.bytes) && unchanged(producer)
    ensures encoded ==> out.bytes == old(out.bytes) + Frame(c.schemaId, Encoded(c, row0, env).value)
    ensures encoded ==> returned == Returns(old(producer.results))
    ensures encoded ==> producer.results == AfterProduce(old(producer.results))
    ensures encoded ==> (producer.log == old(producer.log)
      + Attempts(Message(c.name, out.bytes, Get(row0, c.keyColumn)), old(producer.results)))
  {
    RecordIsData(c, row0, env, record);
    var bytes := env.encode(SchemaOf(c), record);
    var r := Serialize(bytes, c.schemaId, littleHost, out);
    encoded, returned := r != -1, true;
    if encoded {
      assert Get(row.mapData, c.keyColumn) == Get(row0, c.keyColumn);
      var key := row.At(c.keyColumn);
      returned := producer.Produce(Message(c.name, out.bytes, key));
    }
  }

  /** The body of the topic loop; going on is false when publish returns from inside it. */
  method PublishTopic(c: SchemaConfig, row: CSVRow, limit: AgeLimit, env: Env, littleHost: bool, out: Buffer,
                      producer: Producer, signals: nat,
                      ghost todo: seq<SchemaConfig>, ghost row0: Values, ghost end: Published)
    returns (outcome: Outcome, goingOn: bool, newSignals: nat)
    requires todo != [] && todo[0] == c && ValidTopics(todo) && SameValues(row.mapData, row0)
    requires After(todo, row0, limit, env, out.bytes, producer.log, producer.results, signals, end)
    modifies row`mapData, out, producer
    ensures SameValues(row.mapData, row0)
    ensures goingOn ==> After(todo[1..], row0, limit, env, out.bytes, producer.log, producer.results, newSignals, end)
    ensures !goingOn ==> end == Published(outcome, producer.log, producer.results, newSignals)
  {
    outcome, goingOn, newSignals := Completed, true, signals;
    VerdictSame(c, c.columns, row.mapData, row0, limit, env);
    ghost var before := row.mapData;
    var verdict, record, _ := FillRecord(c, row, limit, env);
    if verdict != Continue {
      assert producer.log + [] == producer.log;
      return if verdict == Aged then TooOld else Exception, false, signals;
    }
    RecordSame(c, before, row0, env, record);
    ghost var bytes, log, results := out.bytes, producer.log, producer.results;
    var encoded, returned := Send(c, row, record, env, littleHost, out, producer, row0);
    if encoded {
      AfterSent(todo, row0, limit, env, bytes, log, results, signals, end, Encoded(c, row0, env).value);
      goingOn := returned;
      outcome := if returned then Completed else Retrying;
    } else {
      newSignals := signals + 1;
    }
  }

  /** publish: the topics in key order, one buffer for all of them. */
  method PublishRow(topics: seq<SchemaConfig>, row: CSVRow, limit: AgeLimit, env: Env, littleHost: bool,
                    producer: Producer, oldCount: nat)
    returns (outcome: Outcome, newCount: nat, signals: nat)
    requires ValidTopics(topics)
    modifies row`mapData, producer
    ensures SameValues(row.mapData, old(row.mapData))
    ensures var p := PublishFrom(topics, old(row.mapData), limit, env, [], old(producer.results));
      && outcome == p.outcome && signals == p.signals
      && producer.log == old(producer.log) + p.log && producer.results == p.results
    ensures newCount == oldCount + if outcome == TooOld then 1 else 0
  {
    outcome, newCount, signals := Completed, oldCount, 0;
    var out := new Buffer();
    ghost var row0 := row.mapData;
    ghost var end := PublishFrom(topics, row0, limit, env, [], producer.results);
    end := end.(log := producer.log + end.log);
    var i := 0;
    while i < |topics|
      invariant i <= |topics| && outcome == Completed && newCount == oldCount
      invariant SameValues(row.mapData, row0) && ValidTopics(topics[i..])
      invariant After(topics[i..], row0, limit, env, out.bytes, producer.log, producer.results, signals, end)
    {
      var goingOn;
      assert topics[i..][1..] == topics[i + 1..];
      outcome, goingOn, signals :=
        PublishTopic(topics[i], row, limit, env, littleHost, out, producer, signals, topics[i..], row0, end);
      if !goingOn {
        newCount := oldCount + if outcome == TooOld then 1 else 0;
        return;
      }
      outcome := Completed;
      i := i + 1;
    }
    assert producer.log + [] == producer.log;
  }

  lemma RecordSame(c: SchemaConfig, m: Values, n: Values, env: Env, record: seq<Datum>)
    requires SameValues(m, n) && RecordOf(c, m, env, record)
    ensures RecordOf(c, n, env, record)
  {
    forall j | 0 <= j < |record| ensures DatumOf(c, c.columns[j], n, env) == Some(record[j]) {
      assert Get(m, c.columns[j]) == Get(n, c.columns[j]);
    }
  }
}
