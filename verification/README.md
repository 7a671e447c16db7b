# Flycatcher in Dafny

Flycatcher watches a directory, hands the paths of new CSV files to a pool of processor threads over an
in-memory queue, and publishes every row to Kafka topics. This project models that pipeline and proves what
it keeps: who owns a file, what a table means once it has gone through the reader, the transformer chain and
`publish`, and what the threads can and cannot lose.

Check everything with `dafny verify dfyconfig.toml`.

## What is modelled

- `CsvLine`, `Stream`, `CsvReader`, `CsvTable`, `CsvReadBack`, `CsvQuotes`: the three-state line scanner, `std::getline` with its end-of-file
  and failure bits, the one mutable `CSVRow` and the iterator over it, and a printer for section 2 of RFC 4180
  (every optional quoting, every mixture of CRLF and LF), with the exact condition under which the reader inverts it, and quoted passages anywhere in a field.
- `Transformers`, `TransformMeaning`, `RowIndependence`: the nested decorator objects and the loop that builds them, the left-to-right
  meaning of the configuration, and the reused, never-cleared row against a fresh row per line.
- `Framing`, `Schema`, `MaxAge`, `Publish`, `PublishFacts`, `PublishMeaning`: wire framing, the assembled record schema, the age
  filter in C++ integer arithmetic, and `publish` with its one buffer per row.
- `Handle`, `HandleMeaning`, `EndToEnd`, `FileSystem`: claiming a file by a rename, the row loop with its exception budget, the
  second rename; and the whole way from the text of a table to the messages.
- `Pipeline`, `PipelineFiles`, `PipelinePaths`, `PipelineOwnership`, `PipelineShutdown`: poller, queue and any number
  of processors as a step system over one directory, in which a row raises or not as it likes; `PipelineRows`: the
  same with every processor running the row loop of `Handle` over what it has read.
- `SafeQueue`, `QueueMonitor`, `LogMonitor`, `LogProcessor`, `Workers`: the queue as one thread uses it, its
  monitor with every lock, test, sleep and notify a step, the protocol between processors and log thread, the
  log thread's loop and drain, and the worker loop.
- `DirectoryPoller`, `PollerNames`: start-up listing, the walk over variable-length inotify records, and snapshot comparison.

Threads are modelled twice where that says different things: as step systems with all interleavings for the
protocols, and as classes whose methods take what other threads do meanwhile as an argument (the "rounds" of
`SafeQueue`) for what one thread computes.

What the proofs bring out, beyond the expected:

- The one character after a closing quote is lost when it is neither a comma nor another quote; what follows it belongs
  to the field (`AfterClosingQuote`).
- All topics of a row share one output buffer. A consumer of a topic finds its own schema id and body in its
  message exactly when the encoder refused the row for every earlier topic; otherwise the message starts with the
  frame of the first topic that was serialized (`OnlyFirstTopicDecodes`).
- The reader takes its input line by line and splits the header at every comma. Of the tables section 2 of RFC 4180
  allows it gives back exactly those whose header is unquoted and whose fields hold no line break
  (`TableReadsBack`).
- The chain builder moves `last_ptr` into the factory call. An unknown type therefore destroys everything
  built before it, just as a `void` entry discards it, and the loop goes on (`ChainMeaning`).
- A last line without a line break is lost exactly when it is empty (`UnendedTableReadsBack`).
- A file whose in-progress or done name is already taken overwrites the other one (`OthersUntouched`), which is why the
  ownership results assume fresh names.
- A line shorter than the header leaves stale values in exactly the columns it has no field for
  (`ShortLineKeepsStale`). A transformer may write a column outside the header: as long as the chain sets
  every such column that it leaves filled before it reads it, lines stay independent (`RowsIndependent`). A chain that
  appends or prepends an outside column to a header column nothing else writes, and only later sets the outside column,
  to a nonempty value in the end, glues that value onto every line after the first that has a value in the header column
  (`LeakyChainLeaks`).
- The age in days is narrowed to 32 bits, so what decides is the day count modulo 2^32: a row is dropped exactly when
  that residue is above the limit and below 2^31 (`TooOldExactly`). At every clock value, every distance of 2^31 days
  plus a multiple of 2^32 passes as new (`OldTimestampPasses`), while still older rows can be dropped.
- A column type other than string, float, double, int and long is declared a string by the schema assembler and
  then stops every row (`UnknownTypeStops`).

Two functions of the program end without a return statement (src/impl/DirectoryPoller.cpp:36-47 and
src/csv/CSVRow.cpp:138-141); they are taken to return success and the stream. The age limit is taken to be null
when none is configured.

## Model

| member | source | states |
|---|---|---|
| CsvLine.ParserComposition | src/csv/CSVRow.cpp:49-113 | joining two lines with a comma joins their field lists if and only if the first line does not end inside an open quote |
| CsvLine.FieldCount | src/csv/CSVRow.cpp:57-112 | a line has one field more than it has commas read outside open quotes |
| CsvQuotes.PassagesRead | src/csv/CSVRow.cpp:57-112 | a field with any number of quoted passages, wherever they stand, closed or left open at its end, reads as the plain and the quoted text in order, doubled quotes once |
| CsvQuotes.AfterClosingQuote | src/csv/CSVRow.cpp:104-106 | the character after a closing quote is dropped, what follows it is kept |
| CsvQuotes.OneFieldLines | src/csv/CSVRow.cpp:57-112 | every line read as one field is of that kind, so the two results say what the reader makes of it |
| Stream.GetlineDelivers | src/csv/CSVRow.cpp:53 | getline hands out the pieces of the text one by one and fails exactly when none is left, leaving the buffer alone at end of file |
| Stream.IStream.Getline | src/csv/CSVIterator.cpp:15-20 | the character loop behind getline computes that step on the stream bits and the buffer |
| CsvReader.CSVRow.ReadChar | src/csv/CSVRow.cpp:60-110 | one turn of the switch moves state, index, fields and stored columns as one step of the scanner does |
| CsvReader.CSVRow.Next | src/csv/CSVRow.cpp:49-113 | next leaves the parsed fields of the stripped line and stores each under its column over what earlier lines left |
| CsvReader.CSVRow.At | src/csv/CSVRow.cpp:15-18 | operator[] answers the value of a column and inserts a missing one empty |
| CsvReader.CSVIterator.SplitColumns | src/csv/CSVIterator.cpp:16-24 | the header becomes the pieces between all commas, CR and LF removed, a trailing empty one included |
| CsvReader.CSVIterator.ReadHeader | src/csv/CSVIterator.cpp:34-38 | the header line is consumed once and fixes the columns; the row lines stay due |
| CsvReader.CSVIterator.Advance | src/csv/CSVIterator.cpp:30-46 | ++ parses and stores the first line still due, or drops the stream when none is |
| CsvReader.CSVIterator.Begin | src/csv/CSVIterator.cpp:4-7 | a new iterator stands on the first row after the header, or at the end |
| CsvTable.RecordRoundTrip | src/csv/CSVRow.cpp:49-113 | a record printed with any optional quoting and either line break parses to its texts |
| CsvTable.HeaderRoundTrip | src/csv/CSVIterator.cpp:11-27 | a header of plain names joined by commas gives those names, whatever the line break |
| CsvTable.TableRoundTrip | src/csv/CSVIterator.cpp:11-46 | a table with plain names, fields of one line each, any optional quoting and any line breaks between records, all lines ended, reads back as its header and exactly its rows in order |
| CsvReadBack.TableReadsBack | src/csv/CSVIterator.cpp:11-46 | of all tables section 2 of RFC 4180 allows, line breaks inside quoted fields and quoted names included, it reads back exactly those with an unquoted header and no line break inside a field |
| CsvReadBack.UnendedTableReadsBack | src/csv/CSVIterator.cpp:40-43 | with the last line break left out, exactly those whose last line, besides, is not empty |
| CsvReadBack.ParsedClean | src/csv/CSVRow.cpp:53-57 | no parsed field of any line holds a line break |
| CsvTable.TableWidth | src/csv/CSVRow.cpp:57-112 | every line of a table as in `TableRoundTrip` is read with exactly as many fields as the header has names |
| CsvTable.UnendedTableRoundTrip | src/csv/CSVIterator.cpp:40-43 | without the last line break such a table still reads back if and only if the last printed line is not empty |
| CsvTable.StoreLookup | src/csv/CSVRow.cpp:68-112 | with distinct names a stored row answers each column with its own field and all other columns as before |
| CsvTable.ReadTable | src/csv/CSVRange.cpp:7-15 | iterating the range gives the parsed fields of every row line, and the values each row object holds after its line |
| CsvTable.ReadPrinted | src/csv/CSVIterator.cpp:30-73 | the reader run on such a table: the printed rows in order, each answering every column by name |
| Transformers.Transformer.constructor | src/transformers/Factory.h:25-35 | a decorator keeps what it is given to wrap, the base transformer drops it |
| Transformers.Transformer.Operation | src/transformers/Decorator.cpp:8-15 | the nested objects change the row as their actions do, innermost first |
| Transformers.Transformer.OperationBase | src/transformers/BaseTransformer.cpp:12-18 | prefixes a nonempty value |
| Transformers.Transformer.OperationAppend | src/transformers/DecoratorAppend.cpp:9-17 | appends the other column only if both are nonempty, inserting the columns it looks at |
| Transformers.Transformer.OperationPrepend | src/transformers/DecoratorPrepend.cpp:9-17 | the same in front |
| Transformers.Transformer.OperationUnuuid | src/transformers/DecoratorUnuuid.cpp:11-21 | the in-place erase and lower-casing computes the dashless lower-case value |
| Transformers.Transformer.OperationMap | src/transformers/DecoratorMap.cpp:9-21 | replaces a nonempty value found in the lookup table |
| Transformers.DashlessNormal | src/transformers/DecoratorUnuuid.cpp:15-20 | unuuid leaves no dash and no capital and is idempotent |
| Transformers.GetInstance | src/transformers/Factory.h:58-69 | null exactly for an unregistered type, else a new object of the registered kind |
| Transformers.Configure | src/config/ConfigParser.cpp:322-346 | fills in the fields of the kind; of repeated lookup keys the first one stays |
| Transformers.CompileTransformers | src/config/ConfigParser.cpp:309-365 | the loop yields at most one object, whose actions are those compiled from the list, and one shutdown signal per unknown type |
| Transformers.SurvivorExists | src/config/ConfigParser.cpp:314-356 | every list has exactly one point from which its entries survive: its last void entry, or right after a later unknown one, or the start |
| Transformers.ChainMeaning | src/config/ConfigParser.cpp:309-365 | running the built object is applying the surviving entries from left to right; with known types and no void entry that is the whole list |
| TransformMeaning.KnownTypes | src/transformers/Factory.h:58-69 | the six registered names; void alone discards what was built before |
| TransformMeaning.OneSignalEach | src/config/ConfigParser.cpp:349-355 | one shutdown signal for each entry of another name |
| TransformMeaning.AppendMeans | src/transformers/DecoratorAppend.cpp:13-16 | an entry of type append makes own + other of two nonempty values, and changes nothing else |
| TransformMeaning.PrependMeans | src/transformers/DecoratorPrepend.cpp:13-16 | type prepend makes other + own of them |
| TransformMeaning.SetMeans | src/transformers/DecoratorSet.cpp:9-13 | type set leaves its value |
| TransformMeaning.MapMeans | src/config/ConfigParser.cpp:325-331 | type map replaces a nonempty value by that of the first pair with it as key, if there is one |
| TransformMeaning.UnuuidMeans | src/transformers/DecoratorUnuuid.cpp:15-20 | type unuuid leaves the dashless lower-case value |
| TransformMeaning.DashlessByCharacter | src/transformers/DecoratorUnuuid.cpp:17-19 | that value character by character: dashes go, capitals become small, all else stays |
| TransformMeaning.VoidMeans | src/transformers/BaseTransformer.cpp:12-18 | type void puts "BASE " in front of a nonempty value |
| TransformMeaning.EntryByEntry | src/config/ConfigParser.cpp:314-356 | a list acts as its entries one after the other |
| Transformers.CompileAndRun | src/impl/CsvProcessor.cpp:225-228 | compiling a list and running it on a row has that meaning on the row's values |
| RowIndependence.RowsIndependent | src/impl/CsvProcessor.cpp:219-229 | with lines of header width and a chain that sets the columns outside the header it leaves filled before it reads them, the reused row shows for each line what a fresh row would |
| RowIndependence.TwoLinesDecide | src/csv/CSVIterator.cpp:30-46 | a chain keeps the lines of every file of header width independent if and only if it does so for every file of two lines |
| RowIndependence.ActValue | src/transformers/DecoratorAppend.cpp:9-17 | the value a transformer gives its own column depends on the old values of that and of the other column only |
| RowIndependence.ActFrame | src/transformers/DecoratorAppend.cpp:13-16 | a transformer changes the value of its own column at most |
| RowIndependence.ShortLineKeepsStale | src/csv/CSVRow.cpp:57-112 | a parsed line hides all earlier lines from a column if and only if it has a field for it |
| RowIndependence.HeaderOnlyReusable | src/transformers/DecoratorSet.cpp:9-12 | in particular every chain that sets no column outside the header to a nonempty value is such a chain, whatever it reads or appends to |
| RowIndependence.LeakyChainLeaks | src/csv/CSVRow.cpp:15-18 | for every chain that appends or prepends an outside column to a header column no other action writes and only later sets the outside one, to a nonempty value in the end, and every file of header width: each line after the first with a value there shows the set value glued on, a fresh row would not |
| RowIndependence.LeakyNotReusable | src/transformers/DecoratorAppend.cpp:9-17 | no such chain meets the condition of `RowsIndependent` |
| Framing.IdBytes | src/impl/CsvProcessor.cpp:59-61 | htonl and memcpy put the id into the buffer most significant byte first on hosts of either byte order |
| Framing.FrameBytes | src/impl/CsvProcessor.cpp:52-64 | a frame is a zero byte, the id modulo 2^32 from the highest byte down, and the body |
| Framing.FrameRoundTrip | src/impl/CsvProcessor.cpp:48-66 | decoding a frame recovers every int32 id and the body |
| Framing.Serialize | src/impl/CsvProcessor.cpp:27-67 | the buffer grows by exactly one frame and the new size is returned; on an encoder failure it is unchanged and the result is -1 |
| Framing.OwnFrameOnly | src/impl/CsvProcessor.cpp:72-73 | decoding a buffer of several frames gives the last frame's id and body if and only if it is the only frame |
| Schema.AssembleSchema | src/config/ConfigParser.cpp:178-221 | field j of the schema is the renamed column j with its declared type |
| Schema.DatumAgrees | src/impl/Util.cpp:22-52 | a datum has exactly the declared type of its column, and for unknown types there is none |
| Schema.PositionOfColumn | src/impl/CsvProcessor.cpp:112 | with distinct renamed columns the index of a column's field is the column's position |
| MaxAge.AgeThreshold | src/impl/CsvProcessor.cpp:93-97 | a limit of D >= 0 days drops a row exactly from D + 1 full days on; the exact threshold for negative limits too |
| MaxAge.TooOldExactly | src/impl/CsvProcessor.cpp:95-97 | for every clock value, timestamp and limit an int holds: dropped if and only if the day count modulo 2^32 is above the limit and below 2^31 (and the matching interval for negative limits) |
| MaxAge.AgeRuleExactly | src/impl/CsvProcessor.cpp:95-97 | the filter agrees with the limit exactly for rows younger than limit + 1 days and for older ones with that residue; for rows from the future exactly for the other residues |
| MaxAge.OldTimestampPasses | src/impl/CsvProcessor.cpp:95-97 | at every clock value and for every limit there are older rows that pass, one for each lap of 2^32 days |
| MaxAge.PassesAndDropped | src/impl/CsvProcessor.cpp:95-97 | a present-day clock, one 64-bit timestamp that passes and an older one that is dropped |
| Publish.Producer.Produce | src/impl/CsvProcessor.cpp:129-166 | the same message is handed over again as long as the queue is full, and any other result ends the loop |
| Publish.CheckAge | src/impl/CsvProcessor.cpp:89-103 | the age check lets a column through, drops the row or raises |
| Publish.FillRecord | src/impl/CsvProcessor.cpp:78-113 | every record field is written exactly once, at its column's position, with the column's converted value; the first bad column decides how the loop ends |
| Publish.Send | src/impl/CsvProcessor.cpp:121-170 | one more frame in the shared buffer, and the whole buffer handed to the producer under the row's key |
| Publish.PublishRow | src/impl/CsvProcessor.cpp:69-184 | outcome, messages and the dropped-row counter of a row over all topics; the row's column values are unchanged |
| PublishMeaning.PayloadsCarryRecords | src/impl/CsvProcessor.cpp:72-135 | in every run a message names its topic and key value, and its payload ends with the frame of the encoder's output on the record filled from the row, after the frames of the earlier topics' records |
| PublishMeaning.FieldMeans | src/impl/Util.cpp:22-52 | each record field has the name and type of the maps and holds the value its type's parser reads |
| PublishMeaning.FirstBadColumn | src/impl/CsvProcessor.cpp:78-113 | the first column that does not pass ends the row: too old, or an exception for an unreadable timestamp, an unconvertible value or an unknown type |
| PublishMeaning.ProduceEnds | src/impl/CsvProcessor.cpp:129-166 | after n full queues any other answer, an error too, ends the message, handed over n + 1 times |
| PublishMeaning.ProduceStuck | src/impl/CsvProcessor.cpp:154-165 | while the queue is full the message is handed over again |
| PublishFacts.PayloadsAreFramesSoFar | src/impl/CsvProcessor.cpp:72-135 | in every run, whatever is handed to the producer is for some topic the frames of all topics serialized so far, its own last |
| PublishFacts.SmoothRun | src/impl/CsvProcessor.cpp:73-183 | if no topic before the first that stops the row fails, publish reaches exactly those topics, once each, in order, whatever the later ones would do |
| PublishFacts.OnlyFirstTopicDecodes | src/impl/CsvProcessor.cpp:72-135 | in every run a consumer of a serialized topic decodes its own id and body if and only if no earlier topic was serialized |
| PublishFacts.AgedRows | src/impl/CsvProcessor.cpp:73-113 | an aged row is dropped if any topic has the age column and then reaches exactly the topics before the first such topic, whatever the later ones would do |
| PublishFacts.SchemaAgreement | src/impl/CsvProcessor.cpp:105-112 | every field of a filled record has the name and the type the schema declares at its position |
| PublishFacts.UnknownTypeStops | src/impl/Util.cpp:48-51 | a topic with a column of unknown type never lets a row through |
| Handle.PublishSame | src/impl/CsvProcessor.cpp:69-184 | publish depends on a row only through its column values, not on which columns were inserted |
| HandleMeaning.LineMeans | src/impl/CsvProcessor.cpp:216-247 | a line is stored, transformed and published under the configured limit at its own time; it counts as what publish ends on, and the loop is left at the 14th exception |
| HandleMeaning.AgedLine | src/impl/CsvProcessor.cpp:84-103 | a line over the limit adds one to the dropped rows and exactly the messages of the topics before the age topic; any other line one to the published rows and a message for every topic |
| HandleMeaning.AgedInFile | src/impl/CsvProcessor.cpp:216-247 | in a file without errors exactly the rows over the limit are dropped and all others published |
| Handle.FileRowsIndependent | src/impl/CsvProcessor.cpp:216-247 | a whole file is handled as if every line had a row object of its own, under the condition of `RowsIndependent` |
| Handle.RowAccounting | src/impl/CsvProcessor.cpp:216-247 | rows published, dropped and raised are at most the rows due; at most 14 raise, and the counts fall short of the rows due only when 14 have (or the last one is still being retried) |
| Handle.ReachesVisited | src/impl/CsvProcessor.cpp:216-247 | the counts cover a prefix of the lines, one each: on just the first v lines, v the sum of the counts, the loop comes out the same whatever follows |
| Handle.ProcessRow | src/impl/CsvProcessor.cpp:223-230 | the try block: transform in place, then publish |
| Handle.RunLoop | src/impl/CsvProcessor.cpp:216-247 | the loop over the real iterator, row, transformers and producer computes the specified counts and messages; the number of its turns is the sum of the counts, and the iterator has exactly the other lines left |
| Handle.HandleFile | src/impl/CsvProcessor.cpp:211-255 | either the path did not exist and nothing changes, or its content ends under the done name whatever its rows did, with the counts and messages of its lines, one count for each line visited |
| FileSystem.Directory.Rename | src/impl/CsvProcessor.cpp:212 | an atomic rename that fails exactly when the source is missing |
| FileSystem.FinishedMoves | src/impl/CsvProcessor.cpp:211-254 | claim and finish move the content from the path to the done name and nothing else |
| FileSystem.OthersUntouched | src/impl/CsvProcessor.cpp:211-254 | handling a file leaves all other files alone if and only if its in-progress name was free and its done name was free or held the same content |
| EndToEnd.PrintedTableHandled | src/impl/CsvProcessor.cpp:214-247 | handling a printed table of one-line fields is handling its records one by one: quoting, line breaks and row reuse cannot be told from counts and messages |
| PipelineOwnership.SingleOwner | src/impl/CsvProcessor.cpp:211-254 | in every run each file exists, with its content, under exactly one of its three names, and is in progress exactly while one single processor owns it |
| PipelineOwnership.ReadAtMostOnce | src/impl/CsvProcessor.cpp:212-219 | each file is claimed and read at most once however often its path was queued, and what is read is its original content |
| PipelineOwnership.PathConservation | src/AbstractPoller.cpp:7-14 | admitted paths are pending, in a hand, queued or handled, each exactly once; dequeues follow the order of enqueues; no admitted path is the empty result |
| PipelineOwnership.AtMostOneMoreStep | src/AbstractWorker.cpp:6-21 | after the flag each processor starts at most one more step and claims at most one more file |
| PipelineOwnership.PollerAtMostOneMoreStep | src/AbstractWorker.cpp:6-21 | after the flag the poller starts at most one more step |
| PipelineOwnership.AtMostOneMoreEnqueue | src/AbstractPoller.cpp:7-14 | from any moment with the flag up on, at most one more path is enqueued, and none once the poller is back at the flag |
| PipelineOwnership.AtMostNMoreClaims | src/AbstractProcessor.cpp:9-17 | from any moment with the flag up on, N processors claim at most N files |
| PipelineOwnership.NothingLeftInProgress | src/impl/CsvProcessor.cpp:212-254 | once all processors have returned, every claimed file is under its done name and every other one untouched |
| PipelineOwnership.InitialFiles | src/impl/DirectoryPoller.cpp:23-34 | a start-up directory without coexisting names satisfies the ownership invariant |
| PipelineOwnership.OwnershipKept | src/impl/CsvProcessor.cpp:211-254 | every step of every thread keeps the ownership invariant |
| PipelineShutdown.NeverBlocked | src/AbstractWorker.cpp:6-21 | in every state each processor and the poller, unless it has returned, has a step it can take |
| PipelineShutdown.DistanceFalls | src/AbstractWorker.cpp:8-18 | with the flag up every step of a worker except reading one more row brings it nearer to its return, and no step leads away |
| PipelineShutdown.MovesRunOut | src/AbstractWorker.cpp:8-18 | under every schedule, from the flag on, N processors and the poller take at most 7N + 4 steps besides reading rows |
| PipelineShutdown.CanWindUp | src/AbstractWorker.cpp:6-21 | every run with the flag up can go on until all workers have returned, and then every claimed file is under its done name |
| PipelineRows.PublishedOnce | src/impl/CsvProcessor.cpp:211-254 | under every schedule: a file is done exactly when an output was made of it, one only, by the processor that read it, with the counts and messages of the row loop on its original content |
| PipelineRows.RefinesPipeline | src/AbstractProcessor.cpp:9-17 | with the rows left out every such run is a run of the pipeline, so all results on those hold for it |
| PipelineRows.SystemKept | src/impl/CsvProcessor.cpp:216-254 | every step keeps each unfinished row loop on its way to the counts and messages of its file |
| PipelineRows.RowCanBeTaken | src/impl/CsvProcessor.cpp:216-247 | in every reachable state a processor in the row loop can take its next row as publish ends on it, or end the file, unless the row is still being retried |
| PipelinePaths.HeldWasAdmitted | src/AbstractProcessor.cpp:9-17 | what a processor holds has been admitted, so it is not the empty result |
| PipelinePaths.PathsKept | src/AbstractProcessor.cpp:9-17 | every step keeps the balance of every path and the order of the queue |
| PipelinePaths.ShutdownKept | src/AbstractWorker.cpp:8-18 | every step keeps the bounds on steps and claims after the flag, the poller's included |
| QueueMonitor.NoLostWakeup | src/SafeQueue.h:18-53 | whenever the mutex is free, a thread asleep and un-notified means an empty queue, and with items present every waiting thread can proceed |
| QueueMonitor.FirstInFirstOut | src/SafeQueue.h:18-53 | one thread at a time inside, and items leave in the order they came, once each |
| QueueMonitor.CoveredKept | src/SafeQueue.h:20-22 | every step keeps a sleeper next to a nonempty queue covered by the notify about to follow |
| LogMonitor.NoLostWakeup | src/impl/CsvProcessor.cpp:277-281 | the counter is the number of processors between their locked increment and decrement, and a log thread asleep un-notified at zero will still be notified |
| LogMonitor.LogsOnlyWhenIdle | src/logging/LogProcessor.cpp:43-59 | unless its hour has passed, the log thread leaves the wait only while no processor is counted |
| LogMonitor.CounterKept | src/impl/CsvProcessor.cpp:200-203 | every step keeps the counter equal to the number of counted processors, without wrapping |
| SafeQueue.SafeQueue.Dequeue | src/SafeQueue.h:27-38 | returns the first item ever available, or stays waiting only if there is none |
| SafeQueue.SafeQueue.DequeueWithTimeout | src/SafeQueue.h:40-53 | the same, leaving its argument alone when the time is over and there is nothing |
| LogProcessor.CreateLogNonEmpty | src/logging/Logging.h:192-206 | no log message is empty |
| LogProcessor.CreateLogParts | src/logging/Logging.h:192-206 | a log line is time, level, name in brackets and message |
| LogProcessor.Log | src/logging/Logging.h:225-270 | messages of levels INFO, WARN and ERROR are enqueued, TRACE and DEBUG are not |
| LogProcessor.DrainComplete | src/logging/LogProcessor.cpp:72-79 | the drain takes everything left if and only if no message is empty |
| LogProcessor.LogProcessor.Drain | src/logging/LogProcessor.cpp:72-79 | prints the messages up to the first empty one, in order |
| LogProcessor.LogProcessor.Run | src/logging/LogProcessor.cpp:27-82 | loop and drain together print every enqueued message once and in order, and announce the number drained; a blocked thread has printed all there was |
| Workers.PollerWorker.Step | src/AbstractPoller.cpp:7-14 | the last pending path moves to the back of the queue, and nothing moves if none is pending |
| Workers.ProcessorWorker.Step | src/AbstractProcessor.cpp:9-17 | the first available path is handled, if there is one |
| Workers.ProcessorWorker.Run | src/AbstractWorker.cpp:6-21 | exactly the tests that see the flag down are followed by a step, and what is handled is the front of what was enqueued, in order |
| DirectoryPoller.DirectoryPoller.constructor | src/impl/DirectoryPoller.cpp:23-34 | the start-up listing is admitted in order, without done files |
| DirectoryPoller.DirectoryPoller.Visit | src/impl/DirectoryPoller.cpp:116-162 | one record is decoded from the buffer, admits its path or not, and is stepped over exactly |
| DirectoryPoller.DirectoryPoller.Walk | src/impl/DirectoryPoller.cpp:105-163 | the walk ends exactly at the length read, has visited each record once, and appends exactly the paths of the admitting events |
| DirectoryPoller.DirectoryPoller.Poll | src/impl/DirectoryPoller.cpp:64-176 | the last pending path, reading events only when none is pending, or the empty result |
| PollerNames.CStringReads | src/impl/DirectoryPoller.cpp:147-149 | the name of a record is the bytes before the first NUL, in order |
| PollerNames.RecordAdmits | src/impl/DirectoryPoller.cpp:116-162 | a record admits the directory, a slash and its name exactly if it closes a file that is no directory and was not just created, and the path has no reserved suffix |
| PollerNames.RecordByRecord | src/impl/DirectoryPoller.cpp:105-163 | records are taken in order, and one without a name admits nothing |
| PollerNames.ShouldAddMeans | src/impl/DirectoryPoller.cpp:49-52 | at start-up only names ending in _done are left out, later those ending in _inprogress too |
| PollerNames.AddedInOrder | src/impl/DirectoryPoller.cpp:23-34 | the files that pass are added in the order of the listing |
| PollerNames.EndsWithMeans | src/impl/Util.cpp:4-20 | the suffix test holds exactly of something followed by the suffix |
| DirectoryPoller.AdmittedNames | src/impl/DirectoryPoller.cpp:136-158 | what events admit is never empty and has no reserved suffix |
| DirectoryPoller.DirectoryPoller.Scan | src/impl/DirectoryPollerMacOS.cpp:128-154 | appends the new files of a snapshot and remembers the snapshot |
| DirectoryPoller.SnapshotAdmission | src/impl/DirectoryPollerMacOS.cpp:128-154 | over any snapshots a path is admitted exactly as often as it appears, a reserved one never |
| DirectoryPoller.ScanAll | src/impl/DirectoryPollerMacOS.cpp:128-154 | scan after scan the pending paths grow by exactly those admissions |

## Left out

- Kafka, Avro encoding, serdes, REST and YAML: the encoder is a function to bytes or an exception, produce results are a
  given sequence, the configuration is a parsed list whose keys are present, schema ids are fixed inputs.
- inotify, kqueue, select, signals and clocks: events, snapshots, the shutdown flag and the time at each row are inputs; the
  time does not advance within one row.
- Handle.HandleFile: one thread's view of `handle`; other threads appear in `Pipeline`, the active-processor counter in
  `LogMonitor`.
- Handle.RowAccounting: a row whose last produce results are all "queue full" counts as still being retried; termination of
  that loop depends on the broker and is not claimed.
- PipelineRows.PublishedOnce: assumes that no line of a file is wider than its header, as `CsvReader.CSVRow.Next` requires; the
  producer's results and the clock are given per file, and messages of different processors are not put in one order.
- PipelineShutdown.CanWindUp: that the threads are scheduled and that files and retries end is not claimed; a row that the
  producer keeps refusing with "queue full" is one row.
- LogProcessor.LogProcessor.Run: termination of the log thread while it is blocked in `dequeue` depends on another message
  and is not claimed; the producers are taken to have stopped before the drain starts, as main arranges it.
- PipelineOwnership.SingleOwner: assumes atomic rename, that files created from outside have names no earlier file has or
  will pass through, and that no file at start-up carries an in-progress or done name of another.
- CsvReader.CSVRow.Next: requires that a line has at most as many fields as there are columns, because the program indexes
  its columns without a check; reading a stream without a header line, which has no columns, is outside that precondition.
- Shutdown signals sent on configuration or encoder errors are counted, not delivered.
- Publish.PublishRow: requires distinct field names and int32 schema ids, as the Avro library and the registry guarantee; the
  topics are given in key order.
- Number parsing is a partial function that may raise; floating-point results are opaque tokens; `std::tolower` is the one
  of the C locale; overflow of the 64-bit subtraction in the age check is not modelled.
- `CSVRow::size`, `operator[](index)`, `operator std::string` and the log lines themselves: output only.
- Builders, bridges, thread guards, argument handling, `KafkaPoller` and the logger back ends: wiring.
