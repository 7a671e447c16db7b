/** The pipeline with the rows in it: every processor runs the row loop of Handle over what it has read. */
module PipelineRows {
  import opened Stream
  import opened CsvReader
  import opened Publish
  import opened Handle
  import opened Pipeline
  import opened PipelineFiles
  import opened PipelineOwnership

  /** The row loop of one processor over one file: content and start are those of its beginning, lines are
      still due, the first of them row k, base is what the row object holds, tally counts so far. */
  datatype Job = Idle | Job(file: Context, content: string, start: Tally,
                            lines: seq<string>, k: nat, base: Values, tally: Tally)

  /** What a processor has published by the time it finishes a file. */
  datatype Output = Output(processor: nat, path: Path, job: Job)

  datatype System = System(s: State, jobs: seq<Job>, outputs: seq<Output>)

  /** The loop begins: clock and results are what the outside will answer to it. */
  function StartJob(ctx: Context, content: string, clock: nat -> int, results: seq<ErrorCode>): Job {
    var start := Tally(0, 0, 0, false, [], results);
    Job(ForFile(ctx.(clock := clock), content), content, start, RowsOf(Pieces(content, '\n')), 0, map[], start)
  }

  /** A row is due, and no wider than the header. */
  ghost predicate CanRow(job: Job) {
    job.Job? && ValidTopics(job.file.topics) && job.lines != []
    && |CsvLine.ParseLine(job.lines[0])| <= |job.file.columns|
  }

  function RowValues(job: Job): Values
    requires CanRow(job)
  {
    Transformers.ActAll(job.file.actions, Store(job.base, job.file.columns, CsvLine.ParseLine(job.lines[0])))
  }

  function RowResult(job: Job): Published
    requires CanRow(job)
  {
    PublishAt(job.file, job.k, RowValues(job), job.tally.results)
  }

  function AfterRow(job: Job): Job
    requires CanRow(job)
  {
    job.(lines := job.lines[1..], k := job.k + 1, base := RowValues(job), tally := job.tally.Count(RowResult(job)))
  }

  predicate FitContent(content: string) { FitText(Pieces(content, '\n')) }

  /** The steps of the pipeline, with rows that end as publish ends on them: one that is still being
      retried is not done, and the file ends after its last line. */
  ghost predicate Allowed(f: System, step: Step) {
    && Enabled(f.s, step) && |f.jobs| == |f.s.processors|
    && (step.Create? ==> FitContent(step.content))
    && (step.Works? ==> JobAllows(f.jobs[step.i], step.action))
  }

  ghost predicate JobAllows(job: Job, action: Action) {
    && (action.Row? ==> CanRow(job) && RowResult(job).outcome != Retrying
                        && (action.raises <==> RowResult(job).outcome == Exception))
    && (action.EndOfFile? ==> job.Job? && job.lines == [])
  }

  function NextJob(ctx: Context, s: State, job: Job, pc: Processor, action: Action, clock: nat -> int,
                   results: seq<ErrorCode>): Job
    requires Ready(pc, action, s.queue) && JobAllows(job, action)
  {
    if action.Opens? then
      if FileSystem.InProgress(pc.path) in s.files
      then StartJob(ctx, s.files[FileSystem.InProgress(pc.path)], clock, results) else Idle
    else if action.Row? then AfterRow(job)
    else job
  }

  /** One step of the system; clock and results matter only if it opens a file. */
  function Move(ctx: Context, f: System, step: Step, clock: nat -> int, results: seq<ErrorCode>): System
    requires Allowed(f, step)
  {
    var t := Apply(f.s, step);
    if !step.Works? then f.(s := t)
    else
      var pc, job := f.s.processors[step.i], f.jobs[step.i];
      System(t, f.jobs[step.i := NextJob(ctx, f.s, job, pc, step.action, clock, results)],
             if step.action.Finishes? then f.outputs + [Output(step.i, pc.path, job)] else f.outputs)
  }

  // What every step keeps

  ghost predicate FitAll(s: State) {
    forall o <- s.originals :: FitContent(s.originals[o])
  }

  /** The job is over its content, begun with no counts and no messages. */
  ghost predicate Over(ctx: Context, job: Job) {
    && job.Job? && FitContent(job.content)
    && job.file == ForFile(ctx.(clock := job.file.clock), job.content)
    && job.start == Tally(0, 0, 0, false, [], job.start.results)
  }

  /** All the counts and messages of the row loop over the job's content. */
  ghost function Total(ctx: Context, job: Job): Tally
    requires ValidTopics(ctx.topics) && Over(ctx, job)
  {
    RunRows(job.file, RowsOf(Pieces(job.content, '\n')), 0, map[], job.start)
  }

  ghost predicate Running(ctx: Context, job: Job, exc: nat)
    requires ValidTopics(ctx.topics) && Over(ctx, job)
  {
    && FitLines(job.lines, |job.file.columns|) && !job.tally.Stops() && job.tally.raised == exc
    && Total(ctx, job) == RunRows(job.file, job.lines, job.k, job.base, job.tally)
  }

  ghost predicate Ended(ctx: Context, job: Job)
    requires ValidTopics(ctx.topics) && Over(ctx, job)
  {
    !job.tally.retrying && Total(ctx, job) == job.tally
  }

  /** Processor i has read this original, and its job is over it. */
  ghost predicate HasRead(ctx: Context, s: State, i: nat, p: Path, job: Job) {
    p in s.originals && Over(ctx, job) && job.content == s.originals[p] && Read(i, p, s.originals[p]) in s.readLog
  }

  ghost predicate JobInv(ctx: Context, s: State, i: nat, pc: Processor, job: Job)
    requires ValidTopics(ctx.topics)
  {
    && (pc.Reading? || pc.Finishing? ==> HasRead(ctx, s, i, pc.path, job))
    && (pc.Reading? ==> Running(ctx, job, pc.exc))
    && (pc.Finishing? ==> Ended(ctx, job))
  }

  ghost predicate OutputSound(ctx: Context, s: State, out: Output)
    requires ValidTopics(ctx.topics)
  {
    && HasRead(ctx, s, out.processor, out.path, out.job) && Ended(ctx, out.job)
    && PlaceOf(s.files, out.path) == Finished
  }

  ghost predicate HasOutput(outputs: seq<Output>, o: Path) {
    exists j | 0 <= j < |outputs| :: outputs[j].path == o
  }

  ghost predicate AllSound(ctx: Context, s: State, outputs: seq<Output>)
    requires ValidTopics(ctx.topics)
  {
    forall j | 0 <= j < |outputs| :: OutputSound(ctx, s, outputs[j])
  }

  ghost predicate OnePerPath(outputs: seq<Output>) {
    forall j, l | 0 <= j < l < |outputs| :: outputs[j].path != outputs[l].path
  }

  ghost predicate NoneMissing(s: State, outputs: seq<Output>) {
    forall o <- s.originals :: PlaceOf(s.files, o) == Finished ==> HasOutput(outputs, o)
  }

  ghost predicate OutputsInv(ctx: Context, s: State, outputs: seq<Output>)
    requires ValidTopics(ctx.topics)
  {
    AllSound(ctx, s, outputs) && OnePerPath(outputs) && NoneMissing(s, outputs)
  }

  ghost predicate SystemInv(ctx: Context, f: System)
    requires ValidTopics(ctx.topics)
  {
    && Inv(f.s) && FitAll(f.s) && |f.jobs| == |f.s.processors|
    && (forall i | 0 <= i < |f.jobs| :: JobInv(ctx, f.s, i, f.s.processors[i], f.jobs[i]))
    && OutputsInv(ctx, f.s, f.outputs)
  }

  /** Originals stay as they are, and reads are not forgotten. */
  lemma HistoryKept(s: State, step: Step)
    requires Enabled(s, step)
    ensures forall o <- s.originals :: o in Apply(s, step).originals && Apply(s, step).originals[o] == s.originals[o]
    ensures s.readLog <= Apply(s, step).readLog
  {
  }

  lemma FitKept(f: System, step: Step)
    requires Allowed(f, step) && FitAll(f.s)
    ensures FitAll(Apply(f.s, step))
  {
    forall o <- Apply(f.s, step).originals ensures FitContent(Apply(f.s, step).originals[o]) {
      assert (step.Create? && o == step.path) || o in f.s.originals;
    }
  }

  lemma HasReadKept(ctx: Context, s: State, step: Step, i: nat, p: Path, job: Job)
    requires Enabled(s, step) && HasRead(ctx, s, i, p, job)
    ensures HasRead(ctx, Apply(s, step), i, p, job)
  {
    HistoryKept(s, step);
  }

  lemma Started(ctx: Context, content: string, clock: nat -> int, results: seq<ErrorCode>, job: Job)
    requires ValidTopics(ctx.topics) && FitContent(content) && job == StartJob(ctx, content, clock, results)
    ensures Over(ctx, job) && job.content == content && Running(ctx, job, 0)
  {
  }

  /** Opening begins a job over the original content. */
  lemma OpenStarts(ctx: Context, s: State, t: State, i: nat, p: Path, clock: nat -> int, results: seq<ErrorCode>,
                   job: Job)
    requires ValidTopics(ctx.topics) && Inv(s) && FitAll(s) && Enabled(s, Works(i, Opens))
    requires t == Apply(s, Works(i, Opens)) && p == s.processors[i].path
    requires p in s.originals && job == StartJob(ctx, s.originals[p], clock, results)
    ensures JobInv(ctx, t, i, t.processors[i], job)
  {
    OpenFinds(s, i);
    Started(ctx, s.originals[p], clock, results, job);
    ReadsAfter(s, Works(i, Opens));
  }

  lemma CountRow(tally: Tally, p: Published)
    requires !tally.Stops() && p.outcome != Retrying
    ensures var counted, exc := tally.Count(p), tally.raised + if p.outcome == Exception then 1 else 0;
      counted.raised == exc && !counted.retrying && (counted.Stops() <==> exc > Basics.EXCEPTION_BUDGET)
  {
  }

  /** A row takes the job one turn further, and the processor leaves the loop when the job does. */
  lemma RowAdvances(ctx: Context, job: Job, exc: nat, next: Job, nextExc: nat)
    requires ValidTopics(ctx.topics) && Over(ctx, job) && Running(ctx, job, exc)
    requires CanRow(job) && RowResult(job).outcome != Retrying && next == AfterRow(job)
    requires nextExc == exc + if RowResult(job).outcome == Exception then 1 else 0
    ensures Over(ctx, next) && next.content == job.content
    ensures if nextExc > Basics.EXCEPTION_BUDGET then Ended(ctx, next) else Running(ctx, next, nextExc)
  {
    CountRow(job.tally, RowResult(job));
    RunRowsTurn(job.file, job.lines, job.k, job.base, job.tally, next.base, next.tally);
  }

  /** A processor in the row loop, or at its end, takes a step other than opening a file. */
  lemma OwnJobGoesOn(ctx: Context, s: State, i: nat, pc: Processor, action: Action, job: Job)
    requires ValidTopics(ctx.topics) && Enabled(s, Works(i, action)) && pc == s.processors[i] && !action.Opens?
    requires JobInv(ctx, s, i, pc, job) && JobAllows(job, action)
    ensures JobInv(ctx, Apply(s, Works(i, action)), i, NextPc(s, pc, action),
                   if action.Row? then AfterRow(job) else job)
  {
    if pc.Reading? {
      HasReadKept(ctx, s, Works(i, action), i, pc.path, job);
      if action.Row? {
        RowAdvances(ctx, job, pc.exc, AfterRow(job), pc.exc + if action.raises then 1 else 0);
      }
    }
  }

  lemma OwnJobKept(ctx: Context, f: System, i: nat, action: Action, clock: nat -> int, results: seq<ErrorCode>)
    requires ValidTopics(ctx.topics) && Inv(f.s) && FitAll(f.s) && Allowed(f, Works(i, action))
    requires JobInv(ctx, f.s, i, f.s.processors[i], f.jobs[i])
    ensures var g := Move(ctx, f, Works(i, action), clock, results);
      JobInv(ctx, g.s, i, g.s.processors[i], g.jobs[i])
  {
    if action.Opens? {
      var p := f.s.processors[i].path;
      OpenFinds(f.s, i);
      OpenStarts(ctx, f.s, Apply(f.s, Works(i, Opens)), i, p, clock, results,
                 StartJob(ctx, f.s.originals[p], clock, results));
    } else {
      OwnJobGoesOn(ctx, f.s, i, f.s.processors[i], action, f.jobs[i]);
    }
  }

  lemma JobKept(ctx: Context, f: System, step: Step, clock: nat -> int, results: seq<ErrorCode>, i: nat)
    requires ValidTopics(ctx.topics) && Inv(f.s) && FitAll(f.s) && Allowed(f, step) && i < |f.jobs|
    requires JobInv(ctx, f.s, i, f.s.processors[i], f.jobs[i])
    ensures var g := Move(ctx, f, step, clock, results);
      i < |g.jobs| == |g.s.processors| && JobInv(ctx, g.s, i, g.s.processors[i], g.jobs[i])
  {
    if step.Works? && step.i == i {
      OwnJobKept(ctx, f, i, step.action, clock, results);
    } else {
      var pc, job := f.s.processors[i], f.jobs[i];
      OthersStay(f.s, step, i);
      if pc.Reading? || pc.Finishing? {
        HasReadKept(ctx, f.s, step, i, pc.path, job);
      }
    }
  }

  lemma OutputKept(ctx: Context, s: State, step: Step, out: Output)
    requires ValidTopics(ctx.topics) && Inv(s) && Enabled(s, step) && ClaimsAdmitted(s, step)
    requires OutputSound(ctx, s, out)
    ensures OutputSound(ctx, Apply(s, step), out)
  {
    HasReadKept(ctx, s, step, out.processor, out.path, out.job);
    PlacesAfter(s, step, out.path);
    if Claiming(s, step) { ClaimedPath(s, step); }
  }

  /** Finishing a file makes an output, of a path that had none. */
  lemma NewOutput(ctx: Context, s: State, i: nat, job: Job, outputs: seq<Output>)
    requires ValidTopics(ctx.topics) && Inv(s) && Enabled(s, Works(i, Finishes)) && OutputsInv(ctx, s, outputs)
    requires JobInv(ctx, s, i, s.processors[i], job)
    ensures var p := s.processors[i].path;
      && OutputSound(ctx, Apply(s, Works(i, Finishes)), Output(i, p, job))
      && forall j | 0 <= j < |outputs| :: outputs[j].path != p
  {
    var p := s.processors[i].path;
    assert Sound(s, i);
    HasReadKept(ctx, s, Works(i, Finishes), i, p, job);
    PlacesAfter(s, Works(i, Finishes), p);
    forall j | 0 <= j < |outputs| ensures outputs[j].path != p {
      assert OutputSound(ctx, s, outputs[j]);
    }
  }

  lemma NewIsWaiting(s: State, step: Step, o: Path)
    requires FilesInv(s) && Enabled(s, step) && o in Apply(s, step).originals && o !in s.originals
    ensures PlaceOf(Apply(s, step).files, o) == Waiting
  {
    CreatePlaces(s, step.path, step.content);
  }

  /** A step finishes a file only by adding its output. */
  lemma FinishedHasOutput(s: State, step: Step, outputs: seq<Output>, o: Path)
    requires Inv(s) && Enabled(s, step)
    requires o in Apply(s, step).originals && PlaceOf(Apply(s, step).files, o) == Finished
    requires o in s.originals && PlaceOf(s.files, o) == Finished ==> HasOutput(outputs, o)
    ensures HasOutput(outputs, o) || (Completing(s, step) && s.processors[step.i].path == o)
  {
    if o !in s.originals {
      NewIsWaiting(s, step, o);
    } else {
      AdmittedClaim(s, step);
      PlacesAfter(s, step, o);
    }
  }

  lemma OldOutputsSound(ctx: Context, s: State, step: Step, outputs: seq<Output>)
    requires ValidTopics(ctx.topics) && Inv(s) && Enabled(s, step) && OutputsInv(ctx, s, outputs)
    ensures AllSound(ctx, Apply(s, step), outputs)
  {
    AdmittedClaim(s, step);
    forall j | 0 <= j < |outputs| ensures OutputSound(ctx, Apply(s, step), outputs[j]) {
      OutputKept(ctx, s, step, outputs[j]);
    }
  }

  lemma HasOutputMore(outputs: seq<Output>, all: seq<Output>, o: Path)
    requires outputs <= all && (HasOutput(outputs, o) || (|outputs| < |all| && all[|outputs|].path == o))
    ensures HasOutput(all, o)
  {
    if HasOutput(outputs, o) {
      var j :| 0 <= j < |outputs| && outputs[j].path == o;
      assert all[j].path == o;
    }
  }

  lemma NoneMissingAfter(s: State, step: Step, outputs: seq<Output>, all: seq<Output>)
    requires Inv(s) && Enabled(s, step) && NoneMissing(s, outputs)
    requires if Completing(s, step) then |all| == |outputs| + 1 && all[|outputs|].path == s.processors[step.i].path
             else all == outputs
    requires outputs <= all
    ensures NoneMissing(Apply(s, step), all)
  {
    var t := Apply(s, step);
    forall o <- t.originals ensures PlaceOf(t.files, o) == Finished ==> HasOutput(all, o) {
      if PlaceOf(t.files, o) == Finished {
        FinishedHasOutput(s, step, outputs, o);
        HasOutputMore(outputs, all, o);
      }
    }
  }

  lemma OutputAdded(ctx: Context, s: State, t: State, i: nat, outputs: seq<Output>, out: Output)
    requires ValidTopics(ctx.topics) && Inv(s) && Enabled(s, Works(i, Finishes)) && OutputsInv(ctx, s, outputs)
    requires JobInv(ctx, s, i, s.processors[i], out.job)
    requires t == Apply(s, Works(i, Finishes)) && out == Output(i, s.processors[i].path, out.job)
    ensures OutputsInv(ctx, t, outputs + [out])
  {
    OldOutputsSound(ctx, s, Works(i, Finishes), outputs);
    NewOutput(ctx, s, i, out.job, outputs);
    NoneMissingAfter(s, Works(i, Finishes), outputs, outputs + [out]);
    OutputsSnoc(ctx, t, outputs, out);
  }

  lemma OutputsSnoc(ctx: Context, t: State, outputs: seq<Output>, out: Output)
    requires ValidTopics(ctx.topics) && AllSound(ctx, t, outputs) && OnePerPath(outputs)
    requires OutputSound(ctx, t, out) && forall j | 0 <= j < |outputs| :: outputs[j].path != out.path
    ensures AllSound(ctx, t, outputs + [out]) && OnePerPath(outputs + [out])
  {
  }

  lemma NoOutputAdded(ctx: Context, s: State, step: Step, outputs: seq<Output>)
    requires ValidTopics(ctx.topics) && Inv(s) && Enabled(s, step) && OutputsInv(ctx, s, outputs)
    requires !Completing(s, step)
    ensures OutputsInv(ctx, Apply(s, step), outputs)
  {
    OldOutputsSound(ctx, s, step, outputs);
    NoneMissingAfter(s, step, outputs, outputs);
  }

  lemma SystemOutputsKept(ctx: Context, f: System, step: Step, clock: nat -> int, results: seq<ErrorCode>)
    requires ValidTopics(ctx.topics) && Inv(f.s) && OutputsInv(ctx, f.s, f.outputs) && Allowed(f, step)
    requires step.Works? ==> JobInv(ctx, f.s, step.i, f.s.processors[step.i], f.jobs[step.i])
    ensures var g := Move(ctx, f, step, clock, results); OutputsInv(ctx, g.s, g.outputs)
  {
    if Completing(f.s, step) {
      OutputAdded(ctx, f.s, Apply(f.s, step), step.i, f.outputs,
                  Output(step.i, f.s.processors[step.i].path, f.jobs[step.i]));
    } else {
      NoOutputAdded(ctx, f.s, step, f.outputs);
    }
  }

  lemma SystemKept(ctx: Context, f: System, step: Step, clock: nat -> int, results: seq<ErrorCode>)
    requires ValidTopics(ctx.topics) && SystemInv(ctx, f) && Allowed(f, step)
    ensures SystemInv(ctx, Move(ctx, f, step, clock, results))
  {
    var g := Move(ctx, f, step, clock, results);
    InvKept(f.s, step);
    FitKept(f, step);
    forall i | 0 <= i < |g.jobs| ensures JobInv(ctx, g.s, i, g.s.processors[i], g.jobs[i]) {
      JobKept(ctx, f, step, clock, results, i);
    }
    SystemOutputsKept(ctx, f, step, clock, results);
  }

  // Whole runs

  ghost predicate SystemNext(ctx: Context, f: System, g: System) {
    exists step, clock, results :: Allowed(f, step) && g == Move(ctx, f, step, clock, results)
  }

  ghost predicate SystemAt(ctx: Context, run: seq<System>, k: nat)
    requires k + 1 < |run|
  {
    SystemNext(ctx, run[k], run[k + 1])
  }

  ghost predicate IsSystemRun(ctx: Context, run: seq<System>) {
    && run != [] && Initial(run[0].s) && FitAll(run[0].s) && |run[0].jobs| == |run[0].s.processors|
    && run[0].outputs == [] && forall k | 0 <= k < |run| - 1 :: SystemAt(ctx, run, k)
  }

  lemma {:induction false} SystemHolds(ctx: Context, run: seq<System>, k: nat)
    requires ValidTopics(ctx.topics) && IsSystemRun(ctx, run) && k < |run|
    ensures SystemInv(ctx, run[k])
  {
    if k == 0 {
      InitialFiles(run[0].s);
      InitialPaths(run[0].s);
      forall o <- run[0].s.originals ensures PlaceOf(run[0].s.files, o) == Waiting { InitialWaiting(run[0].s, o); }
    } else {
      SystemHolds(ctx, run, k - 1);
      assert SystemAt(ctx, run, k - 1);
      var step, clock, results :|
        Allowed(run[k - 1], step) && run[k] == Move(ctx, run[k - 1], step, clock, results);
      SystemKept(ctx, run[k - 1], step, clock, results);
    }
  }

  function States(run: seq<System>): (states: seq<State>)
    ensures |states| == |run| && forall k | 0 <= k < |run| :: states[k] == run[k].s
  {
    seq(|run|, k requires 0 <= k < |run| => run[k].s)
  }

  /** With the rows left out this is a run of the pipeline: whatever holds of those holds here. */
  lemma RefinesPipeline(ctx: Context, run: seq<System>)
    requires IsSystemRun(ctx, run)
    ensures IsRun(States(run))
  {
    var states := States(run);
    forall k | 0 <= k < |states| - 1 ensures StepAt(states, k) {
      assert SystemAt(ctx, run, k);
      var step, clock, results :| Allowed(run[k], step) && run[k + 1] == Move(ctx, run[k], step, clock, results);
      assert Enabled(states[k], step) && states[k + 1] == Apply(states[k], step);
    }
  }

  /** Whatever the interleaving, the number of processors and of queue entries: a file is under its done
      name exactly when an output has been made of it; there is one output at most, made by the processor
      that read the file; and its counts and messages are those of the row loop on the original content. */
  lemma PublishedOnce(ctx: Context, run: seq<System>, k: nat, o: Path)
    requires ValidTopics(ctx.topics) && IsSystemRun(ctx, run) && k < |run| && o in run[k].s.originals
    ensures PlaceOf(run[k].s.files, o) == Finished <==> HasOutput(run[k].outputs, o)
    ensures forall j, l | 0 <= j < l < |run[k].outputs| && run[k].outputs[j].path == o :: run[k].outputs[l].path != o
    ensures forall j | 0 <= j < |run[k].outputs| && run[k].outputs[j].path == o ::
      var out, content := run[k].outputs[j], run[k].s.originals[o];
      && Read(out.processor, o, content) in run[k].s.readLog && out.job.Job? && !out.job.tally.retrying
      && ContentHandled(ctx.(clock := out.job.file.clock), content, Tally(0, 0, 0, false, [], out.job.start.results),
                        out.job.tally, out.job.tally.Visited())
  {
    SystemHolds(ctx, run, k);
    forall j | 0 <= j < |run[k].outputs| && run[k].outputs[j].path == o
      ensures OutputSound(ctx, run[k].s, run[k].outputs[j])
        && ContentHandled(ctx.(clock := run[k].outputs[j].job.file.clock), run[k].s.originals[o],
                          run[k].outputs[j].job.start, run[k].outputs[j].job.tally,
                          run[k].outputs[j].job.tally.Visited())
    {
      assert OutputSound(ctx, run[k].s, run[k].outputs[j]);
      EndedHandled(ctx, run[k].outputs[j].job);
    }
  }

  lemma EndedHandled(ctx: Context, job: Job)
    requires ValidTopics(ctx.topics) && Over(ctx, job) && Ended(ctx, job)
    ensures ContentHandled(ctx.(clock := job.file.clock), job.content, job.start, job.tally, job.tally.Visited())
  {
    var lines := RowsOf(Pieces(job.content, '\n'));
    RowAccounting(job.file, lines, 0, map[], job.start);
    ReachesVisited(job.file, lines, 0, map[], job.start, job.tally.Visited());
  }

  lemma RunningCanRow(ctx: Context, job: Job, exc: nat)
    requires ValidTopics(ctx.topics) && Over(ctx, job) && Running(ctx, job, exc) && job.lines != []
    ensures CanRow(job)
  {
    FitTail(job.lines, |job.file.columns|);
  }

  lemma RowAllowed(f: System, i: nat, job: Job, outcome: Outcome)
    requires |f.jobs| == |f.s.processors| && i < |f.jobs| && job == f.jobs[i] && f.s.processors[i].Reading?
    requires CanRow(job) && outcome == RowResult(job).outcome && outcome != Retrying
    ensures Allowed(f, Works(i, Row(outcome == Exception)))
  {
  }

  /** The rows block no one: a processor in the row loop can end it when no line is due, and otherwise
      its row can be taken, as publish ends on it, unless it is still being retried. */
  lemma RowCanBeTaken(ctx: Context, run: seq<System>, k: nat, i: nat, job: Job)
    requires ValidTopics(ctx.topics) && IsSystemRun(ctx, run) && k < |run|
    requires i < |run[k].jobs| == |run[k].s.processors| && run[k].s.processors[i].Reading? && job == run[k].jobs[i]
    ensures job.Job? && (job.lines == [] ==> Allowed(run[k], Works(i, EndOfFile)))
    ensures job.lines != [] ==>
      (CanRow(job)
       && (RowResult(job).outcome == Retrying
           || Allowed(run[k], Works(i, Row(RowResult(job).outcome == Exception)))))
  {
    SystemHolds(ctx, run, k);
    assert JobInv(ctx, run[k].s, i, run[k].s.processors[i], job);
    if job.lines != [] {
      RunningCanRow(ctx, job, run[k].s.processors[i].exc);
      if RowResult(job).outcome != Retrying {
        RowAllowed(run[k], i, job, RowResult(job).outcome);
      }
    }
  }
}
