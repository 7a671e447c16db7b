/** Poller, queue and N processors over one directory, every atomic action a step of its own. */
module Pipeline {
  import opened Basics
  import opened FileSystem

  type Path = string

  /** AbstractWorker::run around AbstractProcessor::step around handle. */
  datatype Processor =
    | Test                          // about to look at the shutdown flag
    | Pause                         // the flag was down; waits, then starts a step
    | Fetch                         // in dequeue_with_timeout
    | Holding(path: Path)           // has a result, "" for nothing
    | Claimed(path: Path)           // renamed the file, has not opened it
    | Reading(path: Path, exc: nat) // in the row loop
    | Finishing(path: Path)         // before the second rename
    | Returned
  {
    /** The file this processor has claimed and not finished. */
    predicate Owns(p: Path) { (Claimed? || Reading? || Finishing?) && path == p }

    /** How often p is in this processor's hand; "" is nothing. */
    function Held(p: Path): nat {
      if ((Holding? && path != "") || Claimed? || Reading? || Finishing?) && path == p then 1 else 0
    }
  }

  /** AbstractWorker::run around AbstractPoller::step around poll. */
  datatype Poller =
    | PollTest | PollPause | Polling
    | Polled(path: Path)            // has a result, "" for nothing
    | PollReturned
  {
    function Held(p: Path): nat {
      if Polled? && path != "" && path == p then 1 else 0
    }
  }

  datatype Read = Read(processor: nat, path: Path, content: string)

  /** files to shutdown are the program's; the rest records what has happened. */
  datatype State = State(
    files: Files, filePaths: seq<Path>, poller: Poller, queue: seq<Path>, processors: seq<Processor>, shutdown: bool,
    originals: map<Path, string>, admitted: seq<Path>, enqueued: seq<Path>, dequeued: seq<Path>,
    handled: multiset<Path>, claims: seq<Path>, readLog: seq<Read>,
    stepsAfter: seq<nat>, claimsAfter: seq<nat>, pollsAfter: nat)

  /** What a processor does next. */
  datatype Action =
    | Tests | Starts
    | Dequeues | TimesOut
    | Claims                                // step on a result: nothing, or rename to the in-progress name
    | Opens
    | Row(raises: bool) | EndOfFile
    | Finishes                              // rename to the done name

  datatype Step =
    | Create(path: Path, content: string)   // from outside
    | Shutdown                              // from outside
    | PollerTests | PollerStarts
    | Poll(batch: seq<Path>)                // the close events read, if m_file_paths was empty
    | PollerEnqueues
    | Works(i: nat, action: Action)

  /** Neither path is a name the other goes through. */
  predicate Apart(p: Path, q: Path) {
    p != q && p != InProgress(q) && p != Done(q) && q != InProgress(p) && q != Done(p)
  }

  predicate Enabled(s: State, step: Step) {
    match step
    case Create(path, _) => forall o <- s.originals :: Apart(path, o)
    case Shutdown => true
    case PollerTests => s.poller.PollTest?
    case PollerStarts => s.poller.PollPause?
    case Poll(batch) =>
      s.poller.Polling? && (s.filePaths != [] ==> batch == []) && forall p <- batch :: p != "" && !Reserved(p)
    case PollerEnqueues => s.poller.Polled?
    case Works(i, action) => i < |s.processors| && Ready(s.processors[i], action, s.queue)
  }

  predicate Ready(pc: Processor, action: Action, queue: seq<Path>) {
    match action
    case Tests => pc.Test?
    case Starts => pc.Pause?
    case Dequeues => pc.Fetch? && queue != []
    case TimesOut => pc.Fetch? && queue == []
    case Claims => pc.Holding?
    case Opens => pc.Claimed?
    case Row(_) => pc.Reading?
    case EndOfFile => pc.Reading?
    case Finishes => pc.Finishing?
  }

  /** The rename of a claim finds the file. */
  predicate Succeeds(s: State, pc: Processor, action: Action) {
    action.Claims? && pc.Holding? && pc.path != "" && pc.path in s.files
  }

  function NextPc(s: State, pc: Processor, action: Action): Processor
    requires Ready(pc, action, s.queue)
  {
    match action
    case Tests => if s.shutdown then Returned else Pause
    case Starts => Fetch
    case Dequeues => Holding(s.queue[0])
    case TimesOut => Holding("")
    case Claims => if Succeeds(s, pc, action) then Claimed(pc.path) else Test
    case Opens => if InProgress(pc.path) in s.files then Reading(pc.path, 0) else Finishing(pc.path)
    case Row(raises) =>
      var exc := pc.exc + if raises then 1 else 0;
      if exc > EXCEPTION_BUDGET then Finishing(pc.path) else Reading(pc.path, exc)
    case EndOfFile => Finishing(pc.path)
    case Finishes => Test
  }

  function FilesAfter(s: State, pc: Processor, action: Action): Files
    requires Ready(pc, action, s.queue)
  {
    if Succeeds(s, pc, action) then Renamed(s.files, pc.path, InProgress(pc.path))
    else if action.Finishes? then Renamed(s.files, InProgress(pc.path), Done(pc.path))
    else s.files
  }

  /** handle returns for this path, its claim having failed or its file being finished. */
  function HandledBy(s: State, pc: Processor, action: Action): multiset<Path>
    requires Ready(pc, action, s.queue)
  {
    if action.Finishes? || (action.Claims? && pc.path != "" && !Succeeds(s, pc, action)) then multiset{pc.path}
    else multiset{}
  }

  function ReadBy(s: State, i: nat, pc: Processor, action: Action): seq<Read>
    requires Ready(pc, action, s.queue)
  {
    if action.Opens? && InProgress(pc.path) in s.files then [Read(i, pc.path, s.files[InProgress(pc.path)])] else []
  }

  /** A counter that only counts once the flag is up. */
  function Tick(s: State, counts: seq<nat>, i: nat, happens: bool): seq<nat> {
    if s.shutdown && happens && i < |counts| then counts[i := counts[i] + 1] else counts
  }

  function Work(s: State, i: nat, action: Action): State
    requires i < |s.processors| && Ready(s.processors[i], action, s.queue)
  {
    var pc := s.processors[i];
    s.(processors := s.processors[i := NextPc(s, pc, action)],
       files := FilesAfter(s, pc, action),
       queue := if action.Dequeues? then s.queue[1..] else s.queue,
       dequeued := s.dequeued + if action.Dequeues? then [s.queue[0]] else [],
       handled := s.handled + HandledBy(s, pc, action),
       claims := s.claims + if Succeeds(s, pc, action) then [pc.path] else [],
       readLog := s.readLog + ReadBy(s, i, pc, action),
       stepsAfter := Tick(s, s.stepsAfter, i, action.Starts?),
       claimsAfter := Tick(s, s.claimsAfter, i, Succeeds(s, pc, action)))
  }

  function Apply(s: State, step: Step): State
    requires Enabled(s, step)
  {
    match step
    case Create(path, content) => s.(files := s.files[path := content], originals := s.originals[path := content])
    case Shutdown => s.(shutdown := true)
    case PollerTests => s.(poller := if s.shutdown then PollReturned else PollPause)
    case PollerStarts => s.(poller := Polling, pollsAfter := s.pollsAfter + if s.shutdown then 1 else 0)
    case Poll(batch) =>
      var paths := s.filePaths + batch;
      if paths == [] then s.(poller := Polled(""))
      else
        s.(poller := Polled(paths[|paths| - 1]), filePaths := paths[..|paths| - 1], admitted := s.admitted + batch)
    case PollerEnqueues =>
      if s.poller.path == "" then s.(poller := PollTest)
      else s.(poller := PollTest, queue := s.queue + [s.poller.path], enqueued := s.enqueued + [s.poller.path])
    case Works(i, action) => Work(s, i, action)
  }

  /** The files at start-up are pairwise apart; the listing of those without the done suffix is admitted. */
  predicate Initial(s: State) {
    && s.files == s.originals
    && (forall o, q | o in s.originals && q in s.originals && o != q :: Apart(o, q))
    && s.poller == PollTest && s.queue == [] && !s.shutdown
    && (forall p <- s.filePaths :: p != "" && p in s.originals && !EndsWith(p, "_done"))
    && s.admitted == s.filePaths && s.enqueued == [] && s.dequeued == [] && s.handled == multiset{}
    && s.claims == [] && s.readLog == [] && s.pollsAfter == 0
    && |s.stepsAfter| == |s.claimsAfter| == |s.processors|
    && (forall i | 0 <= i < |s.processors| ::
          s.processors[i] == Test && s.stepsAfter[i] == 0 && s.claimsAfter[i] == 0)
  }

  ghost predicate Next(s: State, t: State) {
    exists step :: Enabled(s, step) && t == Apply(s, step)
  }

  ghost predicate StepAt(run: seq<State>, k: nat)
    requires k + 1 < |run|
  {
    Next(run[k], run[k + 1])
  }

  ghost predicate IsRun(run: seq<State>) {
    run != [] && Initial(run[0]) && forall k | 0 <= k < |run| - 1 :: StepAt(run, k)
  }
}
