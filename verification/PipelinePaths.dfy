/** Conservation of paths in the pipeline, and shutdown: what every step keeps. */
module PipelinePaths {
  import opened Basics
  import opened FileSystem
  import opened Pipeline

  /** How often p is in some processor's hand. */
  function HeldByAll(processors: seq<Processor>, p: Path): nat {
    if processors == [] then 0 else processors[0].Held(p) + HeldByAll(processors[1..], p)
  }

  lemma {:induction false} HeldUpdate(processors: seq<Processor>, i: nat, pc: Processor, p: Path)
    requires i < |processors|
    ensures HeldByAll(processors[i := pc], p) == HeldByAll(processors, p) - processors[i].Held(p) + pc.Held(p)
    ensures processors[i].Held(p) <= HeldByAll(processors, p)
  {
    if i == 0 {
      assert processors[0 := pc][1..] == processors[1..];
    } else {
      assert processors[i := pc][1..] == processors[1..][i - 1 := pc];
      HeldUpdate(processors[1..], i - 1, pc, p);
    }
  }

  lemma {:induction false} NothingHeld(processors: seq<Processor>, p: Path)
    requires forall i | 0 <= i < |processors| :: processors[i] == Test
    ensures HeldByAll(processors, p) == 0
  {
    if processors != [] {
      NothingHeld(processors[1..], p);
    }
  }

  /** Every admission of p is accounted for: pending, in a hand, queued, or handled. */
  predicate Balanced(s: State, p: Path) {
    multiset(s.admitted)[p]
      == multiset(s.filePaths)[p] + s.poller.Held(p) + multiset(s.queue)[p] + HeldByAll(s.processors, p) + s.handled[p]
  }

  ghost predicate PathsInv(s: State) {
    && (forall p :: Balanced(s, p))
    && (forall p <- s.filePaths :: p != "") && (forall p <- s.queue :: p != "")
    && (forall p <- s.admitted :: p != "" && (p in s.originals || !Reserved(p)))
    && s.enqueued == s.dequeued + s.queue
  }

  /** What a processor holds was admitted: it is not the empty "nothing", and a reserved name is an original. */
  lemma HeldWasAdmitted(s: State, i: nat)
    requires PathsInv(s) && i < |s.processors| && s.processors[i].Holding? && s.processors[i].path != ""
    ensures var p := s.processors[i].path; p in s.originals || !Reserved(p)
  {
    var p := s.processors[i].path;
    HeldUpdate(s.processors, i, Test, p);
    assert Balanced(s, p);
    assert p in multiset(s.admitted);
    assert p in s.admitted;
  }

  lemma CountSnoc(ps: seq<Path>, q: Path, p: Path)
    ensures multiset(ps + [q])[p] == multiset(ps)[p] + if p == q then 1 else 0
  {
  }

  lemma CountCons(q: Path, ps: seq<Path>, p: Path)
    ensures multiset([q] + ps)[p] == multiset(ps)[p] + if p == q then 1 else 0
  {
  }

  lemma CountConcat(a: seq<Path>, b: seq<Path>, p: Path)
    ensures multiset(a + b)[p] == multiset(a)[p] + multiset(b)[p]
  {
  }

  /** poll pops the back of m_file_paths; what it pops is not the empty "nothing". */
  lemma PollPops(s: State, batch: seq<Path>, p: Path)
    requires PathsInv(s) && Enabled(s, Poll(batch)) && s.filePaths + batch != []
    ensures var paths := s.filePaths + batch;
      var n := |paths| - 1;
      paths[n] != "" && multiset(paths)[p] == multiset(paths[..n])[p] + if paths[n] == p then 1 else 0
  {
    var paths := s.filePaths + batch;
    var n := |paths| - 1;
    assert paths[n] in paths;
    assert paths == paths[..n] + [paths[n]];
    CountSnoc(paths[..n], paths[n], p);
  }

  lemma PollBalanced(s: State, batch: seq<Path>, p: Path)
    requires PathsInv(s) && Enabled(s, Poll(batch))
    ensures Balanced(Apply(s, Poll(batch)), p)
  {
    assert Balanced(s, p);
    if s.filePaths + batch == [] {
      assert s.filePaths == [];
    } else {
      PopBalanced(s, s.filePaths + batch, batch, p);
    }
  }

  lemma PopBalanced(s: State, paths: seq<Path>, batch: seq<Path>, p: Path)
    requires PathsInv(s) && Balanced(s, p) && Enabled(s, Poll(batch)) && paths == s.filePaths + batch && paths != []
    ensures Balanced(Apply(s, Poll(batch)), p)
  {
    CountConcat(s.filePaths, batch, p);
    CountConcat(s.admitted, batch, p);
    PollPops(s, batch, p);
  }

  lemma EnqueueBalanced(s: State, p: Path)
    requires PathsInv(s) && Enabled(s, PollerEnqueues)
    ensures Balanced(Apply(s, PollerEnqueues), p)
  {
    assert Balanced(s, p);
    if s.poller.path != "" {
      CountSnoc(s.queue, s.poller.path, p);
    }
  }

  lemma WorkBalanced(s: State, i: nat, action: Action, p: Path)
    requires PathsInv(s) && Enabled(s, Works(i, action))
    ensures Balanced(Work(s, i, action), p)
  {
    assert Balanced(s, p);
    var pc := s.processors[i];
    HeldUpdate(s.processors, i, NextPc(s, pc, action), p);
    if action.Dequeues? {
      FirstDequeued(s, p);
    } else {
      HandledOrHeld(s, pc, action, p);
    }
  }

  lemma FirstDequeued(s: State, p: Path)
    requires PathsInv(s) && s.queue != []
    ensures s.queue[0] != ""
    ensures multiset(s.queue)[p] == multiset(s.queue[1..])[p] + if p == s.queue[0] then 1 else 0
  {
    assert s.queue[0] in s.queue;
    CountCons(s.queue[0], s.queue[1..], p);
    assert s.queue == [s.queue[0]] + s.queue[1..];
  }

  /** Except in a dequeue, what leaves a processor's hand has been handled. */
  lemma HandledOrHeld(s: State, pc: Processor, action: Action, p: Path)
    requires Ready(pc, action, s.queue) && !action.Dequeues?
    ensures HandledBy(s, pc, action)[p] + NextPc(s, pc, action).Held(p) == pc.Held(p)
  {
  }

  lemma BalancedKept(s: State, step: Step, p: Path)
    requires PathsInv(s) && Enabled(s, step)
    ensures Balanced(Apply(s, step), p)
  {
    assert Balanced(s, p);
    match step {
      case Works(i, action) => WorkBalanced(s, i, action, p);
      case Poll(batch) => PollBalanced(s, batch, p);
      case PollerEnqueues => EnqueueBalanced(s, p);
      case _ =>
    }
  }

  lemma NamesKept(s: State, step: Step)
    requires PathsInv(s) && Enabled(s, step)
    ensures var t := Apply(s, step);
      && (forall p <- t.filePaths :: p != "") && (forall p <- t.queue :: p != "")
      && (forall p <- t.admitted :: p != "" && (p in t.originals || !Reserved(p)))
  {
    if step.Poll? {
      var paths := s.filePaths + step.batch;
      forall p <- paths ensures p != "" { assert p in s.filePaths || p in step.batch; }
      assert forall p <- Apply(s, step).filePaths :: p in paths;
    } else if step.Works? && step.action.Dequeues? {
      assert forall p <- s.queue[1..] :: p in s.queue;
    }
  }

  lemma OrderKept(s: State, step: Step)
    requires PathsInv(s) && Enabled(s, step)
    ensures Apply(s, step).enqueued == Apply(s, step).dequeued + Apply(s, step).queue
  {
    if step.PollerEnqueues? {
      ConcatAssoc(s.dequeued, s.queue, [s.poller.path]);
    } else if step.Works? && step.action.Dequeues? {
      ConcatAssoc(s.dequeued, [s.queue[0]], s.queue[1..]);
      assert s.queue == [s.queue[0]] + s.queue[1..];
    }
  }

  lemma PathsKept(s: State, step: Step)
    requires PathsInv(s) && Enabled(s, step)
    ensures PathsInv(Apply(s, step))
  {
    forall p ensures Balanced(Apply(s, step), p) {
      BalancedKept(s, step, p);
    }
    NamesKept(s, step);
    OrderKept(s, step);
  }

  // Shutdown

  /** How many more steps, and claims, processor i can still start once the flag is up. */
  function StepsLeft(pc: Processor): nat { if pc.Pause? then 1 else 0 }
  function ClaimsLeft(pc: Processor): nat { if pc.Pause? || pc.Fetch? || pc.Holding? then 1 else 0 }

  predicate Bounded(s: State, i: nat)
    requires i < |s.processors| == |s.stepsAfter| == |s.claimsAfter|
  {
    if s.shutdown then
      s.stepsAfter[i] + StepsLeft(s.processors[i]) <= 1 && s.claimsAfter[i] + ClaimsLeft(s.processors[i]) <= 1
    else s.stepsAfter[i] == 0 && s.claimsAfter[i] == 0
  }

  /** The poller's turn of the same loop: how many more steps it can start, and what they can enqueue. */
  function PollsLeft(poller: Poller): nat { if poller.PollPause? then 1 else 0 }
  function EnqueuesLeft(poller: Poller): nat { if poller.PollTest? || poller.PollReturned? then 0 else 1 }

  predicate PollerBounded(s: State) {
    if s.shutdown then s.pollsAfter + PollsLeft(s.poller) <= 1 else s.pollsAfter == 0
  }

  ghost predicate ShutdownInv(s: State) {
    PollerBounded(s) && |s.stepsAfter| == |s.claimsAfter| == |s.processors|
    && forall i | 0 <= i < |s.processors| :: Bounded(s, i)
  }

  lemma BoundedKept(s: State, step: Step, i: nat)
    requires ShutdownInv(s) && Enabled(s, step) && i < |s.processors|
    ensures var t := Apply(s, step);
      |t.stepsAfter| == |t.claimsAfter| == |t.processors| == |s.processors| && Bounded(t, i)
  {
    assert Bounded(s, i);
  }

  lemma ShutdownKept(s: State, step: Step)
    requires ShutdownInv(s) && Enabled(s, step)
    ensures ShutdownInv(Apply(s, step))
  {
    forall i | 0 <= i < |Apply(s, step).processors| ensures Bounded(Apply(s, step), i) {
      BoundedKept(s, step, i);
    }
  }

  /** With the flag up, what the poller has enqueued and what it can still enqueue never grows. */
  lemma EnqueuesRunOut(s: State, step: Step)
    requires Enabled(s, step) && s.shutdown
    ensures var t := Apply(s, step);
      t.shutdown && |t.enqueued| + EnqueuesLeft(t.poller) <= |s.enqueued| + EnqueuesLeft(s.poller)
  {
  }

  function Sum(ns: seq<nat>): nat {
    if ns == [] then 0 else ns[0] + Sum(ns[1..])
  }

  lemma {:induction false} SumBounded(ns: seq<nat>)
    requires forall i | 0 <= i < |ns| :: ns[i] <= 1
    ensures Sum(ns) <= |ns|
  {
    if ns != [] {
      SumBounded(ns[1..]);
    }
  }

  lemma {:induction false} SumUpdate(ns: seq<nat>, i: nat, n: nat)
    requires i < |ns|
    ensures Sum(ns[i := n]) == Sum(ns) - ns[i] + n
  {
    if i == 0 {
      assert ns[0 := n][1..] == ns[1..];
    } else {
      assert ns[i := n][1..] == ns[1..][i - 1 := n];
      SumUpdate(ns[1..], i - 1, n);
    }
  }

  /** The claims that were made before the flag went up. */
  function EarlyClaims(s: State): int {
    |s.claims| - Sum(s.claimsAfter)
  }

  /** Once the flag is up it stays up, and claims are counted. */
  lemma ClaimsCounted(s: State, step: Step)
    requires ShutdownInv(s) && Enabled(s, step) && s.shutdown
    ensures Apply(s, step).shutdown && EarlyClaims(Apply(s, step)) == EarlyClaims(s)
  {
    if step.Works? && Succeeds(s, s.processors[step.i], step.action) {
      SumUpdate(s.claimsAfter, step.i, s.claimsAfter[step.i] + 1);
    }
  }
}
