/** With the shutdown flag up every worker can always move, moves towards its return, and can get there. */
module PipelineShutdown {
  import opened Pipeline
  import opened PipelineFiles
  import opened PipelineOwnership

  /** A next action of a processor; of the rows of a file it takes none. */
  function Onward(pc: Processor, queue: seq<Path>): Action
    requires !pc.Returned?
  {
    match pc
    case Test => Tests
    case Pause => Starts
    case Fetch => if queue == [] then TimesOut else Dequeues
    case Holding(_) => Claims
    case Claimed(_) => Opens
    case Reading(_, _) => EndOfFile
    case Finishing(_) => Finishes
  }

  function PollerOnward(poller: Poller): Step
    requires !poller.PollReturned?
  {
    match poller
    case PollTest => PollerTests
    case PollPause => PollerStarts
    case Polling => Poll([])
    case Polled(_) => PollerEnqueues
  }

  /** No worker waits for another: in every state each that has not returned has a step it can take. */
  lemma NeverBlocked(s: State, i: nat)
    requires i < |s.processors|
    ensures !s.processors[i].Returned? <==> exists action :: Enabled(s, Works(i, action))
    ensures !s.poller.PollReturned? ==> Enabled(s, PollerOnward(s.poller))
  {
    if !s.processors[i].Returned? {
      assert Enabled(s, Works(i, Onward(s.processors[i], s.queue)));
    }
  }

  /** How far a worker is from returning, the rows of its file apart. */
  function Rank(pc: Processor): nat {
    match pc
    case Returned => 0
    case Test => 1
    case Finishing(_) => 2
    case Reading(_, _) => 3
    case Claimed(_) => 4
    case Holding(_) => 5
    case Fetch => 6
    case Pause => 7
  }

  function PollerRank(poller: Poller): nat {
    match poller
    case PollReturned => 0
    case PollTest => 1
    case Polled(_) => 2
    case Polling => 3
    case PollPause => 4
  }

  function RankAll(processors: seq<Processor>): nat {
    if processors == [] then 0 else Rank(processors[0]) + RankAll(processors[1..])
  }

  function Distance(s: State): nat { PollerRank(s.poller) + RankAll(s.processors) }

  lemma {:induction false} RankUpdate(processors: seq<Processor>, i: nat, pc: Processor)
    requires i < |processors|
    ensures RankAll(processors[i := pc]) == RankAll(processors) - Rank(processors[i]) + Rank(pc)
    ensures Rank(processors[i]) <= RankAll(processors)
  {
    if i == 0 {
      assert processors[0 := pc][1..] == processors[1..];
    } else {
      assert processors[i := pc][1..] == processors[1..][i - 1 := pc];
      RankUpdate(processors[1..], i - 1, pc);
    }
  }

  predicate OfWorker(step: Step) { !step.Create? && !step.Shutdown? }
  predicate OfRow(step: Step) { step.Works? && step.action.Row? }

  /** With the flag up no step leads away from the end, and every step of a worker but a row leads towards it. */
  lemma DistanceFalls(s: State, step: Step)
    requires Enabled(s, step) && s.shutdown
    ensures Apply(s, step).shutdown && Distance(Apply(s, step)) <= Distance(s)
    ensures OfWorker(step) && !OfRow(step) ==> Distance(Apply(s, step)) < Distance(s)
  {
    if step.Works? {
      var pc := s.processors[step.i];
      RankUpdate(s.processors, step.i, NextPc(s, pc, step.action));
    }
  }

  /** How many of these steps are steps of workers, rows not counted. */
  function Moves(steps: seq<Step>): nat {
    if steps == [] then 0
    else Moves(steps[..|steps| - 1])
         + if OfWorker(steps[|steps| - 1]) && !OfRow(steps[|steps| - 1]) then 1 else 0
  }

  ghost predicate Leads(s: State, steps: seq<Step>, t: State)
    decreases |steps|
  {
    if steps == [] then s == t
    else
      var n := |steps| - 1;
      exists u :: Leads(s, steps[..n], u) && Enabled(u, steps[n]) && t == Apply(u, steps[n])
  }

  lemma {:induction false} RankBound(processors: seq<Processor>)
    ensures RankAll(processors) <= 7 * |processors|
  {
    if processors != [] {
      RankBound(processors[1..]);
    }
  }

  /** However the threads are scheduled: from the flag on, the workers together take at most 7 steps for
      each of N processors and 4 for the poller, besides reading the rows of the files they have open. */
  lemma {:induction false} MovesRunOut(s: State, steps: seq<Step>, t: State)
    requires s.shutdown && Leads(s, steps, t)
    ensures t.shutdown && Moves(steps) + Distance(t) <= Distance(s) <= 7 * |s.processors| + 4
    decreases |steps|
  {
    RankBound(s.processors);
    if steps != [] {
      var n := |steps| - 1;
      var u :| Leads(s, steps[..n], u) && Enabled(u, steps[n]) && t == Apply(u, steps[n]);
      MovesRunOut(s, steps[..n], u);
      DistanceFalls(u, steps[n]);
    }
  }

  predicate AllReturned(s: State) {
    s.poller.PollReturned? && forall i | 0 <= i < |s.processors| :: s.processors[i].Returned?
  }

  /** A step of some worker that has not returned. */
  lemma SomeoneMoves(s: State) returns (step: Step)
    requires !AllReturned(s)
    ensures Enabled(s, step) && OfWorker(step) && !OfRow(step)
  {
    if !s.poller.PollReturned? {
      step := PollerOnward(s.poller);
    } else {
      var i :| 0 <= i < |s.processors| && !s.processors[i].Returned?;
      step := Works(i, Onward(s.processors[i], s.queue));
    }
  }

  lemma RunSnoc(run: seq<State>, step: Step)
    requires IsRun(run) && Enabled(run[|run| - 1], step)
    ensures IsRun(run + [Apply(run[|run| - 1], step)])
  {
    var longer := run + [Apply(run[|run| - 1], step)];
    assert Next(run[|run| - 1], Apply(run[|run| - 1], step));
    forall k | 0 <= k < |longer| - 1 ensures StepAt(longer, k) {
      if k < |run| - 1 {
        assert StepAt(run, k);
      }
    }
  }

  /** From wherever a run is when the flag goes up, it can go on until every worker has returned; and then
      every file that was claimed is under its done name and every other one under its own. */
  lemma {:induction false} CanWindUp(run: seq<State>) returns (whole: seq<State>)
    requires IsRun(run) && run[|run| - 1].shutdown
    ensures IsRun(whole) && run <= whole
    ensures var s := whole[|whole| - 1];
      AllReturned(s) && forall o <- s.originals :: PlaceOf(s.files, o) == if o in s.claims then Finished else Waiting
    decreases Distance(run[|run| - 1])
  {
    var s := run[|run| - 1];
    if AllReturned(s) {
      whole := run;
      forall o <- s.originals ensures PlaceOf(s.files, o) == if o in s.claims then Finished else Waiting {
        NothingLeftInProgress(run, |run| - 1, o);
      }
    } else {
      var step := SomeoneMoves(s);
      RunSnoc(run, step);
      DistanceFalls(s, step);
      whole := CanWindUp(run + [Apply(s, step)]);
    }
  }
}
