/** The protocol between the processors and the log thread: counter, mutex, condition variable. */
module LogMonitor {

  /** A processor's way through handle. */
  datatype Processor =
    | Outside
    | Arriving      // holds the mutex, before fetch_add(1)
    | Arrived       // holds it, after
    | Working
    | Leaving       // holds the mutex, before fetch_add(-1)
    | Left          // holds it, after
    | ToNotify      // unlocked, before notify_all
  {
    predicate Holds() { Arriving? || Arrived? || Leaving? || Left? }

    /** Between the locked increment and the locked decrement. */
    predicate Counted() { Arrived? || Working? || Leaving? }

    predicate Pending() { Left? || ToNotify? }
  }

  datatype Logger =
    | Elsewhere
    | Testing(expired: bool)    // holds the mutex, about to evaluate the predicate
    | Sleeping                  // in wait_for, not notified
    | Woken(expired: bool)      // notified, spuriously woken or timed out; needs the mutex
    | Proceeding(expired: bool) // holds the mutex, leaves the block to print one message
  {
    predicate Holds() { Testing? || Proceeding? }
  }

  const SIZE_T: nat := 0x1_0000_0000_0000_0000

  datatype Holder = Nobody | LogThread | Thread(i: nat)

  datatype State = State(counter: nat, holder: Holder, processors: seq<Processor>, logger: Logger)

  datatype Step =
    | LockToArrive(i: nat) | Increment(i: nat) | UnlockArrived(i: nat)
    | LockToLeave(i: nat) | Decrement(i: nat) | UnlockLeft(i: nat) | NotifyAll(i: nat)
    | LogLock | LogTest | LogSpuriousWakeup | LogTimeout | LogReacquire | LogProceed

  predicate Enabled(s: State, step: Step) {
    match step
    case LockToArrive(i) => i < |s.processors| && s.processors[i].Outside? && s.holder.Nobody?
    case Increment(i) => i < |s.processors| && s.processors[i].Arriving?
    case UnlockArrived(i) => i < |s.processors| && s.processors[i].Arrived?
    case LockToLeave(i) => i < |s.processors| && s.processors[i].Working? && s.holder.Nobody?
    case Decrement(i) => i < |s.processors| && s.processors[i].Leaving?
    case UnlockLeft(i) => i < |s.processors| && s.processors[i].Left?
    case NotifyAll(i) => i < |s.processors| && s.processors[i].ToNotify?
    case LogLock => s.logger.Elsewhere? && s.holder.Nobody?
    case LogTest => s.logger.Testing?
    case LogSpuriousWakeup => s.logger.Sleeping?
    case LogTimeout => s.logger.Sleeping?
    case LogReacquire => s.logger.Woken? && s.holder.Nobody?
    case LogProceed => s.logger.Proceeding?
  }

  function Apply(s: State, step: Step): State
    requires Enabled(s, step)
  {
    match step
    case LockToArrive(i) => s.(processors := s.processors[i := Arriving], holder := Thread(i))
    case Increment(i) => s.(processors := s.processors[i := Arrived], counter := (s.counter + 1) % SIZE_T)
    case UnlockArrived(i) => s.(processors := s.processors[i := Working], holder := Nobody)
    case LockToLeave(i) => s.(processors := s.processors[i := Leaving], holder := Thread(i))
    case Decrement(i) => s.(processors := s.processors[i := Left], counter := (s.counter + (SIZE_T - 1)) % SIZE_T)
    case UnlockLeft(i) => s.(processors := s.processors[i := ToNotify], holder := Nobody)
    case NotifyAll(i) =>
      s.(processors := s.processors[i := Outside], logger := if s.logger.Sleeping? then Woken(false) else s.logger)
    case LogLock => s.(logger := Testing(false), holder := LogThread)
    case LogTest =>
      if s.counter == 0 || s.logger.expired then s.(logger := Proceeding(s.logger.expired))
      else s.(logger := Sleeping, holder := Nobody)
    case LogSpuriousWakeup => s.(logger := Woken(false))
    case LogTimeout => s.(logger := Woken(true))
    case LogReacquire => s.(logger := Testing(s.logger.expired), holder := LogThread)
    case LogProceed => s.(logger := Elsewhere, holder := Nobody)
  }

  predicate Initial(s: State) {
    s.counter == 0 && s.holder.Nobody? && s.logger.Elsewhere? && |s.processors| < SIZE_T
    && forall i | 0 <= i < |s.processors| :: s.processors[i] == Outside
  }

  ghost predicate StepAt(run: seq<State>, k: nat)
    requires k + 1 < |run|
  {
    Next(run[k], run[k + 1])
  }

  ghost predicate IsRun(run: seq<State>) {
    run != [] && Initial(run[0]) && forall k | 0 <= k < |run| - 1 :: StepAt(run, k)
  }

  ghost predicate Next(s: State, t: State) {
    exists step :: Enabled(s, step) && t == Apply(s, step)
  }

  function CountedOf(processors: seq<Processor>): (n: nat)
    ensures n <= |processors|
  {
    if processors == [] then 0
    else (if processors[0].Counted() then 1 else 0) + CountedOf(processors[1..])
  }

  lemma {:induction false} CountedUpdate(processors: seq<Processor>, i: nat, p: Processor)
    requires i < |processors|
    ensures CountedOf(processors[i := p])
         == CountedOf(processors) - (if processors[i].Counted() then 1 else 0) + if p.Counted() then 1 else 0
  {
    if i == 0 {
      assert processors[0 := p][1..] == processors[1..];
    } else {
      assert processors[i := p][1..] == processors[1..][i - 1 := p];
      CountedUpdate(processors[1..], i - 1, p);
    }
  }

  lemma {:induction false} NoneCounted(processors: seq<Processor>)
    requires forall i | 0 <= i < |processors| :: processors[i] == Outside
    ensures CountedOf(processors) == 0
  {
    if processors != [] {
      NoneCounted(processors[1..]);
    }
  }

  ghost predicate Exclusive(s: State) {
    (s.holder.Thread? ==> s.holder.i < |s.processors|)
    && (s.logger.Holds() <==> s.holder.LogThread?)
    && forall i | 0 <= i < |s.processors| :: s.processors[i].Holds() <==> s.holder == Thread(i)
  }

  ghost predicate SomePending(s: State) {
    exists i | 0 <= i < |s.processors| :: s.processors[i].Pending()
  }

  ghost predicate Inv(s: State) {
    && |s.processors| < SIZE_T && Exclusive(s)
    && s.counter == CountedOf(s.processors)
    && (s.logger.Sleeping? && s.counter == 0 ==> SomePending(s))
    && (s.logger.Proceeding? && !s.logger.expired ==> s.counter == 0)
  }

  lemma ExclusiveKept(s: State, step: Step)
    requires Inv(s) && Enabled(s, step)
    ensures Exclusive(Apply(s, step)) && |Apply(s, step).processors| == |s.processors|
  {
  }

  lemma CounterKept(s: State, step: Step)
    requires Inv(s) && Enabled(s, step)
    ensures Apply(s, step).counter == CountedOf(Apply(s, step).processors)
  {
    var t := Apply(s, step);
    match step {
      case LockToArrive(i) => CountedUpdate(s.processors, i, Arriving);
      case Increment(i) => CountedUpdate(s.processors, i, Arrived);
      case UnlockArrived(i) => CountedUpdate(s.processors, i, Working);
      case LockToLeave(i) => CountedUpdate(s.processors, i, Leaving);
      case Decrement(i) => CountedUpdate(s.processors, i, Left);
      case UnlockLeft(i) => CountedUpdate(s.processors, i, ToNotify);
      case NotifyAll(i) => CountedUpdate(s.processors, i, Outside);
      case _ =>
    }
  }

  lemma SleepKept(s: State, step: Step)
    requires Inv(s) && Enabled(s, step)
    ensures var t := Apply(s, step); t.logger.Sleeping? && t.counter == 0 ==> SomePending(t)
  {
    var t := Apply(s, step);
    if t.logger.Sleeping? && t.counter == 0 {
      if step.Decrement? || step.UnlockLeft? {
        assert t.processors[step.i].Pending();
      } else if step.Increment? {
        CountedUpdate(s.processors, step.i, Arrived);
        assert false;
      } else if s.logger.Sleeping? && s.counter == 0 {
        var j :| 0 <= j < |s.processors| && s.processors[j].Pending();
        assert t.processors[j].Pending();
      }
    }
  }

  lemma ProceedKept(s: State, step: Step)
    requires Inv(s) && Enabled(s, step)
    ensures var t := Apply(s, step); t.logger.Proceeding? && !t.logger.expired ==> t.counter == 0
  {
  }

  lemma {:induction false} InvHolds(run: seq<State>, k: nat)
    requires IsRun(run) && k < |run|
    ensures Inv(run[k])
  {
    if k == 0 {
      NoneCounted(run[0].processors);
    } else {
      InvHolds(run, k - 1);
      assert StepAt(run, k - 1);
      var step :| Enabled(run[k - 1], step) && run[k] == Apply(run[k - 1], step);
      ExclusiveKept(run[k - 1], step);
      CounterKept(run[k - 1], step);
      SleepKept(run[k - 1], step);
      ProceedKept(run[k - 1], step);
    }
  }

  /** In every reachable state the counter is the number of processors between their increment and their
      decrement (it never wraps), and a log thread asleep un-notified although the counter is zero will
      still be notified: some processor is between its decrement and its notify_all. */
  lemma NoLostWakeup(run: seq<State>, k: nat)
    requires IsRun(run) && k < |run|
    ensures run[k].counter == CountedOf(run[k].processors)
    ensures run[k].logger.Sleeping? && run[k].counter == 0 ==> SomePending(run[k])
  {
    InvHolds(run, k);
  }

  /** Unless its hour has passed, the log thread leaves the block only while no processor is counted. */
  lemma LogsOnlyWhenIdle(run: seq<State>, k: nat, i: nat)
    requires IsRun(run) && k < |run| && i < |run[k].processors|
    requires run[k].logger.Proceeding? && !run[k].logger.expired
    ensures !run[k].processors[i].Counted()
  {
    InvHolds(run, k);
    CountedUpdate(run[k].processors, i, Outside);
  }
}
