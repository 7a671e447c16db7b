/** SafeQueue as a monitor: any number of threads, every lock, test, sleep and notify a step of its own. */
module QueueMonitor {
  import opened Basics

  type Item = string

  /** Where a thread is inside enqueue, dequeue (timed false) or dequeue_with_timeout (timed true). */
  datatype Pc =
    | Idle
    | Pushing(item: Item)                      // holds the mutex, before m_queue.push
    | Notifying                                // holds it, before notify_all
    | Testing(timed: bool, expired: bool)      // holds it, about to look whether the queue is empty
    | Asleep(timed: bool)                      // waits on m_cv, not notified
    | Awake(timed: bool, expired: bool)        // notified, timed out or spuriously woken; needs the mutex
    | Taking                                   // holds it, before front and pop
    | Releasing                                // holds it, about to unlock and return
  {
    predicate Holds() { Pushing? || Notifying? || Testing? || Taking? || Releasing? }
  }

  /** pushed and taken record all items ever pushed and popped, in order. */
  datatype State = State(items: seq<Item>, holder: Option<nat>, threads: seq<Pc>, pushed: seq<Item>, taken: seq<Item>)

  datatype Step =
    | Enqueue(i: nat, item: Item) | Push(i: nat) | NotifyAll(i: nat)
    | Dequeue(i: nat, timed: bool) | Test(i: nat) | Take(i: nat)
    | SpuriousWakeup(i: nat) | Timeout(i: nat) | Reacquire(i: nat) | Unlock(i: nat)

  predicate Enabled(s: State, step: Step) {
    step.i < |s.threads| &&
    var pc := s.threads[step.i];
    match step
    case Enqueue(_, _) => pc.Idle? && s.holder.None?
    case Push(_) => pc.Pushing?
    case NotifyAll(_) => pc.Notifying?
    case Dequeue(_, _) => pc.Idle? && s.holder.None?
    case Test(_) => pc.Testing?
    case Take(_) => pc.Taking? && s.items != []
    case SpuriousWakeup(_) => pc.Asleep?
    case Timeout(_) => pc.Asleep? && pc.timed
    case Reacquire(_) => pc.Awake? && s.holder.None?
    case Unlock(_) => pc.Releasing?
  }

  function WakeAll(threads: seq<Pc>): (woken: seq<Pc>)
    ensures |woken| == |threads|
    ensures forall i | 0 <= i < |threads| ::
      woken[i] == if threads[i].Asleep? then Awake(threads[i].timed, false) else threads[i]
  {
    seq(|threads|, i requires 0 <= i < |threads| =>
      if threads[i].Asleep? then Awake(threads[i].timed, false) else threads[i])
  }

  function Apply(s: State, step: Step): State
    requires Enabled(s, step)
  {
    var i := step.i;
    var pc := s.threads[i];
    match step
    case Enqueue(_, item) => s.(threads := s.threads[i := Pushing(item)], holder := Some(i))
    case Push(_) =>
      s.(threads := s.threads[i := Notifying], items := s.items + [pc.item], pushed := s.pushed + [pc.item])
    case NotifyAll(_) => s.(threads := WakeAll(s.threads)[i := Releasing])
    case Dequeue(_, timed) => s.(threads := s.threads[i := Testing(timed, false)], holder := Some(i))
    case Test(_) =>
      if s.items != [] then s.(threads := s.threads[i := Taking])
      else if pc.expired then s.(threads := s.threads[i := Releasing])
      else s.(threads := s.threads[i := Asleep(pc.timed)], holder := None)
    case Take(_) =>
      s.(threads := s.threads[i := Releasing], items := s.items[1..], taken := s.taken + [s.items[0]])
    case SpuriousWakeup(_) => s.(threads := s.threads[i := Awake(pc.timed, false)])
    case Timeout(_) => s.(threads := s.threads[i := Awake(true, true)])
    case Reacquire(_) => s.(threads := s.threads[i := Testing(pc.timed, pc.expired)], holder := Some(i))
    case Unlock(_) => s.(threads := s.threads[i := Idle], holder := None)
  }

  predicate Initial(s: State) {
    && s.items == [] && s.holder.None? && s.pushed == [] && s.taken == []
    && forall i | 0 <= i < |s.threads| :: s.threads[i] == Idle
  }

  ghost predicate StepAt(run: seq<State>, k: nat)
    requires k + 1 < |run|
  {
    Next(run[k], run[k + 1])
  }

  /** All states of a run. */
  ghost predicate IsRun(run: seq<State>) {
    run != [] && Initial(run[0]) && forall k | 0 <= k < |run| - 1 :: StepAt(run, k)
  }

  ghost predicate Next(s: State, t: State) {
    exists step :: Enabled(s, step) && t == Apply(s, step)
  }

  ghost predicate Exclusive(s: State) {
    (s.holder.Some? ==> s.holder.value < |s.threads|)
    && forall i | 0 <= i < |s.threads| :: s.threads[i].Holds() <==> s.holder == Some(i)
  }

  predicate HolderNotifies(s: State) {
    s.holder.Some? && s.holder.value < |s.threads| && s.threads[s.holder.value].Notifying?
  }

  /** A sleeper next to a nonempty queue is about to be notified by the thread in the monitor. */
  ghost predicate Covered(s: State) {
    s.items != [] && !HolderNotifies(s) ==> forall i | 0 <= i < |s.threads| :: !s.threads[i].Asleep?
  }

  ghost predicate Inv(s: State) {
    && Exclusive(s) && Covered(s)
    && (forall i | 0 <= i < |s.threads| :: s.threads[i].Taking? ==> s.items != [])
    && s.pushed == s.taken + s.items
  }

  lemma ExclusiveKept(s: State, step: Step)
    requires Inv(s) && Enabled(s, step)
    ensures Exclusive(Apply(s, step))
  {
  }

  lemma CoveredKept(s: State, step: Step)
    requires Inv(s) && Enabled(s, step)
    ensures Covered(Apply(s, step))
  {
  }

  lemma ItemsKept(s: State, step: Step)
    requires Inv(s) && Enabled(s, step)
    ensures var t := Apply(s, step);
      (forall i | 0 <= i < |t.threads| :: t.threads[i].Taking? ==> t.items != []) && t.pushed == t.taken + t.items
  {
    match step {
      case Push(_) => ConcatAssoc(s.taken, s.items, [s.threads[step.i].item]);
      case Take(_) => ConcatAssoc(s.taken, [s.items[0]], s.items[1..]);
      case _ =>
    }
  }

  lemma {:induction false} InvHolds(run: seq<State>, k: nat)
    requires IsRun(run) && k < |run|
    ensures Inv(run[k])
  {
    if k > 0 {
      InvHolds(run, k - 1);
      assert StepAt(run, k - 1);
      var step :| Enabled(run[k - 1], step) && run[k] == Apply(run[k - 1], step);
      ExclusiveKept(run[k - 1], step);
      CoveredKept(run[k - 1], step);
      ItemsKept(run[k - 1], step);
    }
  }

  /** No lost wakeup: whenever the mutex is free, a thread asleep and un-notified means that the queue
      is empty; so with items present every waiting thread can proceed to take the mutex. */
  lemma NoLostWakeup(run: seq<State>, k: nat, i: nat)
    requires IsRun(run) && k < |run| && i < |run[k].threads| && run[k].holder.None?
    ensures run[k].threads[i].Asleep? ==> run[k].items == []
    ensures run[k].items != [] && !run[k].threads[i].Idle? ==> Enabled(run[k], Reacquire(i))
  {
    InvHolds(run, k);
    assert !run[k].threads[i].Holds();
  }

  /** At most one thread is inside the monitor, and what was popped is what was pushed, in order, once each. */
  lemma FirstInFirstOut(run: seq<State>, k: nat, i: nat, j: nat)
    requires IsRun(run) && k < |run| && i < j < |run[k].threads|
    ensures !(run[k].threads[i].Holds() && run[k].threads[j].Holds())
    ensures run[k].taken <= run[k].pushed && run[k].pushed[|run[k].taken|..] == run[k].items
  {
    InvHolds(run, k);
  }
}
