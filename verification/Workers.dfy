/** AbstractWorker::run and the two step functions, as one worker thread runs them. */
module Workers {
  import opened Basics
  import opened Framing
  import opened SafeQueue
  import opened DirectoryPoller

  class PollerWorker {
    const poller: DirectoryPoller
    const queue: SafeQueue<string>

    constructor (poller: DirectoryPoller, queue: SafeQueue<string>)
      ensures this.poller == poller && this.queue == queue
    {
      this.poller, this.queue := poller, queue;
    }

    /** poll, then enqueue unless the result is empty: the last pending path moves to the queue, and with
        no path pending nothing changes. */
    method Step(ready: bool, buffer: array<byte>, length: int, ghost events: seq<Event>)
      requires ValidEvents(events) && length <= buffer.Length
      requires if length < 0 then events == [] else buffer[..length] == AllBytes(events)
      requires "" !in poller.filePaths
      modifies poller`filePaths, queue
      ensures "" !in poller.filePaths
      ensures var pending := if old(poller.filePaths) != [] || !ready then old(poller.filePaths)
                             else AdmittedPaths(poller.dir, events);
        if pending == [] then queue.items == old(queue.items) && poller.filePaths == []
        else poller.filePaths == pending[..|pending| - 1] && queue.items == old(queue.items) + [pending[|pending| - 1]]
    {
      ghost var pending := if poller.filePaths != [] || !ready then poller.filePaths
                           else AdmittedPaths(poller.dir, events);
      AdmittedNames(poller.dir, events);
      var r := poller.Poll(ready, buffer, length, events);
      if pending != [] {
        assert r in pending;
        assert poller.filePaths == pending[..|pending| - 1];
        assert forall p <- poller.filePaths :: p in pending;
      }
      if r != "" {
        queue.Enqueue(r);
      }
    }
  }

  class ProcessorWorker {
    const queue: SafeQueue<string>
    var handled: seq<string>

    constructor (queue: SafeQueue<string>)
      ensures this.queue == queue && handled == []
    {
      this.queue, handled := queue, [];
    }

    /** handle, as far as the worker loop sees it. */
    method Handle(path: string)
      modifies this`handled
      ensures handled == old(handled) + [path]
    {
      handled := handled + [path];
    }

    /** One step while the batches of rounds are enqueued: the first path available is handled, if any. */
    method Step(rounds: seq<seq<string>>) returns (ghost taken: seq<string>)
      requires "" !in queue.items && "" !in Flatten(rounds)
      modifies this`handled, queue
      ensures old(queue.items) + Flatten(rounds) == taken + queue.items && |taken| <= 1
      ensures taken == [] <==> old(queue.items) + Flatten(rounds) == []
      ensures handled == old(handled) + taken
    {
      ghost var all := old(queue.items) + Flatten(rounds);
      var used;
      var d := "";
      d, used := queue.DequeueWithTimeout(rounds, d);
      taken := if all == [] then [] else [d];
      assert rounds == rounds[..used] + rounds[used..];
      FlattenConcat(rounds[..used], rounds[used..]);
      ConcatAssoc(old(queue.items), Flatten(rounds[..used]), Flatten(rounds[used..]));
      ConcatAssoc(taken, queue.items, Flatten(rounds[used..]));
      queue.Others(Flatten(rounds[used..]));
      if all != [] {
        assert d == all[0] && d in all;
      }
      if d != "" {
        Handle(d);
      }
    }

    /** run: flags[k] is the shutdown flag at test k. Exactly the tests that see it down are followed by a
        step, and what is handled is, in order, the front of what was ever enqueued. */
    method Run(flags: seq<bool>, env: seq<seq<seq<string>>>) returns (steps: nat, ghost taken: seq<string>)
      requires |env| == |flags| && "" !in queue.items
      requires forall k | 0 <= k < |env| :: "" !in Flatten(env[k])
      modifies this`handled, queue
      ensures steps <= |flags| && (forall k | 0 <= k < steps :: !flags[k]) && (steps < |flags| ==> flags[steps])
      ensures old(queue.items) + Pushed(env[..steps]) == taken + queue.items && |taken| <= steps
      ensures handled == old(handled) + taken
    {
      steps, taken := 0, [];
      while steps < |flags| && !flags[steps]
        invariant steps <= |flags| && (forall k | 0 <= k < steps :: !flags[k]) && |taken| <= steps
        invariant "" !in queue.items
        invariant old(queue.items) + Pushed(env[..steps]) == taken + queue.items
        invariant handled == old(handled) + taken
      {
        PushedNext(env, steps);
        ghost var before := queue.items;
        TakenNext(old(queue.items), Pushed(env[..steps]), taken, before, Flatten(env[steps]));
        ghost var t := Step(env[steps]);
        assert forall p <- queue.items :: p in before + Flatten(env[steps]);
        ConcatAssoc(taken, t, queue.items);
        ConcatAssoc(old(handled), taken, t);
        taken := taken + t;
        steps := steps + 1;
      }
    }
  }
}
