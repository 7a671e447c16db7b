/** SafeQueue<T> as one thread sees it: between its own steps other threads may have enqueued. */
module SafeQueue {
  import opened Basics

  /** All batches, one after the other. */
  function Flatten<T>(batches: seq<seq<T>>): seq<T> {
    if batches == [] then [] else batches[0] + Flatten(batches[1..])
  }

  lemma {:induction false} FlattenConcat<T>(a: seq<seq<T>>, b: seq<seq<T>>)
    ensures Flatten(a + b) == Flatten(a) + Flatten(b)
  {
    if a == [] {
      assert a + b == b;
    } else {
      assert (a + b)[1..] == a[1..] + b;
      FlattenConcat(a[1..], b);
    }
  }

  class SafeQueue<T> {
    var items: seq<T>

    constructor ()
      ensures items == []
    {
      items := [];
    }

    method Enqueue(t: T)
      modifies this
      ensures items == old(items) + [t]
    {
      items := items + [t];
    }

    /** Other threads' enqueue calls. */
    method Others(batch: seq<T>)
      modifies this
      ensures items == old(items) + batch
    {
      items := items + batch;
    }

    method Size() returns (n: nat)
      ensures n == |items|
    {
      n := |items|;
    }

    /** The wait loop: wakeup k finds what rounds[k] has enqueued meanwhile; None is a thread that is
        still waiting when the rounds are over. */
    method Dequeue(rounds: seq<seq<T>>) returns (val: Option<T>, used: nat)
      modifies this
      ensures used <= |rounds|
      ensures val.Some? ==> old(items) + Flatten(rounds[..used]) == [val.value] + items
      ensures val.None? ==> used == |rounds| && items == [] && old(items) + Flatten(rounds) == []
    {
      used := 0;
      while items == []
        invariant used <= |rounds| && items == old(items) + Flatten(rounds[..used])
        decreases |rounds| - used
      {
        if used == |rounds| {
          TakeAll(rounds);
          return None, used;
        }
        TakeNext(rounds, used);
        FlattenConcat(rounds[..used], [rounds[used]]);
        assert Flatten([rounds[used]]) == rounds[used] + Flatten([]);
        items := items + rounds[used];
        used := used + 1;
      }
      val := Some(items[0]);
      items := items[1..];
    }

    /** The timed wait: val is left alone when the time is over and there is still nothing. */
    method DequeueWithTimeout(rounds: seq<seq<T>>, val: T) returns (out: T, used: nat)
      modifies this
      ensures used <= |rounds|
      ensures old(items) + Flatten(rounds) == [] ==> used == |rounds| && items == [] && out == val
      ensures old(items) + Flatten(rounds) != [] ==> old(items) + Flatten(rounds[..used]) == [out] + items
    {
      used := 0;
      out := val;
      while items == [] && used < |rounds|
        invariant used <= |rounds| && items == old(items) + Flatten(rounds[..used])
      {
        TakeNext(rounds, used);
        FlattenConcat(rounds[..used], [rounds[used]]);
        assert Flatten([rounds[used]]) == rounds[used] + Flatten([]);
        items := items + rounds[used];
        used := used + 1;
      }
      TakeAll(rounds);
      assert rounds == rounds[..used] + rounds[used..];
      FlattenConcat(rounds[..used], rounds[used..]);
      if items != [] {
        out := items[0];
        items := items[1..];
      }
    }
  }

  /** Everything other threads enqueue in the course of env: a list of rounds for every call. */
  function Pushed<T>(env: seq<seq<seq<T>>>): seq<T> {
    Flatten(Flatten(env))
  }

  lemma PushedNext<T>(env: seq<seq<seq<T>>>, i: nat)
    requires i < |env|
    ensures Pushed(env[..i + 1]) == Pushed(env[..i]) + Flatten(env[i])
  {
    TakeNext(env, i);
    FlattenConcat(env[..i], [env[i]]);
    assert Flatten([env[i]]) == env[i] + Flatten([]);
    assert env[i] + [] == env[i];
    FlattenConcat(Flatten(env[..i]), env[i]);
  }

  lemma TakenNext<T>(start: seq<T>, pushed: seq<T>, taken: seq<T>, items: seq<T>, more: seq<T>)
    requires start + pushed == taken + items
    ensures start + (pushed + more) == taken + (items + more)
  {
    ConcatAssoc(start, pushed, more);
    ConcatAssoc(taken, items, more);
  }
}
