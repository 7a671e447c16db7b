/** The log queue: messages built by create_log, and the thread that prints them. */
module LogProcessor {
  import opened Basics
  import opened SafeQueue

  datatype Level = TRACE | DEBUG | INFO | WARN | ERROR {
    function Rank(): nat {
      match this case TRACE => 0 case DEBUG => 1 case INFO => 2 case WARN => 3 case ERROR => 4
    }

    function Prefix(): string {
      match this
      case TRACE => " [TRACE] " case DEBUG => " [DEBUG] " case INFO => " [INFO] "
      case WARN => " [WARN] " case ERROR => " [ERROR] "
    }
  }

  /** Logging.h defines LOGGING_LEVEL_INFO, for which no branch exists, so the default applies. */
  const LEVEL_CUTOFF := INFO

  function CreateLog(timestamp: string, message: string, level: Level, name: string): string {
    timestamp + level.Prefix() + "[" + name + "] " + message + "\n"
  }

  /** No message, whatever its parts, is the empty string that means "nothing was dequeued". */
  lemma CreateLogNonEmpty(timestamp: string, message: string, level: Level, name: string)
    ensures CreateLog(timestamp, message, level, name) != ""
  {
    var s := CreateLog(timestamp, message, level, name);
    assert s[|s| - 1] == '\n';
  }

  /** Time, level, the name in brackets, the message; one line. */
  lemma CreateLogParts(timestamp: string, message: string, level: Level, name: string)
    ensures var text := CreateLog(timestamp, message, level, name);
      && timestamp <= text && "] " + message + "\n" == text[|text| - |message| - 3..]
      && (level == TRACE ==> text == timestamp + " [TRACE] [" + name + "] " + message + "\n")
      && (level == DEBUG ==> text == timestamp + " [DEBUG] [" + name + "] " + message + "\n")
      && (level == INFO ==> text == timestamp + " [INFO] [" + name + "] " + message + "\n")
      && (level == WARN ==> text == timestamp + " [WARN] [" + name + "] " + message + "\n")
      && (level == ERROR ==> text == timestamp + " [ERROR] [" + name + "] " + message + "\n")
  {
    assert level.Prefix() + "[" == match level
      case TRACE => " [TRACE] [" case DEBUG => " [DEBUG] [" case INFO => " [INFO] ["
      case WARN => " [WARN] [" case ERROR => " [ERROR] [";
    ConcatAssoc(timestamp, level.Prefix(), "[");
  }

  /** TRACE, DEBUG, INFO, WARN and ERROR of Logging.h. */
  method Log(queue: SafeQueue<string>, timestamp: string, message: string, level: Level, name: string)
    requires "" !in queue.items
    modifies queue
    ensures queue.items == old(queue.items)
      + if level == TRACE || level == DEBUG then [] else [CreateLog(timestamp, message, level, name)]
    ensures "" !in queue.items
  {
    CreateLogNonEmpty(timestamp, message, level, name);
    if level != ERROR && LEVEL_CUTOFF.Rank() > level.Rank() {
      return;
    }
    queue.Enqueue(CreateLog(timestamp, message, level, name));
  }

  /** What appears in the log: a message from the queue, or one of the thread's own two. */
  datatype Line = Queued(message: string) | Remaining(count: nat) | ShuttingDown

  function Lines(messages: seq<string>): (lines: seq<Line>)
    ensures |lines| == |messages|
  {
    if messages == [] then [] else [Queued(messages[0])] + Lines(messages[1..])
  }

  lemma {:induction false} LinesConcat(a: seq<string>, b: seq<string>)
    ensures Lines(a + b) == Lines(a) + Lines(b)
  {
    if a == [] {
      assert a + b == b;
    } else {
      assert (a + b)[1..] == a[1..] + b;
      LinesConcat(a[1..], b);
    }
  }

  /** The messages before the first empty one. */
  function UpToEmpty(messages: seq<string>): seq<string> {
    if messages == [] || messages[0] == "" then [] else [messages[0]] + UpToEmpty(messages[1..])
  }

  /** The drain takes everything that is left exactly when no message is empty. */
  lemma {:induction false} DrainComplete(messages: seq<string>)
    ensures UpToEmpty(messages) == messages <==> "" !in messages
  {
    if messages != [] {
      DrainComplete(messages[1..]);
      assert messages == [messages[0]] + messages[1..];
      assert "" in messages <==> messages[0] == "" || "" in messages[1..];
    }
  }

  class LogProcessor {
    const queue: SafeQueue<string>
    var printed: seq<Line>

    constructor (queue: SafeQueue<string>)
      ensures this.queue == queue && printed == []
    {
      this.queue, printed := queue, [];
    }

    /** One dequeue of the drain: the first message, or the empty string. */
    method TakeNow() returns (msg: string)
      modifies queue
      ensures old(queue.items) == [] ==> msg == "" && queue.items == []
      ensures old(queue.items) != [] ==> old(queue.items) == [msg] + queue.items
    {
      var used;
      msg, used := queue.DequeueWithTimeout([], "");
      assert old(queue.items) + Flatten([]) == old(queue.items);
    }

    /** After the last producer has stopped: print until nothing (or something empty) is dequeued. */
    method Drain()
      modifies this`printed, queue
      ensures printed == old(printed) + Lines(UpToEmpty(old(queue.items)))
      ensures "" !in old(queue.items) ==> queue.items == []
    {
      ghost var todo := queue.items;
      var msg := TakeNow();
      while msg != ""
        invariant printed + Lines(UpToEmpty(todo)) == old(printed) + Lines(UpToEmpty(old(queue.items)))
        invariant if msg != "" then todo == [msg] + queue.items
                  else (todo == [] && queue.items == []) || (todo != [] && todo[0] == "")
        invariant "" !in old(queue.items) ==> "" !in todo
        decreases |todo|
      {
        assert todo[1..] == queue.items;
        ConcatAssoc(printed, [Queued(msg)], Lines(UpToEmpty(queue.items)));
        printed := printed + [Queued(msg)];
        todo := queue.items;
        msg := TakeNow();
      }
      assert printed + [] == printed;
    }

    /** A blocking dequeue while the batches of rounds are being enqueued. */
    method Take(rounds: seq<seq<string>>) returns (val: Option<string>)
      modifies queue
      ensures val.Some? ==> old(queue.items) + Flatten(rounds) == [val.value] + queue.items
      ensures val.None? ==> old(queue.items) + Flatten(rounds) == [] && queue.items == []
    {
      var used;
      val, used := queue.Dequeue(rounds);
      if val.Some? {
        assert rounds == rounds[..used] + rounds[used..];
        FlattenConcat(rounds[..used], rounds[used..]);
        ConcatAssoc([val.value], queue.items, Flatten(rounds[used..]));
        ConcatAssoc(old(queue.items), Flatten(rounds[..used]), Flatten(rounds[used..]));
        queue.Others(Flatten(rounds[used..]));
      }
    }

    /** The main loop: one element of env for every test that still sees m_should_run; its batches are
        what the producers enqueue meanwhile. blocked is a thread left waiting in dequeue. */
    method MainLoop(env: seq<seq<seq<string>>>) returns (blocked: bool, i: nat, ghost taken: seq<string>)
      modifies this`printed, queue
      ensures printed == old(printed) + Lines(taken)
      ensures !blocked ==> |taken| == |env| && old(queue.items) + Pushed(env) == taken + queue.items
      ensures blocked ==> i < |env| && queue.items == [] && taken == old(queue.items) + Pushed(env[..i + 1])
    {
      blocked, i, taken := false, 0, [];
      while i < |env|
        invariant i <= |env| && |taken| == i
        invariant old(queue.items) + Pushed(env[..i]) == taken + queue.items
        invariant printed == old(printed) + Lines(taken)
      {
        PushedNext(env, i);
        ghost var before := queue.items;
        var message := Take(env[i]);
        TakenNext(old(queue.items), Pushed(env[..i]), taken, before, Flatten(env[i]));
        if message.None? {
          blocked := true;
          return;
        }
        LinesConcat(taken, [message.value]);
        ConcatAssoc(old(printed), Lines(taken), [Queued(message.value)]);
        ConcatAssoc(taken, [message.value], queue.items);
        printed := printed + [Queued(message.value)];
        taken := taken + [message.value];
        i := i + 1;
      }
      TakeAll(env);
    }

    /** run: the loop, then, once the producers have enqueued late and stopped, the drain. Every message
        is printed, in the order of enqueueing; the announced count is the number of those drained. */
    method Run(env: seq<seq<seq<string>>>, late: seq<string>) returns (blocked: bool, iterations: nat)
      requires "" !in queue.items && "" !in Pushed(env) && "" !in late
      modifies this`printed, queue
      ensures queue.items == []
      ensures !blocked ==> var all := old(queue.items) + Pushed(env) + late;
        && |env| <= |all|
        && printed == old(printed) + Lines(all[..|env|]) + [Remaining(|all| - |env|)] + Lines(all[|env|..])
                      + [ShuttingDown]
      ensures blocked ==> iterations < |env|
      ensures blocked ==> printed == old(printed) + Lines(old(queue.items) + Pushed(env[..iterations + 1]))
    {
      ghost var taken;
      blocked, iterations, taken := MainLoop(env);
      if blocked {
        return;
      }
      ConcatAssoc(taken, queue.items, late);
      queue.Others(late);
      Finish(taken, old(printed));
    }

    /** The end of run, after the loop: announce, drain, say goodbye. */
    method Finish(ghost taken: seq<string>, ghost before: seq<Line>)
      requires "" !in taken + queue.items && printed == before + Lines(taken)
      modifies this`printed, queue
      ensures queue.items == []
      ensures var all, n := taken + old(queue.items), |taken|;
        printed == before + Lines(all[..n]) + [Remaining(|all| - n)] + Lines(all[n..]) + [ShuttingDown]
    {
      ghost var all := taken + queue.items;
      assert all[..|taken|] == taken && all[|taken|..] == queue.items;
      assert "" !in queue.items by {
        assert forall m <- queue.items :: m in all;
      }
      DrainComplete(queue.items);
      var size := queue.Size();
      printed := printed + [Remaining(size)];
      Drain();
      printed := printed + [ShuttingDown];
    }
  }
}
