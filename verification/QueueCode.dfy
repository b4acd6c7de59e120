/**
 The methods of smartbus/messagequeue.go in their own form: the queue is an object, and
 processItem is a loop at whose select a given schedule says which case is taken. What
 the object records of itself is the same trace that the transition system emits.
 */
module QueueCode {
  import opened MessageQueue

  // What is ready at a select of processItem, one at a time.
  datatype Ready = QuitReady | TimerReady | MessageReady(opcode: bv16)

  // How processItem ends under a schedule; or it is still waiting when that runs out.
  datatype Ending = Over(life: Life) | StillWaiting(n: nat)

  // The retries left decide what a timeout means.
  function Decide(c: Config, item: Item, n: nat, schedule: seq<Ready>): (o: Ending)
    requires n <= c.numRetries
    ensures o.StillWaiting? ==> o.n <= n
    ensures o.Over? ==> o.life.Processed? && o.life.item == item && (c.timed ==> ValidLife(c, o.life))
    decreases |schedule|
  {
    var runs := c.numRetries - n + 1;
    if |schedule| == 0 then StillWaiting(n)
    else
      match schedule[0]
      case QuitReady => Over(Processed(item, runs, Abandoned))
      case TimerReady =>
        if n == 0 then Over(Processed(item, runs, Exhausted)) else Decide(c, item, n - 1, schedule[1..])
      case MessageReady(opcode) =>
        if opcode == item.expected then Over(Processed(item, runs, Answered)) else Decide(c, item, n, schedule[1..])
  }

  // Without a timer function there is one run and no select.
  function EndingOf(c: Config, item: Item, schedule: seq<Ready>): (o: Ending)
    ensures o.StillWaiting? ==> c.timed && o.n <= c.numRetries
    ensures o.Over? ==> o.life.Processed? && o.life.item == item && ValidLife(c, o.life)
  {
    if c.timed then Decide(c, item, c.numRetries, schedule) else Over(Processed(item, 1, Untimed))
  }

  // What is logged of an ending.
  function EndingLog(c: Config, item: Item, o: Ending): seq<Event>
    requires o.StillWaiting? ==> c.timed && o.n <= c.numRetries
  {
    match o
    case Over(life) => LifeLog(life)
    case StillWaiting(n) => CurrentLog(c, Waiting(item, n))
  }

  class Queue {
    const config: Config
    var active: bool
    var items: seq<Item>
    var messages: seq<bv16>
    ghost var log: seq<Event>

    ghost predicate Valid()
      reads this
    {
      |items| <= config.queueSize && |messages| <= INBOUND_QUEUE_SIZE
    }

    constructor (config: Config)
      ensures Valid() && this.config == config && !active && items == [] && messages == [] && log == []
    {
      this.config := config;
      active, items, messages, log := false, [], [], [];
    }

    // Never blocks: a full queue refuses the item.
    method Enqueue(item: Item) returns (ok: bool)
      requires Valid()
      modifies this`items, this`log
      ensures Valid() && ok == (|old(items)| < config.queueSize)
      ensures items == if ok then old(items) + [item] else old(items)
      ensures log == old(log) + [if ok then Accepted(item) else Rejected(item)]
    {
      ok := |items| < config.queueSize;
      if ok {
        items := items + [item];
      }
      log := log + [if ok then Accepted(item) else Rejected(item)];
    }

    // Start, up to the launch of the worker: whatever was left over is thrown away, taken
    // from the two channels in any order.
    method Start() returns (launched: bool)
      requires Valid()
      modifies this
      ensures Valid() && active && launched == !old(active)
      ensures !launched ==> items == old(items) && messages == old(messages) && log == old(log)
      ensures launched ==> items == [] && messages == [] && log == old(log) + FlushLog(old(items))
    {
      if active {
        return false;
      }
      active := true;
      Flush();
      return true;
    }

    method Flush()
      requires Valid()
      modifies this`items, this`messages, this`log
      ensures items == [] && messages == [] && log == old(log) + FlushLog(old(items))
    {
      ghost var gone := 0;
      while
        invariant gone <= |old(items)| && items == old(items)[gone..]
        invariant log == old(log) + FlushLog(old(items)[..gone])
        decreases |items| + |messages|
      {
        case |items| > 0 =>
          log := log + [Flushed(items[0])];
          items := items[1..];
          gone := gone + 1;
        case |messages| > 0 =>
          messages := messages[1..];
      }
      assert old(items)[..gone] == old(items);
    }

    // The result says whether the loop of run goes on.
    method ProcessItem(item: Item, schedule: seq<Ready>) returns (more: bool, ghost ending: Ending)
      modifies this`log
      ensures ending == EndingOf(config, item, schedule)
      ensures log == old(log) + EndingLog(config, item, ending)
      ensures ending.Over? ==>
        ending.life.Processed? && ValidLife(config, ending.life) && more == !ending.life.fate.Abandoned?
    {
      hide Attempts, ValidLife;
      ghost var start := log;
      AttemptsMore(item, 0);
      log := log + [Ran(item, 1)];
      if !config.timed {
        log := log + [Finished(item, Untimed)];
        return true, Over(Processed(item, 1, Untimed));
      }
      log := log + [TimerMade];
      var n: nat := config.numRetries;
      for i := 0 to |schedule|
        invariant 0 <= n <= config.numRetries
        invariant log == start + Attempts(item, config.numRetries - n + 1)
        invariant Decide(config, item, n, schedule[i..]) == Decide(config, item, config.numRetries, schedule)
      {
        ghost var runs := config.numRetries - n + 1;
        assert schedule[i..][0] == schedule[i] && schedule[i..][1..] == schedule[i + 1..];
        match schedule[i] {
          case QuitReady =>
            log := log + [TimerStopped, Finished(item, Abandoned)];
            return false, Over(Processed(item, runs, Abandoned));
          case TimerReady =>
            if n == 0 {
              log := log + [TimerFired, Finished(item, Exhausted)];
              return true, Over(Processed(item, runs, Exhausted));
            }
            AttemptsMore(item, runs);
            log := log + [TimerFired];
            n := n - 1;
            log := log + [Ran(item, runs + 1)];
            log := log + [TimerMade];
          case MessageReady(opcode) =>
            if opcode == item.expected {
              log := log + [TimerStopped, Finished(item, Answered)];
              return true, Over(Processed(item, runs, Answered));
            }
        }
      }
      return true, StillWaiting(n);
    }
  }

  function FlushLog(items: seq<Item>): seq<Event> {
    seq(|items|, i requires 0 <= i < |items| => Flushed(items[i]))
  }

  lemma AttemptsMore(item: Item, runs: nat)
    ensures Attempts(item, runs + 1) ==
            (if runs == 0 then [] else Attempts(item, runs) + [TimerFired]) + [Ran(item, runs + 1), TimerMade]
  {}

  function CountTimeouts(schedule: seq<Ready>): nat {
    if |schedule| == 0 then 0 else (if schedule[0].TimerReady? then 1 else 0) + CountTimeouts(schedule[1..])
  }

  // An item is exhausted exactly when all its timers fire before anything else decides.
  lemma {:induction false} ExhaustedIff(c: Config, item: Item, n: nat, schedule: seq<Ready>)
    requires n <= c.numRetries && QuitReady !in schedule && MessageReady(item.expected) !in schedule
    ensures CountTimeouts(schedule) > n <==> Decide(c, item, n, schedule).Over?
    ensures CountTimeouts(schedule) > n <==>
        Decide(c, item, n, schedule) == Over(Processed(item, c.numRetries + 1, Exhausted))
    decreases |schedule|
  {
    if |schedule| > 0 {
      assert schedule[0] in schedule;
      if schedule[0].TimerReady? {
        if n > 0 {
          ExhaustedIff(c, item, n - 1, schedule[1..]);
        }
      } else {
        ExhaustedIff(c, item, n, schedule[1..]);
      }
    }
  }

  // An answer that comes before the last timeout is the end of the item, whatever else
  // was received before it.
  lemma {:induction false} AnsweredInTime(c: Config, item: Item, n: nat, before: seq<Ready>, after: seq<Ready>)
    requires n <= c.numRetries && QuitReady !in before && MessageReady(item.expected) !in before
    requires CountTimeouts(before) <= n
    ensures Decide(c, item, n, before + [MessageReady(item.expected)] + after)
         == Over(Processed(item, c.numRetries - n + 1 + CountTimeouts(before), Answered))
    decreases |before|
  {
    var schedule := before + [MessageReady(item.expected)] + after;
    if |before| > 0 {
      assert before[0] in before;
      assert schedule[1..] == before[1..] + [MessageReady(item.expected)] + after;
      AnsweredInTime(c, item, if before[0].TimerReady? then n - 1 else n, before[1..], after);
    }
  }

  // A quit that comes before the answer and the last timeout ends the item unanswered.
  lemma {:induction false} QuitAbandons(c: Config, item: Item, n: nat, before: seq<Ready>, after: seq<Ready>)
    requires n <= c.numRetries && QuitReady !in before && MessageReady(item.expected) !in before
    requires CountTimeouts(before) <= n
    ensures Decide(c, item, n, before + [QuitReady] + after)
         == Over(Processed(item, c.numRetries - n + 1 + CountTimeouts(before), Abandoned))
    decreases |before|
  {
    var schedule := before + [QuitReady] + after;
    if |before| > 0 {
      assert before[0] in before;
      assert schedule[1..] == before[1..] + [QuitReady] + after;
      QuitAbandons(c, item, if before[0].TimerReady? then n - 1 else n, before[1..], after);
    }
  }

  // ----- every schedule is a run -----

  // The queue is started, no message is waiting, and nobody stops it.
  predicate Undisturbed(s: State) {
    s.active && !s.starting && !s.stopping && !s.quit && s.messages == []
  }

  // Where the worker is after an ending.
  function WorkerAfter(item: Item, o: Ending): Worker
    requires o.Over? ==> o.life.Processed?
  {
    match o
    case Over(life) => if life.fate.Abandoned? then Exiting else AtSelect
    case StillWaiting(n) => Waiting(item, n)
  }

  // The steps of one case of the select.
  function StepsOf(n: nat, ready: Ready): seq<Step> {
    match ready
    case QuitReady => [StopCall] + [WaitQuit]
    case TimerReady => if n == 0 then [WaitTimer] else [WaitTimer] + ([Run] + [Arm])
    case MessageReady(opcode) => [Receive(opcode)] + [WaitMessage]
  }

  lemma TwoSteps(c: Config, s: State, a: Step, b: Step)
    requires Enabled(s, a) && Enabled(Apply(c, s, a), b)
    ensures CanRun(c, s, [a] + [b]) && After(c, s, [a] + [b]) == Apply(c, Apply(c, s, a), b)
    ensures Trace(c, s, [a] + [b]) == Emits(c, s, a) + Emits(c, Apply(c, s, a), b)
  {
    hide Enabled, Apply, Emits, CanRun, After, Trace;
    RunOne(c, s, a);
    RunOne(c, Apply(c, s, a), b);
    RunsJoin(c, s, [a], [b]);
  }

  // One more run, after a timeout.
  lemma RetryRun(c: Config, s: State, item: Item, n: nat)
    requires c.timed && Undisturbed(s) && s.worker == Waiting(item, n) && 0 < n <= c.numRetries
    ensures var steps := StepsOf(n, TimerReady);
      && CanRun(c, s, steps) && After(c, s, steps) == s.(worker := Waiting(item, n - 1))
      && Trace(c, s, steps) == [TimerFired] + ([Ran(item, c.numRetries - n + 2)] + [TimerMade])
  {
    hide CanRun, After, Trace;
    RunOne(c, s, WaitTimer);
    TwoSteps(c, Apply(c, s, WaitTimer), Run, Arm);
    RunsJoin(c, s, [WaitTimer], [Run] + [Arm]);
    assert Emits(c, s, WaitTimer) == [TimerFired];
    assert Emits(c, Apply(c, s, WaitTimer), Run) == [Ran(item, c.numRetries - n + 2)];
  }

  lemma WaitingLogs(c: Config, item: Item, n: nat)
    requires 0 < n <= c.numRetries && c.timed
    ensures CurrentLog(c, Waiting(item, n)) + ([TimerFired] + ([Ran(item, c.numRetries - n + 2)] + [TimerMade]))
         == CurrentLog(c, Waiting(item, n - 1))
  {
    AttemptsMore(item, c.numRetries - n + 1);
  }

  // The cases that decide, or are passed over.
  lemma LastRun(c: Config, s: State, item: Item, n: nat, ready: Ready)
    requires c.timed && Undisturbed(s) && s.worker == Waiting(item, n) && n <= c.numRetries
    requires ready.TimerReady? ==> n == 0
    ensures var steps, o := StepsOf(n, ready), Decide(c, item, n, [ready]);
      && CanRun(c, s, steps) && After(c, s, steps).items == s.items
      && After(c, s, steps).worker == WorkerAfter(item, o)
      && CurrentLog(c, Waiting(item, n)) + Trace(c, s, steps) == EndingLog(c, item, o)
      && (o.StillWaiting? ==> After(c, s, steps) == s && Trace(c, s, steps) == [])
  {
    hide CanRun, After, Trace, Attempts;
    match ready
    case QuitReady => TwoSteps(c, s, StopCall, WaitQuit);
    case TimerReady => RunOne(c, s, WaitTimer);
    case MessageReady(opcode) => TwoSteps(c, s, Receive(opcode), WaitMessage);
  }

  lemma DecideOne(c: Config, item: Item, n: nat, schedule: seq<Ready>)
    requires n <= c.numRetries && |schedule| > 0 && (schedule[0].TimerReady? ==> n == 0)
    ensures var o := Decide(c, item, n, [schedule[0]]);
      Decide(c, item, n, schedule) == if o.Over? then o else Decide(c, item, n, schedule[1..])
    ensures Decide(c, item, n, [schedule[0]]).StillWaiting? ==> Decide(c, item, n, [schedule[0]]).n == n
  {}

  lemma {:induction false} WaitIsRun(c: Config, s: State, item: Item, n: nat,
      schedule: seq<Ready>) returns (steps: seq<Step>)
    requires c.timed && Undisturbed(s) && s.worker == Waiting(item, n) && n <= c.numRetries
    ensures var o := Decide(c, item, n, schedule);
      && CanRun(c, s, steps) && After(c, s, steps).items == s.items
      && After(c, s, steps).worker == WorkerAfter(item, o)
      && CurrentLog(c, Waiting(item, n)) + Trace(c, s, steps) == EndingLog(c, item, o)
    decreases |schedule|
  {
    hide CanRun, After, Trace, Attempts, CurrentLog, EndingLog, StepsOf;
    if |schedule| == 0 {
      steps := [];
      NoSteps(c, s, item, n);
      return;
    }
    var now := StepsOf(n, schedule[0]);
    if schedule[0].TimerReady? && n > 0 {
      RetryRun(c, s, item, n);
      WaitingLogs(c, item, n);
      var later := WaitIsRun(c, After(c, s, now), item, n - 1, schedule[1..]);
      RunsJoin(c, s, now, later);
      steps := now + later;
      MessageQueue.Regroup(CurrentLog(c, Waiting(item, n)), Trace(c, s, now), Trace(c, After(c, s, now), later));
    } else {
      LastRun(c, s, item, n, schedule[0]);
      DecideOne(c, item, n, schedule);
      if Decide(c, item, n, [schedule[0]]).Over? {
        steps := now;
      } else {
        var later := WaitIsRun(c, s, item, n, schedule[1..]);
        RunsJoin(c, s, now, later);
        steps := now + later;
        assert [] + Trace(c, s, later) == Trace(c, s, later);
      }
    }
  }

  lemma NoSteps(c: Config, s: State, item: Item, n: nat)
    requires c.timed && n <= c.numRetries
    ensures CanRun(c, s, []) && After(c, s, []) == s
    ensures CurrentLog(c, Waiting(item, n)) + Trace(c, s, []) == EndingLog(c, item, StillWaiting(n))
  {
    hide Attempts;
  }

  // Whatever the schedule, a run of the queue takes the next item through it, with the
  // same trace and the same ending as the code.
  lemma ScheduleIsRun(c: Config, s: State, schedule: seq<Ready>) returns (steps: seq<Step>)
    requires Undisturbed(s) && s.worker.AtSelect? && |s.items| > 0
    ensures var o := EndingOf(c, s.items[0], schedule);
      && CanRun(c, s, steps) && After(c, s, steps).items == s.items[1..]
      && After(c, s, steps).worker == WorkerAfter(s.items[0], o)
      && Trace(c, s, steps) == EndingLog(c, s.items[0], o)
  {
    hide CanRun, After, Trace, EndingLog, CurrentLog, Decide;
    var item := s.items[0];
    steps := [PickItem] + [Run];
    TwoSteps(c, s, PickItem, Run);
    if !c.timed {
      UntimedLog(c, item);
      assert [] + ([Ran(item, 1)] + [Finished(item, Untimed)]) == [Ran(item, 1), Finished(item, Untimed)];
    } else {
      var mid := After(c, s, steps);
      RunOne(c, mid, Arm);
      RunsJoin(c, s, steps, [Arm]);
      steps := steps + [Arm];
      var later := WaitIsRun(c, After(c, s, steps), item, c.numRetries, schedule);
      RunsJoin(c, s, steps, later);
      FirstLog(c, item);
      steps := steps + later;
    }
  }

  lemma UntimedLog(c: Config, item: Item)
    ensures EndingLog(c, item, Over(Processed(item, 1, Untimed))) == [Ran(item, 1), Finished(item, Untimed)]
  {}

  lemma FirstLog(c: Config, item: Item)
    requires c.timed
    ensures CurrentLog(c, Waiting(item, c.numRetries)) == [Ran(item, 1)] + [TimerMade]
  {
    AttemptsMore(item, 0);
  }
}
