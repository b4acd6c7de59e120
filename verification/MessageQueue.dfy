/**
 The request queue of smartbus/messagequeue.go as a transition system: callers that
 enqueue, deliver messages, start and stop, and one worker whose select may take any
 ready case. Every step emits what it did, and every run is described by its trace.
 */
module MessageQueue {
  // A request: something that can be run, and the opcode that answers it.
  datatype Item = Item(name: nat, expected: bv16)

  // queueSize, numRetries, and whether there is a timer function.
  datatype Config = Config(queueSize: nat, numRetries: nat, timed: bool)

  const INBOUND_QUEUE_SIZE := 10

  // Where the worker is: not running; at the select of run; in processItem, about to run
  // the item, to make its timer, or at the select, with the retries left; about to
  // signal done.
  datatype Worker =
    | Off
    | AtSelect
    | ToRun(item: Item, n: nat)
    | ToArm(item: Item, n: nat)
    | Waiting(item: Item, n: nat)
    | Exiting

  datatype State = State(
    active: bool,
    starting: bool,         // Start holds the lock, flushing
    stopping: bool,         // Stop holds the lock, waiting for done
    quit: bool,             // the quit channel is closed
    items: seq<Item>,
    messages: seq<bv16>,
    worker: Worker)

  datatype Step =
    | Enqueue(item: Item)
    | Receive(opcode: bv16)
    | StartCall
    | FlushItem
    | FlushMessage
    | FlushDone
    | StopCall
    | StopReturn
    | PickQuit
    | PickMessage
    | PickItem
    | Run
    | Arm
    | WaitQuit
    | WaitTimer
    | WaitMessage

  datatype Fate = Answered | Exhausted | Abandoned | Untimed

  datatype Event =
    | Accepted(item: Item)
    | Rejected(item: Item)
    | Flushed(item: Item)
    | Ran(item: Item, attempt: nat)
    | TimerMade
    | TimerFired
    | TimerStopped
    | Finished(item: Item, fate: Fate)

  const INIT := State(false, false, false, false, [], [], Off)

  predicate Enabled(s: State, step: Step) {
    match step
    case Enqueue(_) => true
    case Receive(_) => |s.messages| < INBOUND_QUEUE_SIZE
    case StartCall => !s.starting && !s.stopping
    case FlushItem => s.starting && |s.items| > 0
    case FlushMessage => s.starting && |s.messages| > 0
    case FlushDone => s.starting && |s.items| == 0 && |s.messages| == 0
    case StopCall => !s.starting && !s.stopping
    case StopReturn => s.stopping && s.worker.Exiting?
    case PickQuit => s.worker.AtSelect? && s.quit
    case PickMessage => s.worker.AtSelect? && |s.messages| > 0
    case PickItem => s.worker.AtSelect? && |s.items| > 0
    case Run => s.worker.ToRun?
    case Arm => s.worker.ToArm?
    case WaitQuit => s.worker.Waiting? && s.quit
    case WaitTimer => s.worker.Waiting?
    case WaitMessage => s.worker.Waiting? && |s.messages| > 0
  }

  function Apply(c: Config, s: State, step: Step): State
    requires Enabled(s, step)
  {
    match step
    case Enqueue(item) => if |s.items| < c.queueSize then s.(items := s.items + [item]) else s
    case Receive(opcode) => s.(messages := s.messages + [opcode])
    case StartCall => if s.active then s else s.(active := true, quit := false, starting := true)
    case FlushItem => s.(items := s.items[1..])
    case FlushMessage => s.(messages := s.messages[1..])
    case FlushDone => s.(starting := false, worker := AtSelect)
    case StopCall => if s.active then s.(active := false, quit := true, stopping := true) else s
    case StopReturn => s.(stopping := false, worker := Off)
    case PickQuit => s.(worker := Exiting)
    case PickMessage => s.(messages := s.messages[1..])
    case PickItem => s.(items := s.items[1..], worker := ToRun(s.items[0], c.numRetries))
    case Run => s.(worker := if c.timed then ToArm(s.worker.item, s.worker.n) else AtSelect)
    case Arm => s.(worker := Waiting(s.worker.item, s.worker.n))
    case WaitQuit => s.(worker := Exiting)
    case WaitTimer => s.(worker := if s.worker.n == 0 then AtSelect else ToRun(s.worker.item, s.worker.n - 1))
    case WaitMessage =>
      s.(messages := s.messages[1..],
         worker := if s.messages[0] == s.worker.item.expected then AtSelect else s.worker)
  }

  // What a step adds to the trace.
  function Emits(c: Config, s: State, step: Step): seq<Event>
    requires Enabled(s, step)
  {
    match step
    case Enqueue(item) => [if |s.items| < c.queueSize then Accepted(item) else Rejected(item)]
    case FlushItem => [Flushed(s.items[0])]
    case Run =>
      var attempt := if s.worker.n <= c.numRetries then c.numRetries - s.worker.n + 1 else 0;
      [Ran(s.worker.item, attempt)] + if c.timed then [] else [Finished(s.worker.item, Untimed)]
    case Arm => [TimerMade]
    case WaitQuit => [TimerStopped, Finished(s.worker.item, Abandoned)]
    case WaitTimer => [TimerFired] + if s.worker.n == 0 then [Finished(s.worker.item, Exhausted)] else []
    case WaitMessage =>
      if s.messages[0] == s.worker.item.expected then [TimerStopped, Finished(s.worker.item, Answered)] else []
    case _ => []
  }

  // A run: steps, each enabled where it is taken.
  predicate CanRun(c: Config, s: State, steps: seq<Step>)
    decreases |steps|, 0
  {
    |steps| == 0 ||
    (CanRun(c, s, steps[..|steps| - 1]) && Enabled(After(c, s, steps[..|steps| - 1]), steps[|steps| - 1]))
  }

  function After(c: Config, s: State, steps: seq<Step>): State
    requires CanRun(c, s, steps)
    decreases |steps|, 1
  {
    if |steps| == 0 then s
    else Apply(c, After(c, s, steps[..|steps| - 1]), steps[|steps| - 1])
  }

  function Trace(c: Config, s: State, steps: seq<Step>): seq<Event>
    requires CanRun(c, s, steps)
    decreases |steps|
  {
    if |steps| == 0 then []
    else
      var before := steps[..|steps| - 1];
      Trace(c, s, before) + Emits(c, After(c, s, before), steps[|steps| - 1])
  }

  lemma RunOne(c: Config, s: State, step: Step)
    requires Enabled(s, step)
    ensures CanRun(c, s, [step]) && After(c, s, [step]) == Apply(c, s, step) && Trace(c, s, [step]) == Emits(c, s, step)
  {
    hide Enabled, Apply, Emits;
    assert [step][..0] == [];
    assert [] + Emits(c, s, step) == Emits(c, s, step);
  }

  // A run, and a run from where it ends.
  lemma {:induction false} RunsJoin(c: Config, s: State, a: seq<Step>, b: seq<Step>)
    requires CanRun(c, s, a) && CanRun(c, After(c, s, a), b)
    ensures CanRun(c, s, a + b) && After(c, s, a + b) == After(c, After(c, s, a), b)
    ensures Trace(c, s, a + b) == Trace(c, s, a) + Trace(c, After(c, s, a), b)
    decreases |b|
  {
    hide Enabled, Apply, Emits;
    if |b| == 0 {
      assert a + b == a;
    } else {
      var n := |b| - 1;
      assert (a + b)[..|a| + n] == a + b[..n] && (a + b)[|a| + n] == b[n];
      RunsJoin(c, s, a, b[..n]);
    }
  }

  // ----- what a trace says -----

  function AcceptedBy(e: Event): seq<Item> { if e.Accepted? then [e.item] else [] }

  function AcceptedItems(t: seq<Event>): seq<Item> {
    if |t| == 0 then [] else AcceptedItems(t[..|t| - 1]) + AcceptedBy(t[|t| - 1])
  }

  // The items in the order of their first runs.
  function FirstRunOf(e: Event): seq<Item> { if e.Ran? && e.attempt == 1 then [e.item] else [] }

  function FirstRuns(t: seq<Event>): seq<Item> {
    if |t| == 0 then [] else FirstRuns(t[..|t| - 1]) + FirstRunOf(t[|t| - 1])
  }

  // What was done with the accepted items, by the worker or by a flush.
  function LoggedBy(e: Event): seq<Event> { if e.Accepted? || e.Rejected? then [] else [e] }

  function WorkerLog(t: seq<Event>): seq<Event> {
    if |t| == 0 then [] else WorkerLog(t[..|t| - 1]) + LoggedBy(t[|t| - 1])
  }

  // The whole life of an accepted item: dropped by a flush, or processed.
  datatype Life = Dropped(item: Item) | Processed(item: Item, runs: nat, fate: Fate)

  // Run, wait; after a timeout run again; for the given number of runs.
  function Attempts(item: Item, runs: nat): seq<Event> {
    if runs == 0 then []
    else (if runs == 1 then [] else Attempts(item, runs - 1) + [TimerFired]) + [Ran(item, runs), TimerMade]
  }

  // An item with a timer runs between 1 and numRetries + 1 times, and exactly that often
  // when it is exhausted.
  predicate ValidLife(c: Config, life: Life) {
    life.Processed? ==>
      match life.fate
      case Untimed => !c.timed && life.runs == 1
      case Exhausted => c.timed && life.runs == c.numRetries + 1
      case _ => c.timed && 1 <= life.runs <= c.numRetries + 1
  }

  // What is done over such a life: a flush, or by the worker as many timers as runs, each fired or stopped
  // before the next is made.
  function LifeLog(life: Life): seq<Event> {
    if life.Dropped? then [Flushed(life.item)]
    else
      match life.fate
      case Untimed => [Ran(life.item, 1), Finished(life.item, Untimed)]
      case Exhausted => Attempts(life.item, life.runs) + [TimerFired, Finished(life.item, Exhausted)]
      case fate => Attempts(life.item, life.runs) + [TimerStopped, Finished(life.item, fate)]
  }

  predicate ValidLives(c: Config, lives: seq<Life>) {
    forall i :: 0 <= i < |lives| ==> ValidLife(c, lives[i])
  }

  function LivesLog(c: Config, lives: seq<Life>): seq<Event>
    requires ValidLives(c, lives)
  {
    if |lives| == 0 then [] else LivesLog(c, lives[..|lives| - 1]) + LifeLog(lives[|lives| - 1])
  }

  function LivesItems(lives: seq<Life>): seq<Item> {
    seq(|lives|, i requires 0 <= i < |lives| => lives[i].item)
  }

  // The item in hand, and what the worker has done with it so far.
  function Current(w: Worker): seq<Item> {
    if w.ToRun? || w.ToArm? || w.Waiting? then [w.item] else []
  }

  predicate WorkerOk(c: Config, w: Worker) {
    && (Current(w) != [] ==> w.n <= c.numRetries)
    && (w.ToArm? || w.Waiting? ==> c.timed)
    && (w.ToRun? && !c.timed ==> w.n == c.numRetries)
  }

  function CurrentLog(c: Config, w: Worker): seq<Event>
    requires WorkerOk(c, w)
  {
    match w
    case ToRun(item, n) => if n == c.numRetries then [] else Attempts(item, c.numRetries - n) + [TimerFired]
    case ToArm(item, n) =>
      var runs := c.numRetries - n + 1;
      (if runs == 1 then [] else Attempts(item, runs - 1) + [TimerFired]) + [Ran(item, runs)]
    case Waiting(item, n) => Attempts(item, c.numRetries - n + 1)
    case _ => []
  }

  // ----- the invariant -----

  // Start and Stop exclude each other, and the worker runs exactly from the end of Start
  // to the end of Stop.
  predicate Protocol(s: State) {
    && !(s.starting && s.stopping)
    && (s.worker.Off? <==> s.starting || (!s.active && !s.stopping))
    && (s.starting ==> s.active)
    && (s.stopping ==> !s.active && s.quit)
    && (s.active ==> !s.quit)
    && (s.worker.Exiting? ==> s.quit)
  }

  ghost predicate Inv(c: Config, s: State, t: seq<Event>, lives: seq<Life>) {
    && |s.items| <= c.queueSize && |s.messages| <= INBOUND_QUEUE_SIZE
    && Protocol(s)
    && WorkerOk(c, s.worker)
    && ValidLives(c, lives)
    && AcceptedItems(t) == LivesItems(lives) + Current(s.worker) + s.items
    && WorkerLog(t) == LivesLog(c, lives) + CurrentLog(c, s.worker)
  }

  lemma Regroup<T>(a: seq<T>, b: seq<T>, c: seq<T>)
    ensures a + b + c == a + (b + c)
  {}

  lemma {:induction false} AcceptedParts(t: seq<Event>, u: seq<Event>)
    ensures AcceptedItems(t + u) == AcceptedItems(t) + AcceptedItems(u)
    decreases |u|
  {
    hide AcceptedBy;
    if |u| == 0 {
      assert t + u == t;
    } else {
      var n := |u| - 1;
      assert (t + u)[..|t| + n] == t + u[..n] && (t + u)[|t| + n] == u[n];
      AcceptedParts(t, u[..n]);
      Regroup(AcceptedItems(t), AcceptedItems(u[..n]), AcceptedBy(u[n]));
    }
  }

  lemma {:induction false} LogParts(t: seq<Event>, u: seq<Event>)
    ensures WorkerLog(t + u) == WorkerLog(t) + WorkerLog(u)
    decreases |u|
  {
    hide LoggedBy;
    if |u| == 0 {
      assert t + u == t;
    } else {
      var n := |u| - 1;
      assert (t + u)[..|t| + n] == t + u[..n] && (t + u)[|t| + n] == u[n];
      LogParts(t, u[..n]);
      Regroup(WorkerLog(t), WorkerLog(u[..n]), LoggedBy(u[n]));
    }
  }

  lemma {:induction false} FirstRunParts(t: seq<Event>, u: seq<Event>)
    ensures FirstRuns(t + u) == FirstRuns(t) + FirstRuns(u)
    decreases |u|
  {
    hide FirstRunOf;
    if |u| == 0 {
      assert t + u == t;
    } else {
      var n := |u| - 1;
      assert (t + u)[..|t| + n] == t + u[..n] && (t + u)[|t| + n] == u[n];
      FirstRunParts(t, u[..n]);
      Regroup(FirstRuns(t), FirstRuns(u[..n]), FirstRunOf(u[n]));
    }
  }

  lemma NoParts()
    ensures AcceptedItems([]) == [] && WorkerLog([]) == [] && FirstRuns([]) == []
  {}

  lemma EventParts(e: Event)
    ensures AcceptedItems([e]) == AcceptedBy(e) && WorkerLog([e]) == LoggedBy(e) && FirstRuns([e]) == FirstRunOf(e)
  {
    hide AcceptedBy, FirstRunOf, LoggedBy;
    var t := [e];
    assert t[..|t| - 1] == [] && t[|t| - 1] == e;
    NoParts();
  }

  lemma EmitsParts(c: Config, s: State, step: Step)
    requires Enabled(s, step)
    ensures var u := Emits(c, s, step);
      && AcceptedItems(u) == (if step.Enqueue? && |s.items| < c.queueSize then [step.item] else [])
      && WorkerLog(u) == if step.Enqueue? then [] else u
  {
    hide AcceptedItems, WorkerLog;
    NoParts();
    var u := Emits(c, s, step);
    if |u| == 1 {
      assert u == [u[0]];
      EventParts(u[0]);
    } else if |u| == 2 {
      assert u == [u[0]] + [u[1]];
      AcceptedParts([u[0]], [u[1]]);
      LogParts([u[0]], [u[1]]);
      EventParts(u[0]);
      EventParts(u[1]);
    }
  }

  lemma LivesAppend(c: Config, lives: seq<Life>, life: Life)
    requires ValidLives(c, lives) && ValidLife(c, life)
    ensures ValidLives(c, lives + [life])
    ensures LivesLog(c, lives + [life]) == LivesLog(c, lives) + LifeLog(life)
    ensures LivesItems(lives + [life]) == LivesItems(lives) + [life.item]
  {
    hide ValidLife, LifeLog;
    assert (lives + [life])[..|lives|] == lives;
  }

  // The life a step completes.
  function Completes(c: Config, s: State, step: Step): seq<Life>
    requires Enabled(s, step)
  {
    match step
    case FlushItem => [Dropped(s.items[0])]
    case Run => if c.timed then [] else [Processed(s.worker.item, 1, Untimed)]
    case WaitQuit => [Processed(s.worker.item, Runs(c, s.worker.n), Abandoned)]
    case WaitTimer => if s.worker.n == 0 then [Processed(s.worker.item, Runs(c, s.worker.n), Exhausted)] else []
    case WaitMessage =>
      if s.messages[0] == s.worker.item.expected then [Processed(s.worker.item, Runs(c, s.worker.n), Answered)] else []
    case _ => []
  }

  function Runs(c: Config, n: nat): nat { if n <= c.numRetries then c.numRetries - n + 1 else 0 }

  // What is logged in a step, other than what happens to a new item.
  function WorkerEmits(c: Config, s: State, step: Step): seq<Event>
    requires Enabled(s, step)
  {
    if step.Enqueue? then [] else Emits(c, s, step)
  }

  function DoneLog(done: seq<Life>): seq<Event> {
    if |done| == 1 then LifeLog(done[0]) else []
  }

  lemma LogRun(c: Config, s: State)
    requires WorkerOk(c, s.worker) && s.worker.ToRun?
    ensures var s', done := Apply(c, s, Run), Completes(c, s, Run);
      && WorkerOk(c, s'.worker) && (|done| == 1 ==> ValidLife(c, done[0]))
      && CurrentLog(c, s.worker) + WorkerEmits(c, s, Run) == DoneLog(done) + CurrentLog(c, s'.worker)
  {
    if !c.timed {
      assert [] + WorkerEmits(c, s, Run) == WorkerEmits(c, s, Run) + [];
    }
  }

  ghost predicate LogGoesOn(c: Config, s: State, step: Step)
    requires WorkerOk(c, s.worker) && Enabled(s, step)
  {
    var s', done := Apply(c, s, step), Completes(c, s, step);
    && WorkerOk(c, s'.worker) && (|done| == 1 ==> ValidLife(c, done[0]))
    && CurrentLog(c, s.worker) + WorkerEmits(c, s, step) == DoneLog(done) + CurrentLog(c, s'.worker)
  }

  lemma LogQuit(c: Config, s: State)
    requires WorkerOk(c, s.worker) && Enabled(s, WaitQuit)
    ensures LogGoesOn(c, s, WaitQuit)
  {
    hide Attempts;
  }

  lemma LogTimer(c: Config, s: State)
    requires WorkerOk(c, s.worker) && Enabled(s, WaitTimer)
    ensures LogGoesOn(c, s, WaitTimer)
  {
    hide Attempts;
  }

  lemma LogMessage(c: Config, s: State)
    requires WorkerOk(c, s.worker) && Enabled(s, WaitMessage)
    ensures LogGoesOn(c, s, WaitMessage)
  {
    hide Attempts;
    assert CurrentLog(c, s.worker) + [] == [] + CurrentLog(c, s.worker);
  }

  // Each step takes the log of the item in hand further, or closes it as a life.
  lemma LogStep(c: Config, s: State, step: Step)
    requires WorkerOk(c, s.worker) && Protocol(s) && Enabled(s, step)
    ensures var s', done := Apply(c, s, step), Completes(c, s, step);
      && WorkerOk(c, s'.worker) && (|done| == 1 ==> ValidLife(c, done[0]))
      && CurrentLog(c, s.worker) + WorkerEmits(c, s, step) == DoneLog(done) + CurrentLog(c, s'.worker)
  {
    hide Attempts;
    if step.Run? {
      LogRun(c, s);
    } else if step.WaitQuit? {
      LogQuit(c, s);
    } else if step.WaitTimer? {
      LogTimer(c, s);
    } else if step.WaitMessage? {
      LogMessage(c, s);
    } else {
      assert CurrentLog(c, s.worker) + [] == [] + CurrentLog(c, s.worker);
      assert step.Arm? ==> CurrentLog(c, s.worker) + [TimerMade] == [] + CurrentLog(c, Apply(c, s, step).worker) by {
        if step.Arm? { LogArm(c, s); }
      }
    }
  }

  lemma LogArm(c: Config, s: State)
    requires WorkerOk(c, s.worker) && s.worker.ToArm?
    ensures CurrentLog(c, s.worker) + [TimerMade] == CurrentLog(c, Apply(c, s, Arm).worker)
  {}

  lemma ItemsStep(c: Config, s: State, step: Step)
    requires Protocol(s) && Enabled(s, step)
    ensures var s', done := Apply(c, s, step), Completes(c, s, step);
      Current(s.worker) + s.items + (if step.Enqueue? && |s.items| < c.queueSize then [step.item] else [])
      == LivesItems(done) + Current(s'.worker) + s'.items
  {
    hide LivesItems;
    var done := Completes(c, s, step);
    OneCompletes(c, s, step);
    ItemsOfOne(done);
    if step.FlushItem? || step.PickItem? {
      assert s.items == [s.items[0]] + s.items[1..];
    } else if !step.Enqueue? {
      ItemsOfWork(c, s, step);
    }
  }

  lemma ItemsOfOne(done: seq<Life>)
    requires |done| <= 1
    ensures LivesItems(done) == if |done| == 1 then [done[0].item] else []
  {}

  // The steps that leave the waiting items alone either keep the item in hand or end it.
  lemma ItemsOfWork(c: Config, s: State, step: Step)
    requires Protocol(s) && Enabled(s, step) && !step.FlushItem? && !step.PickItem? && !step.Enqueue?
    ensures var s', done := Apply(c, s, step), Completes(c, s, step);
      s'.items == s.items && |done| <= 1 &&
      Current(s.worker) == (if |done| == 1 then [done[0].item] else []) + Current(s'.worker)
  {}

  lemma ProtocolStep(c: Config, s: State, step: Step)
    requires Protocol(s) && Enabled(s, step) && |s.items| <= c.queueSize && |s.messages| <= INBOUND_QUEUE_SIZE
    ensures var s' := Apply(c, s, step);
      Protocol(s') && |s'.items| <= c.queueSize && |s'.messages| <= INBOUND_QUEUE_SIZE
  {}

  lemma LivesGrow(c: Config, lives: seq<Life>, done: seq<Life>)
    requires ValidLives(c, lives) && |done| <= 1 && (|done| == 1 ==> ValidLife(c, done[0]))
    ensures ValidLives(c, lives + done)
    ensures LivesLog(c, lives + done) == LivesLog(c, lives) + DoneLog(done)
    ensures LivesItems(lives + done) == LivesItems(lives) + LivesItems(done)
  {
    hide ValidLife, LifeLog;
    if |done| == 1 {
      assert done == [done[0]];
      LivesAppend(c, lives, done[0]);
      assert LivesItems(done) == [done[0].item];
    } else {
      assert lives + done == lives && LivesItems(done) == [];
    }
  }

  lemma InvStep(c: Config, s: State, t: seq<Event>, lives: seq<Life>, step: Step)
    requires Inv(c, s, t, lives) && Enabled(s, step)
    ensures Inv(c, Apply(c, s, step), t + Emits(c, s, step), lives + Completes(c, s, step))
  {
    hide Apply, Emits, Completes, AcceptedItems, WorkerLog, LivesLog, LivesItems;
    hide CurrentLog, Current, WorkerOk, DoneLog, Protocol, ValidLives, ValidLife;
    var s', u, done := Apply(c, s, step), Emits(c, s, step), Completes(c, s, step);
    AcceptedParts(t, u);
    LogParts(t, u);
    EmitsParts(c, s, step);
    LogStep(c, s, step);
    ItemsStep(c, s, step);
    ProtocolStep(c, s, step);
    OneCompletes(c, s, step);
    LivesGrow(c, lives, done);
    var w := WorkerEmits(c, s, step);
    assert LivesLog(c, lives) + CurrentLog(c, s.worker) + w == LivesLog(c, lives) + (CurrentLog(c, s.worker) + w);
    assert LivesLog(c, lives) + DoneLog(done) + CurrentLog(c, s'.worker) ==
        LivesLog(c, lives) + (DoneLog(done) + CurrentLog(c, s'.worker));
    var a := AcceptedItems(u);
    assert LivesItems(lives) + Current(s.worker) + s.items + a == LivesItems(lives) + (Current(s.worker) + s.items + a);
    assert LivesItems(lives) + LivesItems(done) + Current(s'.worker) + s'.items
        == LivesItems(lives) + (LivesItems(done) + Current(s'.worker) + s'.items);
  }

  lemma OneCompletes(c: Config, s: State, step: Step)
    requires Enabled(s, step)
    ensures |Completes(c, s, step)| <= 1
  {}

  // No Start of the run finds the queue inactive: those that do nothing are allowed.
  predicate NoRestart(c: Config, s: State, steps: seq<Step>)
    requires CanRun(c, s, steps)
    decreases |steps|
  {
    |steps| == 0 ||
    (var before := steps[..|steps| - 1];
     NoRestart(c, s, before) && (steps[|steps| - 1].StartCall? ==> After(c, s, before).active))
  }

  lemma {:induction false} StartingNeedsStart(c: Config, s: State, steps: seq<Step>)
    requires CanRun(c, s, steps) && !s.starting && NoRestart(c, s, steps)
    ensures !After(c, s, steps).starting
    decreases |steps|
  {
    if |steps| > 0 {
      StartingNeedsStart(c, s, steps[..|steps| - 1]);
    }
  }

  lemma DropsWhileStarting(c: Config, s: State, step: Step)
    requires Enabled(s, step) && !s.starting
    ensures forall i :: 0 <= i < |Completes(c, s, step)| ==> !Completes(c, s, step)[i].Dropped?
  {}

  // When Start is done, nothing is left over from before.
  lemma StartIsClean(c: Config, s: State, steps: seq<Step>)
    requires CanRun(c, s, steps) && |steps| > 0 && steps[|steps| - 1].FlushDone?
    ensures var s' := After(c, s, steps);
      s'.items == [] && s'.messages == [] && s'.worker == AtSelect && !s'.starting
  {}

  // Once Stop has returned, the worker does nothing until the next Start that does.
  lemma {:induction false} StoppedIsQuiet(c: Config, s: State, steps: seq<Step>)
    requires CanRun(c, s, steps) && Protocol(s) && !s.active && !s.stopping
    requires StartCall !in steps && |s.items| <= c.queueSize && |s.messages| <= INBOUND_QUEUE_SIZE
    ensures var s' := After(c, s, steps);
      !s'.active && !s'.stopping && s'.worker.Off?
    ensures forall i :: 0 <= i < |steps| ==> steps[i].Enqueue? || steps[i].Receive? || steps[i].StopCall?
    decreases |steps|
  {
    if |steps| > 0 {
      var n := |steps| - 1;
      StoppedIsQuiet(c, s, steps[..n]);
      ProtocolKept(c, s, steps[..n]);
      assert forall i :: 0 <= i < n ==> steps[i] == steps[..n][i];
      assert steps[n] in steps;
    }
  }

  // Every run from a state with nothing accepted or in hand: the accepted items are, in
  // order, those whose lives are over, the one in hand, and those still waiting; and the
  // log of what was done is the logs of those lives, one after another, flushes included,
  // and what the worker has done with the item in hand.
  lemma {:induction false} QueueHistory(c: Config, s: State, steps: seq<Step>) returns (lives: seq<Life>)
    requires CanRun(c, s, steps)
    requires Protocol(s) && Current(s.worker) == [] && s.items == [] && |s.messages| <= INBOUND_QUEUE_SIZE
    ensures Inv(c, After(c, s, steps), Trace(c, s, steps), lives)
    ensures !s.starting && NoRestart(c, s, steps) ==> forall i :: 0 <= i < |lives| ==> lives[i].Processed?
    decreases |steps|
  {
    hide Apply, Emits, Completes, Protocol;
    if |steps| == 0 {
      lives := [];
    } else {
      var n := |steps| - 1;
      lives := QueueHistory(c, s, steps[..n]);
      if !s.starting && NoRestart(c, s, steps) {
        StartingNeedsStart(c, s, steps[..n]);
        DropsWhileStarting(c, After(c, s, steps[..n]), steps[n]);
      }
      InvStep(c, After(c, s, steps[..n]), Trace(c, s, steps[..n]), lives, steps[n]);
      lives := lives + Completes(c, After(c, s, steps[..n]), steps[n]);
    }
  }

  // ----- first runs are in the order of acceptance -----

  lemma {:induction false} FirstRunsOfLog(t: seq<Event>)
    ensures FirstRuns(WorkerLog(t)) == FirstRuns(t)
  {
    if |t| == 0 {
      NoParts();
    } else {
      var before, e := t[..|t| - 1], t[|t| - 1];
      FirstRunsOfLog(before);
      var u := LoggedBy(e);
      FirstRunParts(WorkerLog(before), u);
      NoParts();
      EventParts(e);
      assert WorkerLog(t) == WorkerLog(before) + u;
    }
  }

  lemma FirstRunsOfPair(d: Event, e: Event)
    ensures FirstRuns([d, e]) == FirstRuns([d]) + FirstRuns([e])
  {
    hide FirstRuns;
    FirstRunParts([d], [e]);
    assert [d, e] == [d] + [e];
  }

  lemma {:induction false} FirstRunsOfAttempts(item: Item, runs: nat)
    requires runs > 0
    ensures FirstRuns(Attempts(item, runs)) == [item]
  {
    hide FirstRuns;
    var last := [Ran(item, runs), TimerMade];
    FirstRunsOfPair(Ran(item, runs), TimerMade);
    EventParts(Ran(item, runs));
    EventParts(TimerMade);
    if runs == 1 {
      assert [] + last == last;
    } else {
      FirstRunsOfAttempts(item, runs - 1);
      EventParts(TimerFired);
      FirstRunParts(Attempts(item, runs - 1), [TimerFired]);
      FirstRunParts(Attempts(item, runs - 1) + [TimerFired], last);
    }
  }

  lemma FirstRunsOfLife(c: Config, life: Life)
    requires ValidLife(c, life) && life.Processed?
    ensures FirstRuns(LifeLog(life)) == [life.item]
  {
    hide Attempts, FirstRuns;
    var ending := if life.fate.Exhausted? then TimerFired else TimerStopped;
    EventParts(ending);
    EventParts(Ran(life.item, 1));
    EventParts(Finished(life.item, life.fate));
    FirstRunsOfPair(ending, Finished(life.item, life.fate));
    FirstRunsOfPair(Ran(life.item, 1), Finished(life.item, Untimed));
    FirstRunsOfAttempts(life.item, life.runs);
    FirstRunParts(Attempts(life.item, life.runs), [ending, Finished(life.item, life.fate)]);
  }

  lemma {:induction false} FirstRunsOfLives(c: Config, lives: seq<Life>)
    requires ValidLives(c, lives) && forall i :: 0 <= i < |lives| ==> lives[i].Processed?
    ensures FirstRuns(LivesLog(c, lives)) == LivesItems(lives)
  {
    hide ValidLife, LifeLog, FirstRuns;
    if |lives| == 0 {
      NoParts();
    } else {
      var n := |lives| - 1;
      FirstRunsOfLives(c, lives[..n]);
      FirstRunParts(LivesLog(c, lives[..n]), LifeLog(lives[n]));
      FirstRunsOfLife(c, lives[n]);
      assert LivesItems(lives) == LivesItems(lives[..n]) + [lives[n].item];
    }
  }

  lemma FirstRunsOfRetry(item: Item, runs: nat)
    requires runs > 0
    ensures FirstRuns(Attempts(item, runs) + [TimerFired]) == [item]
    ensures FirstRuns(Attempts(item, runs) + [TimerFired] + [Ran(item, runs + 1)]) == [item]
  {
    hide Attempts, FirstRuns;
    FirstRunsOfAttempts(item, runs);
    FirstRunParts(Attempts(item, runs), [TimerFired]);
    FirstRunParts(Attempts(item, runs) + [TimerFired], [Ran(item, runs + 1)]);
    EventParts(TimerFired);
    EventParts(Ran(item, runs + 1));
  }

  lemma FirstRunsOfCurrent(c: Config, w: Worker)
    requires WorkerOk(c, w)
    ensures FirstRuns(CurrentLog(c, w)) <= Current(w)
  {
    hide Attempts, FirstRuns;
    NoParts();
    match w
    case ToRun(item, n) =>
      if n < c.numRetries { FirstRunsOfRetry(item, c.numRetries - n); }
    case ToArm(item, n) =>
      if n < c.numRetries {
        FirstRunsOfRetry(item, c.numRetries - n);
      } else {
        EventParts(Ran(item, 1));
        assert [] + [Ran(item, 1)] == [Ran(item, 1)];
      }
    case Waiting(item, n) => FirstRunsOfAttempts(item, c.numRetries - n + 1);
    case _ =>
  }

  // Between the flush of one Start and the next that does anything, the first runs are a prefix of
  // the accepted items: nothing is skipped, reordered or run before its turn.
  lemma FirstRunsInOrder(c: Config, s: State, steps: seq<Step>)
    requires CanRun(c, s, steps) && Protocol(s) && s.worker == AtSelect && s.items == []
    requires |s.messages| <= INBOUND_QUEUE_SIZE && NoRestart(c, s, steps)
    ensures FirstRuns(Trace(c, s, steps)) <= AcceptedItems(Trace(c, s, steps))
  {
    hide LivesLog, CurrentLog, AcceptedItems, FirstRuns, WorkerLog, Trace, After, CanRun;
    var lives := QueueHistory(c, s, steps);
    var t, w := Trace(c, s, steps), After(c, s, steps).worker;
    FirstRunsOfLog(t);
    FirstRunParts(LivesLog(c, lives), CurrentLog(c, w));
    FirstRunsOfLives(c, lives);
    FirstRunsOfCurrent(c, w);
  }

  // ----- timers -----

  // Timers made and not yet ended.
  function LiveTimers(t: seq<Event>): int {
    if |t| == 0 then 0
    else
      var e := t[|t| - 1];
      LiveTimers(t[..|t| - 1]) + if e.TimerMade? then 1 else if e.TimerFired? || e.TimerStopped? then -1 else 0
  }

  // Runs without a timer made after them.
  function UnarmedRuns(t: seq<Event>): int {
    if |t| == 0 then 0
    else
      var e := t[|t| - 1];
      UnarmedRuns(t[..|t| - 1]) + if e.Ran? then 1 else if e.TimerMade? then -1 else 0
  }

  lemma {:induction false} TimerParts(t: seq<Event>, u: seq<Event>)
    ensures LiveTimers(t + u) == LiveTimers(t) + LiveTimers(u)
    ensures UnarmedRuns(t + u) == UnarmedRuns(t) + UnarmedRuns(u)
    decreases |u|
  {
    if |u| == 0 {
      assert t + u == t;
    } else {
      var n := |u| - 1;
      assert (t + u)[..|t| + n] == t + u[..n];
      TimerParts(t, u[..n]);
    }
  }

  lemma TimersOfOne(e: Event)
    ensures LiveTimers([e]) == if e.TimerMade? then 1 else if e.TimerFired? || e.TimerStopped? then -1 else 0
    ensures UnarmedRuns([e]) == if e.Ran? then 1 else if e.TimerMade? then -1 else 0
  {
    var t := [e];
    assert t[..|t| - 1] == [] && t[|t| - 1] == e;
  }

  lemma TimersOfEmits(c: Config, s: State, step: Step)
    requires Enabled(s, step) && c.timed && Protocol(s)
    ensures var u, w, w' := Emits(c, s, step), s.worker, Apply(c, s, step).worker;
      && LiveTimers(u) == (if w'.Waiting? then 1 else 0) - (if w.Waiting? then 1 else 0)
      && UnarmedRuns(u) == (if w'.ToArm? then 1 else 0) - (if w.ToArm? then 1 else 0)
  {
    var u := Emits(c, s, step);
    assert LiveTimers([]) == 0 == UnarmedRuns([]);
    if |u| == 1 {
      assert u == [u[0]];
      TimersOfOne(u[0]);
    } else if |u| == 2 {
      assert u == [u[0]] + [u[1]];
      TimerParts([u[0]], [u[1]]);
      TimersOfOne(u[0]);
      TimersOfOne(u[1]);
    }
  }

  lemma {:induction false} ProtocolKept(c: Config, s: State, steps: seq<Step>)
    requires CanRun(c, s, steps) && Protocol(s) && |s.items| <= c.queueSize && |s.messages| <= INBOUND_QUEUE_SIZE
    ensures var s' := After(c, s, steps);
      Protocol(s') && |s'.items| <= c.queueSize && |s'.messages| <= INBOUND_QUEUE_SIZE
    decreases |steps|
  {
    hide Protocol, Apply;
    if |steps| > 0 {
      var n := |steps| - 1;
      ProtocolKept(c, s, steps[..n]);
      ProtocolStep(c, After(c, s, steps[..n]), steps[n]);
    }
  }

  // At every moment of every run with timers, a timer is live exactly while the worker
  // waits, and then it is the only one; and every run but the one just made has had its
  // timer.
  lemma {:induction false} TimersBalance(c: Config, s: State, steps: seq<Step>)
    requires CanRun(c, s, steps) && c.timed && Protocol(s) && Current(s.worker) == []
    requires |s.items| <= c.queueSize && |s.messages| <= INBOUND_QUEUE_SIZE
    ensures LiveTimers(Trace(c, s, steps)) == if After(c, s, steps).worker.Waiting? then 1 else 0
    ensures UnarmedRuns(Trace(c, s, steps)) == if After(c, s, steps).worker.ToArm? then 1 else 0
    decreases |steps|
  {
    hide Protocol, Apply, Emits;
    if |steps| > 0 {
      var n := |steps| - 1;
      TimersBalance(c, s, steps[..n]);
      ProtocolKept(c, s, steps[..n]);
      TimersOfEmits(c, After(c, s, steps[..n]), steps[n]);
      TimerParts(Trace(c, s, steps[..n]), Emits(c, After(c, s, steps[..n]), steps[n]));
    }
  }

  // ----- the worker is done with an item in bounded time -----

  // Steps left to the worker before the item in hand is over, if no message comes.
  function Patience(s: State): nat {
    match s.worker
    case ToRun(_, n) => 3 * n + 3 + |s.messages|
    case ToArm(_, n) => 3 * n + 2 + |s.messages|
    case Waiting(_, n) => 3 * n + 1 + |s.messages|
    case _ => 0
  }

  predicate OfWorker(step: Step) {
    step.Run? || step.Arm? || step.WaitQuit? || step.WaitTimer? || step.WaitMessage?
  }

  function CountWorker(steps: seq<Step>): nat {
    if |steps| == 0 then 0 else CountWorker(steps[..|steps| - 1]) + if OfWorker(steps[|steps| - 1]) then 1 else 0
  }

  function CountReceived(steps: seq<Step>): nat {
    if |steps| == 0 then 0 else CountReceived(steps[..|steps| - 1]) + if steps[|steps| - 1].Receive? then 1 else 0
  }

  // The item in hand has not been finished at any point of the run.
  predicate SameItem(c: Config, s: State, steps: seq<Step>)
    requires CanRun(c, s, steps)
    decreases |steps|
  {
    Current(After(c, s, steps).worker) != [] && (|steps| == 0 || SameItem(c, s, steps[..|steps| - 1]))
  }

  lemma PatienceStep(c: Config, s: State, step: Step)
    requires Protocol(s) && Enabled(s, step) && Current(s.worker) != [] && Current(Apply(c, s, step).worker) != []
    ensures Patience(Apply(c, s, step)) + (if OfWorker(step) then 1
        else 0) <= Patience(s) + (if step.Receive? then 1 else 0)
  {}

  // While an item is in hand the worker takes at most three steps for each run that is
  // left, and one for each message that was there or has come since.
  lemma {:induction false} WorkIsBounded(c: Config, s: State, steps: seq<Step>)
    requires CanRun(c, s, steps) && SameItem(c, s, steps)
    requires Protocol(s) && |s.items| <= c.queueSize && |s.messages| <= INBOUND_QUEUE_SIZE
    ensures Patience(After(c, s, steps)) + CountWorker(steps) <= Patience(s) + CountReceived(steps)
    decreases |steps|
  {
    hide Protocol, Apply, Patience, OfWorker;
    if |steps| > 0 {
      var n := |steps| - 1;
      WorkIsBounded(c, s, steps[..n]);
      ProtocolKept(c, s, steps[..n]);
      SameBefore(c, s, steps);
      PatienceStep(c, After(c, s, steps[..n]), steps[n]);
    }
  }

  lemma SameBefore(c: Config, s: State, steps: seq<Step>)
    requires CanRun(c, s, steps) && SameItem(c, s, steps) && |steps| > 0
    ensures Current(After(c, s, steps[..|steps| - 1]).worker) != []
  {}
}
