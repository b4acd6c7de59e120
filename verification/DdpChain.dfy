/**
 The discovery of a panel's sixteen buttons: the DDP model, the request queue and the
 panel at the other end of the bus, step by step and in every interleaving.

 Each run of a query is either lost or answered once before its timeout, and a query is
 lost at most numRetries times. Then every run ends, and where it ends all buttons have
 been received, their controls were created in order, and the queue is idle.
 */
module DdpChain {
  import opened Observer
  import opened Ddp
  import MessageFormat
  import Q = MessageQueue

  const RESPONSE: bv16 := 0xe001 // QueryPanelButtonAssignmentResponse

  // What became of the last run of a query.
  datatype Flight = Nothing | Lost | Answer(e: PanelEvent)

  // The dispatcher is idle, or in the handler of a response, with the message handed to
  // the queue and the rest of the handler still to come.
  datatype Dispatcher = Idle | Handling(e: PanelEvent)

  datatype System = System(
    queue: Q.State,
    panel: Panel,
    calls: seq<Call>,
    flight: Flight,
    dispatcher: Dispatcher)

  datatype Step =
    | Pick               // the worker takes the next query
    | RunLost            // it sends it, and the panel does not hear it or is not heard
    | RunAnswered(e: PanelEvent)
    | Arm                // it makes the timer
    | Timeout            // the timer fires
    | Arrive             // the response reaches the dispatcher, which hands it to the queue
    | Handle             // the rest of the handler
    | Consume            // the worker takes the message while it waits
    | Discard            // the worker takes the message at its main select

  // The queue, the driver's address, and how often a query may be lost.
  datatype Setting = Setting(config: Q.Config, own: Address, losses: nat)

  // A queue with timers that has room for a request.
  predicate ValidQueue(c: Setting) { c.config.timed && c.config.queueSize >= 1 }

  // No more losses than retries.
  predicate ValidSetting(c: Setting) { ValidQueue(c) && c.losses <= c.config.numRetries }

  function Query(n: nat): Q.Item { Q.Item(n, RESPONSE) }

  // How often the query that is to be run has been lost already.
  function Losses(c: Setting, s: System): int {
    if s.queue.worker.ToRun? then c.config.numRetries - s.queue.worker.n
    else 0
  }

  // What the panel may answer to the query of button n: anything, but about that button.
  predicate AnswerTo(e: PanelEvent, n: nat) {
    ValidResponse(e) && e.buttonNo as int == n
  }

  predicate Enabled(c: Setting, s: System, step: Step) {
    match step
    case Pick => Q.Enabled(s.queue, Q.PickItem)
    case RunLost => s.queue.worker.ToRun? && Losses(c, s) < c.losses
    case RunAnswered(e) => s.queue.worker.ToRun? && AnswerTo(e, s.queue.worker.item.name)
    case Arm => Q.Enabled(s.queue, Q.Arm)
    case Timeout => Q.Enabled(s.queue, Q.WaitTimer) && s.flight.Lost?
    case Arrive => s.flight.Answer? && s.dispatcher.Idle? && Q.Enabled(s.queue, Q.Receive(RESPONSE))
    case Handle => s.dispatcher.Handling?
    case Consume => Q.Enabled(s.queue, Q.WaitMessage)
    case Discard => Q.Enabled(s.queue, Q.PickMessage)
  }

  // The queries among the requests of a handler, put into the queue one by one.
  function EnqueueAll(config: Q.Config, queue: Q.State, requests: seq<Request>): Q.State
    decreases |requests|
  {
    if |requests| == 0 then queue
    else if requests[0].QueryButton? then
      EnqueueAll(config, Q.Apply(config, queue, Q.Enqueue(Query(requests[0].n))), requests[1..])
    else EnqueueAll(config, queue, requests[1..])
  }

  function Apply(c: Setting, s: System, step: Step): System
    requires Sized(s.panel) && Enabled(c, s, step)
  {
    match step
    case Pick => s.(queue := Q.Apply(c.config, s.queue, Q.PickItem))
    case RunLost => s.(queue := Q.Apply(c.config, s.queue, Q.Run), flight := Lost)
    case RunAnswered(e) => s.(queue := Q.Apply(c.config, s.queue, Q.Run), flight := Answer(e))
    case Arm => s.(queue := Q.Apply(c.config, s.queue, Q.Arm))
    case Timeout => s.(queue := Q.Apply(c.config, s.queue, Q.WaitTimer), flight := Nothing)
    case Arrive =>
      s.(queue := Q.Apply(c.config, s.queue, Q.Receive(RESPONSE)), flight := Nothing,
          dispatcher := Handling(s.flight.e))
    case Handle =>
      var e := s.dispatcher.e;
      s.(panel := Next(c.own, s.panel, e),
         calls := s.calls + PanelCalls(c.own, s.panel, e),
         queue := EnqueueAll(c.config, s.queue, Requests(c.own, s.panel, e)),
         dispatcher := Idle)
    case Consume => s.(queue := Q.Apply(c.config, s.queue, Q.WaitMessage))
    case Discard => s.(queue := Q.Apply(c.config, s.queue, Q.PickMessage))
  }

  // A running, empty queue, and a new panel that has just been discovered.
  function Discovered(c: Setting): (s: System)
    ensures Sized(s.panel)
  {
    var queue := Q.State(true, false, false, false, [], [], Q.AtSelect);
    System(EnqueueAll(c.config, queue, Requests(c.own, NEW_PANEL, PanelEvent.Discovered)),
           Next(c.own, NEW_PANEL, PanelEvent.Discovered), [], Nothing, Idle)
  }

  // ----- the invariant -----

  // The first k buttons are in: their controls were created in order, and nothing else
  // was ever told to the observer.
  ghost predicate InOrder(p: Panel, calls: seq<Call>, k: nat)
    requires Sized(p)
  {
    && k <= BUTTON_COUNT
    && (forall i :: 0 <= i < BUTTON_COUNT ==> (p.received[i] <==> i < k))
    && |calls| == k
    && (forall i :: 0 <= i < k ==> calls[i].OnNewControl? && calls[i].name == ButtonName(i + 1))
  }

  // The worker has query n in hand and has run it.
  predicate HasRun(c: Setting, w: Q.Worker, n: nat) {
    (w.ToArm? || w.Waiting?) && w.item == Query(n) && w.n <= c.config.numRetries
  }

  // The query after the first k buttons.
  function NextQuery(k: nat): seq<Q.Item> { if k < BUTTON_COUNT then [Query(k + 1)] else [] }

  ghost predicate Inv(c: Setting, s: System, k: nat) {
    && Sized(s.panel) && InOrder(s.panel, s.calls, k)
    && s.queue.active && !s.queue.quit && !s.queue.starting && !s.queue.stopping
    && var w, items, messages := s.queue.worker, s.queue.items, s.queue.messages;
    match s.dispatcher
    case Handling(e) =>
      && k < BUTTON_COUNT && s.flight.Nothing? && items == [] && AnswerTo(e, k + 1)
      && ((w == Q.AtSelect && messages == []) || (HasRun(c, w, k + 1) && messages == [RESPONSE]))
    case Idle =>
      match s.flight
      case Answer(e) => k < BUTTON_COUNT && AnswerTo(e, k + 1) && HasRun(c, w, k + 1) && items == [] && messages == []
      case Lost => k < BUTTON_COUNT && HasRun(c, w, k + 1) && w.n >= 1 && items == [] && messages == []
      case Nothing =>
        || (w == Q.AtSelect && items == NextQuery(k) && messages == [])
        || (k > 0 && HasRun(c, w, k) && items == NextQuery(k) && messages == [RESPONSE])
        || (k < BUTTON_COUNT && w.ToRun? && w.item == Query(k + 1) && w.n <= c.config.numRetries && items == []
            && messages == [])
  }

  // Where the chain has got to when step is taken: one button further after Handle.
  function Progress(k: nat, step: Step): nat { if step.Handle? then k + 1 else k }

  lemma HandleKeeps(c: Setting, s: System, k: nat)
    requires ValidSetting(c) && Inv(c, s, k) && s.dispatcher.Handling?
    ensures Inv(c, Apply(c, s, Handle), k + 1)
  {
    hide ButtonName, ControlName, Strconv.Itoa, QueriedValue;
    var e := s.dispatcher.e;
    ControlNameIs(e.buttonNo);
    var requests := Requests(c.own, s.panel, e);
    if k + 1 < BUTTON_COUNT {
      assert requests == [QueryButton(k + 2)];
      EnqueueOne(c.config, s.queue, k + 2);
    } else {
      assert requests == [];
    }
  }

  lemma StepKeeps(c: Setting, s: System, k: nat, step: Step)
    requires ValidSetting(c) && Inv(c, s, k) && Enabled(c, s, step)
    ensures Inv(c, Apply(c, s, step), Progress(k, step))
  {
    hide InOrder, ValidResponse;
    if step.Handle? {
      HandleKeeps(c, s, k);
    }
  }

  // ----- termination -----

  // What a worker with retries left may still do.
  function WorkerRank(w: Q.Worker): nat {
    match w
    case ToRun(_, n) => 6 * n + 6
    case ToArm(_, n) => 6 * n + 2
    case Waiting(_, n) => 6 * n + 1
    case _ => 0
  }

  // More than one query takes.
  function PerQuery(c: Setting): nat { 6 * c.config.numRetries + 8 }

  // What is left of the query in hand or waiting.
  function QueryRank(c: Setting, s: System): nat {
    (if |s.queue.items| > 0 then PerQuery(c) - 1 else 0) + WorkerRank(s.queue.worker)
    + (if s.flight.Answer? then 2 else 0) + (if s.dispatcher.Handling? then 1 else 0)
  }

  function Rank(c: Setting, s: System, k: int): int {
    (BUTTON_COUNT - k) * PerQuery(c) + QueryRank(c, s)
  }

  lemma HandleRank(c: Setting, s: System, k: nat)
    requires ValidSetting(c) && Inv(c, s, k) && s.dispatcher.Handling?
    ensures QueryRank(c, Apply(c, s, Handle)) < QueryRank(c, s) + PerQuery(c)
  {
    hide ValidResponse, InOrder;
    HandleKeeps(c, s, k);
    EnqueueKeepsWorker(c.config, s.queue, Requests(c.own, s.panel, s.dispatcher.e));
  }

  lemma {:induction false} EnqueueKeepsWorker(config: Q.Config, queue: Q.State, requests: seq<Request>)
    ensures EnqueueAll(config, queue, requests).worker == queue.worker
    ensures EnqueueAll(config, queue, requests).messages == queue.messages
    decreases |requests|
  {
    if |requests| > 0 {
      EnqueueKeepsWorker(config,
        if requests[0].QueryButton? then Q.Apply(config, queue, Q.Enqueue(Query(requests[0].n))) else queue,
        requests[1..]);
    }
  }

  lemma StepRank(c: Setting, s: System, k: nat, step: Step)
    requires ValidSetting(c) && Inv(c, s, k) && Enabled(c, s, step)
    ensures Rank(c, Apply(c, s, step), Progress(k, step)) < Rank(c, s, k)
  {
    hide ValidResponse;
    if step.Handle? {
      HandleRank(c, s, k);
      assert (BUTTON_COUNT - k) * PerQuery(c) == (BUTTON_COUNT - (k + 1)) * PerQuery(c) + PerQuery(c);
    } else {
      StepQueryRank(c, s, k, step);
    }
  }

  lemma StepQueryRank(c: Setting, s: System, k: nat, step: Step)
    requires ValidSetting(c) && Inv(c, s, k) && Enabled(c, s, step) && !step.Handle?
    ensures QueryRank(c, Apply(c, s, step)) < QueryRank(c, s)
  {
    hide ValidResponse, InOrder;
  }

  // All buttons received, all controls created in order, and nothing left to do.
  ghost predicate Complete(s: System) {
    && Sized(s.panel) && InOrder(s.panel, s.calls, BUTTON_COUNT)
    && s.queue.worker == Q.AtSelect && s.queue.items == [] && s.queue.messages == []
    && s.flight.Nothing? && s.dispatcher.Idle?
  }

  // An answer that a panel could give.
  function SomeAnswer(n: nat): PanelEvent
    requires 1 <= n <= BUTTON_COUNT
  {
    QueryResponse(n as bv8, 1, 0, 0, 0, 0)
  }

  lemma SomeAnswerFits(n: nat)
    requires 1 <= n <= BUTTON_COUNT
    ensures AnswerTo(SomeAnswer(n), n)
  {
    MessageFormat.ByteOfInt(n);
  }

  lemma NotStuck(c: Setting, s: System, k: nat) returns (step: Step)
    requires ValidSetting(c) && Inv(c, s, k) && !Complete(s)
    ensures Enabled(c, s, step)
  {
    hide ValidResponse, InOrder;
    InvBound(c, s, k);
    var w := s.queue.worker;
    if s.dispatcher.Handling? {
      step := Handle;
    } else if s.flight.Answer? {
      step := Arrive;
    } else if w.ToArm? {
      step := Arm;
    } else if s.flight.Lost? {
      step := Timeout;
    } else if w.Waiting? {
      step := Consume;
    } else if w.ToRun? {
      SomeAnswerFits(k + 1);
      step := RunAnswered(SomeAnswer(k + 1));
    } else {
      step := Pick;
    }
  }

  lemma CompleteIsFinal(c: Setting, s: System, step: Step)
    requires Complete(s)
    ensures !Enabled(c, s, step)
  {}

  // ----- runs -----

  ghost predicate CanRun(c: Setting, s: System, steps: seq<Step>)
    decreases |steps|
  {
    |steps| == 0 ||
    (Sized(s.panel) && Enabled(c, s, steps[0]) && CanRun(c, Apply(c, s, steps[0]), steps[1..]))
  }

  ghost function After(c: Setting, s: System, steps: seq<Step>): System
    requires CanRun(c, s, steps)
    decreases |steps|
  {
    if |steps| == 0 then s else After(c, Apply(c, s, steps[0]), steps[1..])
  }

  lemma {:induction false} RunKeeps(c: Setting, s: System, k: nat, steps: seq<Step>) returns (k': nat)
    requires ValidSetting(c) && Inv(c, s, k) && CanRun(c, s, steps)
    ensures Inv(c, After(c, s, steps), k') && k <= k' <= BUTTON_COUNT
    ensures |steps| + Rank(c, After(c, s, steps), k') <= Rank(c, s, k)
    ensures Rank(c, After(c, s, steps), k') >= 0
    decreases |steps|
  {
    hide Inv, Enabled, Apply, Rank;
    InvBound(c, s, k);
    if |steps| == 0 {
      k' := k;
      RankBound(c, s, k);
    } else {
      StepKeeps(c, s, k, steps[0]);
      StepRank(c, s, k, steps[0]);
      k' := RunKeeps(c, Apply(c, s, steps[0]), Progress(k, steps[0]), steps[1..]);
    }
  }

  lemma RankBound(c: Setting, s: System, k: nat)
    requires k <= BUTTON_COUNT
    ensures Rank(c, s, k) >= 0
  {}

  lemma InvBound(c: Setting, s: System, k: nat)
    requires Inv(c, s, k)
    ensures k <= BUTTON_COUNT
  {}

  lemma DiscoveredOk(c: Setting)
    requires ValidQueue(c)
    ensures Discovered(c).queue == Q.State(true, false, false, false, [Query(1)], [], Q.AtSelect)
    ensures Inv(c, Discovered(c), 0)
    ensures Rank(c, Discovered(c), 0) <= 17 * PerQuery(c)
  {
    var requests := Requests(c.own, NEW_PANEL, PanelEvent.Discovered);
    assert requests == [QueryButton(1)] && requests[1..] == [];
    var queue := Q.State(true, false, false, false, [], [], Q.AtSelect);
    EnqueueOne(c.config, queue, 1);
    assert Discovered(c).queue == queue.(items := [Query(1)]);
  }

  lemma EnqueueOne(config: Q.Config, queue: Q.State, n: nat)
    requires |queue.items| < config.queueSize
    ensures EnqueueAll(config, queue, [QueryButton(n)]) == queue.(items := queue.items + [Query(n)])
  {
    assert [QueryButton(n)][1..] == [];
  }

  // The whole chain: no run is longer than a fixed bound, every run that is not complete
  // can go on, and only complete ones cannot.
  lemma ChainCompletes(c: Setting, steps: seq<Step>)
    requires ValidSetting(c) && CanRun(c, Discovered(c), steps)
    ensures |steps| <= 17 * PerQuery(c)
    ensures Complete(After(c, Discovered(c), steps)) <==>
        forall step :: !Enabled(c, After(c, Discovered(c), steps), step)
  {
    hide Inv, Enabled, Apply, Complete, CanRun, After, EnqueueAll, Next, Requests, Rank;
    DiscoveredOk(c);
    var k := RunKeeps(c, Discovered(c), 0, steps);
    var s := After(c, Discovered(c), steps);
    if Complete(s) {
      forall step ensures !Enabled(c, s, step) {
        CompleteIsFinal(c, s, step);
      }
    } else {
      var step := NotStuck(c, s, k);
    }
  }

  // ----- one loss too many -----

  // Query 1 is to be run with n retries left, and nothing else is going on.
  predicate Asking(c: Setting, s: System, n: nat) {
    && Sized(s.panel) && n <= c.config.numRetries
    && s.queue.worker == Q.ToRun(Query(1), n) && s.queue.items == [] && s.queue.messages == []
    && s.flight.Nothing? && s.dispatcher.Idle? && !s.panel.received[0]
  }

  // Every run is lost, and the queue gives up.
  lemma {:induction false} AllLost(c: Setting, s: System, n: nat) returns (steps: seq<Step>)
    requires ValidQueue(c) && c.losses > c.config.numRetries && Asking(c, s, n)
    ensures CanRun(c, s, steps)
    ensures var s' := After(c, s, steps);
      !Complete(s') && forall step :: !Enabled(c, s', step)
    decreases n
  {
    hide Complete, InOrder, AnswerTo;
    var s1 := Apply(c, s, RunLost);
    var s2 := Apply(c, s1, Arm);
    var s3 := Apply(c, s2, Timeout);
    if n == 0 {
      steps := [];
      GivenUp(c, s3);
    } else {
      assert Asking(c, s3, n - 1);
      steps := AllLost(c, s3, n - 1);
    }
    RunFirst(c, s2, Timeout, steps);
    steps := [Timeout] + steps;
    RunFirst(c, s1, Arm, steps);
    steps := [Arm] + steps;
    RunFirst(c, s, RunLost, steps);
    steps := [RunLost] + steps;
  }

  lemma GivenUp(c: Setting, s: System)
    requires Sized(s.panel) && s.queue.worker == Q.AtSelect && s.queue.items == [] && s.queue.messages == []
    requires s.flight.Nothing? && s.dispatcher.Idle? && !s.panel.received[0]
    ensures CanRun(c, s, []) && After(c, s, []) == s
    ensures !Complete(s) && forall step :: !Enabled(c, s, step)
  {}

  lemma RunFirst(c: Setting, s: System, step: Step, steps: seq<Step>)
    requires Sized(s.panel) && Enabled(c, s, step) && CanRun(c, Apply(c, s, step), steps)
    ensures CanRun(c, s, [step] + steps)
    ensures After(c, s, [step] + steps) == After(c, Apply(c, s, step), steps)
  {
    hide Enabled, Apply;
    assert ([step] + steps)[1..] == steps;
  }

  // One more loss than there are retries is enough to end the discovery before it has
  // received anything: the bound in ChainCompletes is exact.
  lemma ChainMayBreak(c: Setting) returns (steps: seq<Step>)
    requires ValidQueue(c) && c.losses > c.config.numRetries
    ensures CanRun(c, Discovered(c), steps)
    ensures var s := After(c, Discovered(c), steps);
      !Complete(s) && forall step :: !Enabled(c, s, step)
  {
    hide Complete, After, CanRun, InOrder, EnqueueAll;
    DiscoveredOk(c);
    var s := Apply(c, Discovered(c), Pick);
    steps := AllLost(c, s, c.config.numRetries);
    RunFirst(c, Discovered(c), Pick, steps);
    steps := [Pick] + steps;
  }
}
