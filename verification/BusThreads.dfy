/**
 The goroutines around one serial line and what they wait for: the stream reader and
 writer of smartbus/frame.go, the dispatcher of smartbus/connection.go, the worker of
 smartbus/messagequeue.go, and a poller that sends without the queue.

 They share the mutex of the stream, two unbuffered channels and the bounded channel of
 the queue. No set of them can wait in a circle, because the reader lets the mutex go
 before it hands a message over; the same system with the two steps swapped can lock up.
 */
module BusThreads {
  // What a message handler does that can block, in order: hand the message to the queue,
  // put a request into the queue, send a message.
  datatype Op = ToQueue | Request | Send

  // The reader waits for a sync byte, for the mutex, for the rest of a frame with the
  // mutex held, or for the dispatcher to take a message.
  datatype Reader = Hunting | WantLock | InFrame | Delivering(handler: seq<Op>) | Ended

  datatype Dispatcher = AtChannel | Handling(rest: seq<Op>)

  // The worker is at its main select, sends a request, or waits for the answer.
  datatype Worker = AtSelect | Running | Waiting

  datatype Writer = WriterIdle | WriterWants | Writing

  datatype Owner = Free | ByReader | ByWriter

  datatype State = State(
    owner: Owner,
    reader: Reader,
    dispatcher: Dispatcher,
    worker: Worker,
    writer: Writer,
    polling: bool,
    items: nat,
    messages: nat)

  // unlockFirst: the reader unlocks the mutex before it delivers a message.
  datatype Config = Config(queueSize: nat, timed: bool, unlockFirst: bool)

  const INBOUND_QUEUE_SIZE := 10
  const INIT := State(Free, Hunting, AtChannel, AtSelect, WriterIdle, false, 0, 0)

  datatype Step =
    // from outside
    | SyncByte                      // a first sync byte is read
    | FrameDropped                  // the frame, or what looked like one, comes to nothing
    | FrameRead(handler: seq<Op>)   // a good frame, with what its handler will do
    | StreamEnds
    | TimerFires(retry: bool)
    | NewRequest
    | PollStarts
    // from inside
    | ReaderLocks
    | Deliver
    | HandlerQueues
    | HandlerRequests
    | HandlerSends
    | HandlerReturns
    | PickItem
    | PickMessage
    | WorkerSends
    | TakeMessage(answers: bool)
    | PollerSends
    | WriterLocks
    | WriterWrites

  predicate External(step: Step) {
    step.SyncByte? || step.FrameDropped? || step.FrameRead? || step.StreamEnds?
    || step.TimerFires? || step.NewRequest? || step.PollStarts?
  }

  predicate NextOp(s: State, op: Op) {
    s.dispatcher.Handling? && |s.dispatcher.rest| > 0 && s.dispatcher.rest[0] == op
  }

  predicate Enabled(s: State, step: Step) {
    match step
    case SyncByte => s.reader.Hunting?
    case FrameDropped => s.reader.InFrame?
    case FrameRead(_) => s.reader.InFrame?
    case StreamEnds => s.reader.Hunting? || s.reader.InFrame?
    case TimerFires(_) => s.worker.Waiting?
    case NewRequest => true
    case PollStarts => !s.polling
    case ReaderLocks => s.reader.WantLock? && s.owner.Free?
    case Deliver => s.reader.Delivering? && s.dispatcher.AtChannel?
    case HandlerQueues => NextOp(s, ToQueue) && s.messages < INBOUND_QUEUE_SIZE
    case HandlerRequests => NextOp(s, Request)
    case HandlerSends => NextOp(s, Send) && s.writer.WriterIdle?
    case HandlerReturns => s.dispatcher.Handling? && |s.dispatcher.rest| == 0
    case PickItem => s.worker.AtSelect? && s.items > 0
    case PickMessage => s.worker.AtSelect? && s.messages > 0
    case WorkerSends => s.worker.Running? && s.writer.WriterIdle?
    case TakeMessage(_) => s.worker.Waiting? && s.messages > 0
    case PollerSends => s.polling && s.writer.WriterIdle?
    case WriterLocks => s.writer.WriterWants? && s.owner.Free?
    case WriterWrites => s.writer.Writing?
  }

  function AddItem(c: Config, s: State): State {
    s.(items := if s.items < c.queueSize then s.items + 1 else s.items)
  }

  function Apply(c: Config, s: State, step: Step): State
    requires Enabled(s, step)
  {
    match step
    case SyncByte => s.(reader := WantLock)
    case FrameDropped => s.(reader := Hunting, owner := Free)
    case FrameRead(handler) => s.(reader := Delivering(handler), owner := if c.unlockFirst then Free else ByReader)
    case StreamEnds => s.(reader := Ended, owner := if s.reader.InFrame? then Free else s.owner)
    case TimerFires(retry) => s.(worker := if retry then Running else AtSelect)
    case NewRequest => AddItem(c, s)
    case PollStarts => s.(polling := true)
    case ReaderLocks => s.(reader := InFrame, owner := ByReader)
    case Deliver =>
      s.(reader := Hunting, dispatcher := Handling(s.reader.handler), owner := if c.unlockFirst then s.owner else Free)
    case HandlerQueues => s.(messages := s.messages + 1, dispatcher := Handling(s.dispatcher.rest[1..]))
    case HandlerRequests => AddItem(c, s).(dispatcher := Handling(s.dispatcher.rest[1..]))
    case HandlerSends => s.(writer := WriterWants, dispatcher := Handling(s.dispatcher.rest[1..]))
    case HandlerReturns => s.(dispatcher := AtChannel)
    case PickItem => s.(items := s.items - 1, worker := Running)
    case PickMessage => s.(messages := s.messages - 1)
    case WorkerSends => s.(writer := WriterWants, worker := if c.timed then Waiting else AtSelect)
    case TakeMessage(answers) => s.(messages := s.messages - 1, worker := if answers then AtSelect else Waiting)
    case PollerSends => s.(writer := WriterWants, polling := false)
    case WriterLocks => s.(writer := Writing, owner := ByWriter)
    case WriterWrites => s.(writer := WriterIdle, owner := Free)
  }

  predicate CanRun(c: Config, s: State, steps: seq<Step>)
    decreases |steps|, 0
  {
    |steps| == 0 ||
    (CanRun(c, s, steps[..|steps| - 1]) && Enabled(After(c, s, steps[..|steps| - 1]), steps[|steps| - 1]))
  }

  function After(c: Config, s: State, steps: seq<Step>): State
    requires CanRun(c, s, steps)
    decreases |steps|, 1
  {
    if |steps| == 0 then s
    else Apply(c, After(c, s, steps[..|steps| - 1]), steps[|steps| - 1])
  }

  // ----- mutual exclusion -----

  // The reader owns the mutex exactly inside a frame, the writer exactly while it
  // writes: no frame is written from the reader's lock to the end of its frame.
  predicate Exclusive(c: Config, s: State) {
    && (s.owner.ByReader? <==> s.reader.InFrame? || (s.reader.Delivering? && !c.unlockFirst))
    && (s.owner.ByWriter? <==> s.writer.Writing?)
    && s.messages <= INBOUND_QUEUE_SIZE
  }

  lemma ExclusiveStep(c: Config, s: State, step: Step)
    requires Exclusive(c, s) && Enabled(s, step)
    ensures Exclusive(c, Apply(c, s, step))
  {}

  lemma {:induction false} ExclusiveAlways(c: Config, steps: seq<Step>)
    requires CanRun(c, INIT, steps)
    ensures Exclusive(c, After(c, INIT, steps))
    decreases |steps|
  {
    hide Exclusive, Apply, Enabled;
    if |steps| == 0 {
      InitExclusive(c);
    } else {
      ExclusiveAlways(c, steps[..|steps| - 1]);
      ExclusiveStep(c, After(c, INIT, steps[..|steps| - 1]), steps[|steps| - 1]);
    }
  }

  lemma InitExclusive(c: Config)
    ensures Exclusive(c, INIT)
  {}

  // ----- no circle of waits -----

  // Everyone but the reader waits for something from outside: a message, a request, a
  // timer.
  predicate AllIdle(s: State) {
    && s.dispatcher.AtChannel? && s.writer.WriterIdle? && !s.polling
    && s.messages == 0
    && (s.worker.Waiting? || (s.worker.AtSelect? && s.items == 0))
  }

  lemma QuietWriter(c: Config, s: State)
    requires c.unlockFirst && Exclusive(c, s)
    requires !Enabled(s, ReaderLocks) && !Enabled(s, WriterLocks) && !Enabled(s, WriterWrites)
    ensures !s.reader.WantLock? && (!s.reader.InFrame? ==> s.writer.WriterIdle?)
  {}

  lemma QuietOthers(s: State)
    requires s.writer.WriterIdle? && s.messages <= INBOUND_QUEUE_SIZE
    requires !Enabled(s, Deliver) && !Enabled(s, HandlerReturns)
    requires !Enabled(s, HandlerQueues) && !Enabled(s, HandlerRequests) && !Enabled(s, HandlerSends)
    requires !Enabled(s, PickMessage) && !Enabled(s, TakeMessage(true)) && !Enabled(s, PickItem)
    requires !Enabled(s, WorkerSends) && !Enabled(s, PollerSends)
    ensures AllIdle(s) && !s.reader.Delivering?
  {}

  // The dispatcher has nothing to do, waits to send, or waits to hand a message to a
  // queue that is full because the worker waits to send.
  predicate DispatcherWaits(s: State) {
    || s.dispatcher.AtChannel?
    || NextOp(s, Send)
    || (NextOp(s, ToQueue) && s.messages == INBOUND_QUEUE_SIZE && s.worker.Running?)
  }

  // The worker waits to send, or for a timer, a message or a request.
  predicate WorkerWaits(s: State) {
    || s.worker.Running?
    || (s.messages == 0 && (s.worker.Waiting? || (s.worker.AtSelect? && s.items == 0)))
  }

  // A message is to be written, the reader is in a frame, and whoever is not idle waits
  // for that message to be written: a chain, and it ends at the stream.
  predicate FrameFirst(s: State) {
    && s.reader.InFrame? && s.owner.ByReader? && s.writer.WriterWants?
    && DispatcherWaits(s) && WorkerWaits(s)
  }

  // The ways a frame can end.
  predicate EndsFrame(step: Step) { step.FrameDropped? || step.FrameRead? || step.StreamEnds? }

  lemma WaitersOfFrame(c: Config, s: State)
    requires c.unlockFirst && Exclusive(c, s) && s.reader.InFrame? && !s.writer.WriterIdle?
    requires !Enabled(s, HandlerReturns) && !Enabled(s, HandlerQueues) && !Enabled(s, HandlerRequests)
    requires !Enabled(s, PickMessage) && !Enabled(s, TakeMessage(true)) && !Enabled(s, PickItem)
    ensures FrameFirst(s)
  {
    if s.dispatcher.Handling? && |s.dispatcher.rest| > 0 {
      var op := s.dispatcher.rest[0];
      assert op == ToQueue || op == Request || op == Send;
    }
  }

  // However the frame ends, the writer is next.
  lemma FrameLetsGo(c: Config, s: State, step: Step)
    requires c.unlockFirst && FrameFirst(s) && EndsFrame(step)
    ensures Enabled(s, step) && Enabled(Apply(c, s, step), WriterLocks)
  {}

  // When nothing can happen from inside, the reader waits for the stream; and everyone
  // else waits for the world outside, or for the end of the frame that the reader is in.
  lemma StuckMeansWaiting(c: Config, s: State)
    requires c.unlockFirst && Exclusive(c, s)
    requires forall step :: Enabled(s, step) ==> External(step)
    ensures s.reader.Hunting? || s.reader.InFrame? || s.reader.Ended?
    ensures AllIdle(s) || FrameFirst(s)
  {
    hide Enabled, AllIdle, FrameFirst, Exclusive;
    QuietWriter(c, s);
    FewMessages(c, s);
    if s.writer.WriterIdle? {
      QuietOthers(s);
    } else {
      WaitersOfFrame(c, s);
    }
  }

  lemma FewMessages(c: Config, s: State)
    requires Exclusive(c, s)
    ensures s.messages <= INBOUND_QUEUE_SIZE
  {}

  // The system comes to rest by itself: every step from inside uses up some of this.
  function OpsRank(ops: seq<Op>): nat {
    if |ops| == 0 then 0
    else (match ops[0] case ToQueue => 2 case Request => 5 case Send => 3) + OpsRank(ops[1..])
  }

  function Rank(s: State): nat {
    (match s.reader case WantLock => 1 case Delivering(h) => OpsRank(h) + 2 case _ => 0)
    + (if s.dispatcher.Handling? then OpsRank(s.dispatcher.rest) + 1 else 0)
    + (if s.worker.Running? then 3 else 0)
    + (match s.writer case WriterIdle => 0 case WriterWants => 2 case Writing => 1)
    + (if s.polling then 3 else 0)
    + 4 * s.items + s.messages
  }

  lemma InsideRank(c: Config, s: State, step: Step)
    requires Enabled(s, step) && !External(step)
    ensures Rank(Apply(c, s, step)) < Rank(s)
  {}

  lemma {:induction false} ComesToRest(c: Config, s: State, steps: seq<Step>)
    requires CanRun(c, s, steps) && forall i :: 0 <= i < |steps| ==> !External(steps[i])
    ensures |steps| + Rank(After(c, s, steps)) <= Rank(s)
    decreases |steps|
  {
    hide Apply, Enabled, Rank, External;
    if |steps| > 0 {
      var n := |steps| - 1;
      ComesToRest(c, s, steps[..n]);
      InsideRank(c, After(c, s, steps[..n]), steps[n]);
    }
  }

  // In every reachable state some step is possible from inside; or the reader waits for
  // the stream and everyone else for the world outside; or everyone waits for a message
  // to be written, the message for the end of a frame, and the frame for the stream. In
  // that case the end of the frame lets the writer go on.
  lemma NoCircle(c: Config, steps: seq<Step>)
    requires c.unlockFirst && CanRun(c, INIT, steps)
    ensures var s := After(c, INIT, steps);
      || (exists step :: Enabled(s, step) && !External(step))
      || ((s.reader.Hunting? || s.reader.InFrame? || s.reader.Ended?) && AllIdle(s))
      || (FrameFirst(s) && forall step :: EndsFrame(step) ==>
          Enabled(s, step) && Enabled(Apply(c, s, step), WriterLocks))
  {
    hide Enabled, External, AllIdle, FrameFirst, EndsFrame, Exclusive, Apply;
    var s := After(c, INIT, steps);
    ExclusiveAlways(c, steps);
    if forall step :: Enabled(s, step) ==> External(step) {
      StuckMeansWaiting(c, s);
      if FrameFirst(s) {
        forall step | EndsFrame(step) ensures Enabled(s, step) && Enabled(Apply(c, s, step), WriterLocks) {
          FrameLetsGo(c, s, step);
        }
      }
    }
  }

  // ----- nothing is lost -----

  // What moves through the system: messages to be written, messages that were read, and
  // answers for the queue.
  datatype Goods = ToWrite | WasRead | Answers

  function Put(g: Goods, step: Step): nat {
    match g
    case ToWrite => if step.HandlerSends? || step.WorkerSends? || step.PollerSends? then 1 else 0
    case WasRead => if step.FrameRead? then 1 else 0
    case Answers => if step.HandlerQueues? then 1 else 0
  }

  function Taken(g: Goods, step: Step): nat {
    match g
    case ToWrite => if step.WriterWrites? then 1 else 0
    case WasRead => if step.Deliver? then 1 else 0
    case Answers => if step.PickMessage? || step.TakeMessage? then 1 else 0
  }

  // What is on its way.
  function Stock(g: Goods, s: State): nat {
    match g
    case ToWrite => if s.writer.WriterIdle? then 0 else 1
    case WasRead => if s.reader.Delivering? then 1 else 0
    case Answers => s.messages
  }

  function AllPut(g: Goods, steps: seq<Step>): nat {
    if |steps| == 0 then 0 else AllPut(g, steps[..|steps| - 1]) + Put(g, steps[|steps| - 1])
  }

  function AllTaken(g: Goods, steps: seq<Step>): nat {
    if |steps| == 0 then 0 else AllTaken(g, steps[..|steps| - 1]) + Taken(g, steps[|steps| - 1])
  }

  lemma StockStep(c: Config, s: State, step: Step, g: Goods)
    requires Enabled(s, step)
    ensures Stock(g, Apply(c, s, step)) + Taken(g, step) == Stock(g, s) + Put(g, step)
  {}

  // Over every run, whatever was put in has been taken out or is on its way: every message
  // that is sent is written once, every message that is read is delivered once.
  lemma {:induction false} NothingLost(c: Config, steps: seq<Step>, g: Goods)
    requires CanRun(c, INIT, steps)
    ensures AllPut(g, steps) == AllTaken(g, steps) + Stock(g, After(c, INIT, steps))
    decreases |steps|
  {
    hide Apply, Enabled, Put, Taken, Stock;
    if |steps| == 0 {
      NothingYet(g);
    } else {
      var n := |steps| - 1;
      NothingLost(c, steps[..n], g);
      StockStep(c, After(c, INIT, steps[..n]), steps[n], g);
    }
  }

  lemma NothingYet(g: Goods)
    ensures Stock(g, INIT) == 0
  {}

  // ----- the other order would not do -----

  // If the reader delivered first and unlocked afterwards: a request waits for the mutex,
  // the handler of one message waits to send, and the reader waits with the next.
  lemma DeliveringLockedMayHang(c: Config) returns (steps: seq<Step>)
    requires !c.unlockFirst && c.queueSize > 0
    ensures CanRun(c, INIT, steps)
    ensures var s := After(c, INIT, steps);
      && s.reader.Delivering? && s.dispatcher.Handling? && s.writer.WriterWants? && s.owner.ByReader?
      && forall step :: Enabled(s, step) ==>
          External(step) && !step.SyncByte? && !step.FrameRead? && !step.FrameDropped? && !step.StreamEnds?
  {
    hide CanRun, After;
    steps := [];
    RunNothing(c);
    var plan := [SyncByte, ReaderLocks, FrameRead([Send]), Deliver, NewRequest, PickItem, WorkerSends,
                 SyncByte, ReaderLocks, FrameRead([])];
    var s1 := INIT.(reader := WantLock);
    var s2 := s1.(reader := InFrame, owner := ByReader);
    var s3 := s2.(reader := Delivering([Send]));
    var s4 := INIT.(dispatcher := Handling([Send]));
    var s5 := s4.(items := 1);
    var s6 := s4.(worker := Running);
    var s7 := s4.(writer := WriterWants, worker := if c.timed then Waiting else AtSelect);
    var s8 := s7.(reader := WantLock);
    var s9 := s8.(reader := InFrame, owner := ByReader);
    var s10 := s9.(reader := Delivering([]));
    var states := [INIT, s1, s2, s3, s4, s5, s6, s7, s8, s9, s10];
    for i := 0 to |plan|
      invariant |steps| == i && CanRun(c, INIT, steps) && After(c, INIT, steps) == states[i]
    {
      Extend(c, steps, plan[i]);
      steps := steps + [plan[i]];
    }
  }

  lemma RunNothing(c: Config)
    ensures CanRun(c, INIT, []) && After(c, INIT, []) == INIT
  {}

  lemma Extend(c: Config, steps: seq<Step>, step: Step)
    requires CanRun(c, INIT, steps) && Enabled(After(c, INIT, steps), step)
    ensures CanRun(c, INIT, steps + [step]) && After(c, INIT, steps + [step]) == Apply(c, After(c, INIT, steps), step)
  {
    hide Enabled, Apply;
    assert (steps + [step])[..|steps|] == steps;
  }
}
