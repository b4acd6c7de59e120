/**
 The reading loops of smartbus/frame.go over a stream and a mutex that the reader holds
 from the first sync byte to the end of a frame.

 Run over any stream, the reader meets the segments of its split one by one: it hands
 over the good frames, in order, and locks and unlocks once for every other segment
 that begins with a sync byte. It stays locked, or blocks on its own lock, exactly
 after a timeout between the two sync bytes.
 */
module FrameReader {
  import opened BigEndian
  import opened Outcome
  import opened Crc16
  import opened StreamGrammar
  import opened Frame

  lemma ByteRunAt(ev: seq<Event>, pos: nat, n: nat)
    requires pos <= |ev|
    ensures ByteRun(ev[pos..], n) ==
            if n == 0 || pos == |ev| || ev[pos].Timeout? then 0 else 1 + ByteRun(ev[pos + 1..], n - 1)
  {
    assert pos < |ev| ==> ev[pos..][1..] == ev[pos + 1..];
  }

  datatype Read = Got(b: bv8) | TimedOut | Closed

  class ByteStream {
    const events: seq<Event>
    var pos: nat

    constructor (events: seq<Event>)
      ensures this.events == events && pos == 0 && Valid()
    {
      this.events := events;
      pos := 0;
    }

    ghost predicate Valid()
      reads this
    {
      pos <= |events|
    }

    ghost function Rest(): seq<Event>
      requires Valid()
      reads this
    {
      events[pos..]
    }

    // io.ReadFull into p[from..].
    method ReadFull(p: array<bv8>, from: nat) returns (r: Read)
      requires Valid() && from < p.Length
      modifies this`pos, p
      ensures Valid() && forall i :: 0 <= i < from ==> p[i] == old(p[i])
      ensures var k := ByteRun(old(Rest()), p.Length - from);
        if k == p.Length - from then
          r.Got? && Rest() == old(Rest())[k..] && forall i :: from <= i < p.Length ==>
              old(Rest())[i - from] == Data(p[i])
        else if k < |old(Rest())| then r == TimedOut && Rest() == old(Rest())[k + 1..]
        else r == Closed && Rest() == []
    {
      hide ByteRun;
      ghost var start, want := pos, p.Length - from;
      var n := from;
      while n < p.Length
        invariant from <= n <= p.Length && pos == start + (n - from) <= |events|
        invariant forall i :: from <= i < n ==> events[start + i - from] == Data(p[i])
        invariant forall i :: 0 <= i < from ==> p[i] == old(p[i])
        invariant ByteRun(events[start..], want) == n - from + ByteRun(events[pos..], p.Length - n)
      {
        ByteRunAt(events, pos, p.Length - n);
        r := ReadByte();
        if !r.Got? {
          return r;
        }
        p[n] := r.b;
        n := n + 1;
      }
      ByteRunAt(events, pos, 0);
      return Got(0);
    }

    method ReadByte() returns (r: Read)
      requires Valid()
      modifies this`pos
      ensures Valid()
      ensures if |old(Rest())| == 0 then r == Closed && Rest() == []
              else Rest() == old(Rest())[1..] &&
                   r == match old(Rest())[0] case Data(b) => Got(b) case Timeout => TimedOut
    {
      if pos == |events| {
        return Closed;
      }
      r := match events[pos] case Data(b) => Got(b) case Timeout => TimedOut;
      pos := pos + 1;
    }
  }

  datatype LockOp = Lock | Unlock | Block

  // The mutex of a stream, with the history of what the reader did to it.
  class Mutex {
    var locked: bool
    ghost var log: seq<LockOp>

    constructor ()
      ensures !locked && log == []
    {
      locked, log := false, [];
    }

    // False when the caller waits forever: the mutex is held, and by the caller itself.
    method Lock() returns (acquired: bool)
      modifies this
      ensures acquired == !old(locked) && locked
      ensures log == old(log) + [if acquired then LockOp.Lock else Block]
    {
      acquired := !locked;
      locked := true;
      log := log + [if acquired then LockOp.Lock else Block];
    }

    method Unlock()
      requires locked
      modifies this
      ensures !locked && log == old(log) + [LockOp.Unlock]
    {
      locked := false;
      log := log + [LockOp.Unlock];
    }
  }

  // What the reader does to the mutex while a segment passes.
  function SegmentLocks(s: Segment): seq<LockOp> {
    if s.Noise? || s.Idle? then [] else [LockOp.Lock, LockOp.Unlock]
  }

  function AllLocks(segs: seq<Segment>): seq<LockOp> {
    if |segs| == 0 then [] else AllLocks(segs[..|segs| - 1]) + SegmentLocks(segs[|segs| - 1])
  }

  function TailLocks(t: Tail): seq<LockOp> {
    match t
    case Unfinished(bs) => if |bs| == 0 then [] else [LockOp.Lock, LockOp.Unlock]
    case Stuck(_, blocked, _) => if blocked then [LockOp.Lock, Block] else [LockOp.Lock]
  }

  // ----- reading on from where the split has got to -----

  // The stream began with these segments.
  ghost predicate Progress(all: seq<Event>, segs: seq<Segment>, rest: seq<Event>) {
    Split(all) == (segs + Split(rest).0, Split(rest).1)
  }

  lemma ProgressStart(all: seq<Event>)
    ensures Progress(all, [], all)
  {
    hide Split;
    assert [] + Split(all).0 == Split(all).0;
  }

  lemma ProgressStep(all: seq<Event>, segs: seq<Segment>, rest: seq<Event>, s: Segment)
    requires Progress(all, segs, rest) && First(rest) == Seg(s)
    ensures |Render(s)| <= |rest| && Progress(all, segs + [s], rest[|Render(s)|..])
    ensures AllLocks(segs + [s]) == AllLocks(segs) + SegmentLocks(s)
    ensures GoodFrames(segs + [s]) == GoodFrames(segs) + if s.Good? then [s.frame] else []
  {
    hide First, Render, SegmentLocks, AllLocks, GoodFrames;
    FirstRenders(rest);
    var (more, tail) := Split(rest[|Render(s)|..]);
    assert segs + ([s] + more) == (segs + [s]) + more;
    LastSegment(segs, s);
  }

  lemma LastSegment(segs: seq<Segment>, s: Segment)
    ensures AllLocks(segs + [s]) == AllLocks(segs) + SegmentLocks(s)
    ensures GoodFrames(segs + [s]) == GoodFrames(segs) + if s.Good? then [s.frame] else []
  {
    hide SegmentLocks;
    assert (segs + [s])[..|segs|] == segs;
  }

  lemma ProgressEnd(all: seq<Event>, segs: seq<Segment>, rest: seq<Event>, t: Tail)
    requires Progress(all, segs, rest) && First(rest) == Last(t)
    ensures Split(all) == (segs, t)
  {
    hide First;
    FirstRenders(rest);
    assert segs + [] == segs;
  }

  function GoodFrames(segs: seq<Segment>): seq<seq<bv8>> {
    if |segs| == 0 then []
    else
      var s := segs[|segs| - 1];
      GoodFrames(segs[..|segs| - 1]) + if s.Good? then [s.frame] else []
  }

  // ----- ReadSync -----

  datatype SyncResult = Synced | Failed | Blocked

  // The state of the hunt: at the end of some segments, or behind a timeout that came
  // between two sync bytes, with the mutex still held.
  ghost predicate Hunting(all: seq<Event>, segs: seq<Segment>, at: seq<Event>, rest: seq<Event>, locked: bool) {
    Progress(all, segs, at) &&
    if locked then
      |at| >= 2 && at[..2] == [Data(SYNC), Timeout] &&
      |rest| <= |at| - 2 && at[|at| - |rest|..] == rest && NoSync(at[2..|at| - |rest|])
    else rest == at
  }

  // Anything but a sync byte: a segment of its own, unless the mutex is held.
  lemma HuntOn(all: seq<Event>, segs: seq<Segment>, at: seq<Event>, rest: seq<Event>, locked: bool)
    requires Hunting(all, segs, at, rest, locked) && |rest| > 0 && rest[0] != Data(SYNC)
    ensures locked ==> Hunting(all, segs, at, rest[1..], true)
    ensures !locked ==>
      var segs' := segs + [if rest[0].Timeout? then Idle else Noise(rest[0].b)];
      && Hunting(all, segs', rest[1..], rest[1..], false)
      && AllLocks(segs') == AllLocks(segs) && GoodFrames(segs') == GoodFrames(segs)
  {
    hide Split, AfterLength, AfterSyncTimeout, AllLocks, GoodFrames, Progress;
    if locked {
      var n := |at| - |rest|;
      assert at[n] == rest[0] && at[n + 1..] == rest[1..];
      assert at[2..n + 1] == at[2..n] + [at[n]];
    } else {
      var s := if rest[0].Timeout? then Idle else Noise(rest[0].b);
      ProgressStep(all, segs, rest, s);
      assert AllLocks(segs) + [] == AllLocks(segs) && GoodFrames(segs) + [] == GoodFrames(segs);
    }
  }

  // The stream closes while the mutex is held, or the next sync byte comes.
  lemma HuntStuck(all: seq<Event>, segs: seq<Segment>, at: seq<Event>, rest: seq<Event>)
    requires Hunting(all, segs, at, rest, true) && (|rest| > 0 ==> rest[0] == Data(SYNC))
    ensures Split(all).0 == segs && Split(all).1.Stuck? && (Split(all).1.blocked <==> |rest| > 0)
  {
    hide Split, AfterLength, Progress, HuntRun, First;
    var n := |at| - |rest|;
    var hunt := at[2..n];
    assert at == [Data(SYNC), Timeout] + (hunt + rest);
    FirstAfterSyncTimeout(hunt + rest);
    HuntRunOfHunt(hunt, rest);
    ProgressEnd(all, segs, at, First(at).tail);
  }

  lemma HuntClosed(all: seq<Event>, segs: seq<Segment>, at: seq<Event>)
    requires Progress(all, segs, at) && (at == [] || at == [Data(SYNC)])
    ensures Split(all) == (segs, Unfinished(if at == [] then [] else [SYNC]))
  {
    hide Split, Progress;
    ProgressEnd(all, segs, at, Unfinished(if at == [] then [] else [SYNC]));
  }

  lemma HuntHalfSync(all: seq<Event>, segs: seq<Segment>, at: seq<Event>)
    requires Progress(all, segs, at) && |at| >= 2 && at[0] == Data(SYNC) && at[1].Data? && at[1].b != SYNC
    ensures var segs' := segs + [HalfSync(at[1].b)];
      && Hunting(all, segs', at[2..], at[2..], false)
      && AllLocks(segs') == AllLocks(segs) + [LockOp.Lock, LockOp.Unlock] && GoodFrames(segs') == GoodFrames(segs)
  {
    hide Split, Progress, AllLocks, GoodFrames, AfterLength, AfterSyncTimeout;
    ProgressStep(all, segs, at, HalfSync(at[1].b));
    assert GoodFrames(segs) + [] == GoodFrames(segs);
  }

  method ReadSync(s: ByteStream, m: Mutex) returns (r: SyncResult, ghost segs: seq<Segment>)
    requires s.Valid() && !m.locked
    modifies s`pos, m
    ensures s.Valid()
    ensures r.Synced? ==> |s.Rest()| < |old(s.Rest())|
    ensures r.Synced? ==>
      && Progress(old(s.Rest()), segs, SYNCS + s.Rest()) && GoodFrames(segs) == []
      && m.locked && m.log == old(m.log) + AllLocks(segs) + [LockOp.Lock]
    ensures !r.Synced? ==>
      var tail := Split(old(s.Rest())).1;
      && Split(old(s.Rest())).0 == segs && GoodFrames(segs) == []
      && m.log == old(m.log) + AllLocks(segs) + TailLocks(tail)
      && m.locked == tail.Stuck?
      && (r.Blocked? <==> tail.Stuck? && tail.blocked)
  {
    hide Split, First, Progress, AllLocks, GoodFrames, Render;
    ghost var all := s.Rest();
    ghost var at := all;
    segs := [];
    ProgressStart(all);
    NothingYet();
    while true
      invariant s.Valid() && |s.Rest()| <= |all|
      invariant Hunting(all, segs, at, s.Rest(), m.locked) && GoodFrames(segs) == []
      invariant m.log == old(m.log) + AllLocks(segs) + if m.locked then [LockOp.Lock] else []
      decreases |s.events| - s.pos
    {
      ghost var rest := s.Rest();
      var b := s.ReadByte();
      if b.Closed? {
        // returned as it is: the mutex stays as it was
        if m.locked {
          HuntStuck(all, segs, at, rest);
        } else {
          HuntClosed(all, segs, at);
        }
        return Failed, segs;
      }
      if b.TimedOut? || b.b != SYNC {
        HuntOn(all, segs, at, rest, m.locked);
        if !m.locked {
          segs, at := segs + [if b.TimedOut? then Idle else Noise(b.b)], s.Rest();
        }
        continue;
      }
      var acquired := m.Lock();
      if !acquired {
        HuntStuck(all, segs, at, rest);
        return Blocked, segs;
      }
      b := s.ReadByte();
      if b.TimedOut? {
        // sync byte 1 timeout: hunts on without unlocking
        continue;
      }
      if b.Closed? {
        m.Unlock();
        HuntClosed(all, segs, at);
        return Failed, segs;
      }
      if b.b == SYNC {
        assert at == SYNCS + s.Rest();
        break;
      }
      m.Unlock();
      HuntHalfSync(all, segs, at);
      segs, at := segs + [HalfSync(b.b)], s.Rest();
    }
    return Synced, segs;
  }

  lemma NothingYet()
    ensures AllLocks([]) == [] && GoodFrames([]) == []
  {}

  // ----- ReadSmartbusFrame -----

  // What First finds at two sync bytes is a frame, a reason to drop one, or the end.
  predicate FrameResult(first: Next, frame: seq<bv8>, found: bool, cont: bool) {
    match first
    case Seg(s) => cont && found == s.Good? && (found ==> s.frame == frame) && !s.Noise? && !s.Idle? && !s.HalfSync?
    case Last(t) => !cont && !found && t.Unfinished? && |t.bytes| > 0
  }

  // What is left after First of a stream at two sync bytes.
  function After(rest: seq<Event>): seq<Event>
    requires First(SYNCS + rest).Seg?
  {
    FirstRenders(SYNCS + rest);
    (SYNCS + rest)[|Render(First(SYNCS + rest).seg)|..]
  }

  lemma FirstAtLength(rest: seq<Event>)
    ensures First(SYNCS + rest) ==
      if |rest| == 0 then Last(Unfinished([SYNC, SYNC]))
      else if rest[0].Timeout? then Seg(NoLength)
      else if (rest[0].b as int) < MIN_FRAME_SIZE then Seg(Short(rest[0].b))
      else AfterLength(rest[0].b, rest[1..])
    ensures |rest| > 0 && (rest[0].Timeout? || (rest[0].b as int) < MIN_FRAME_SIZE) ==> After(rest) == rest[1..]
  {
    hide AfterLength, AfterSyncTimeout;
    var at := SYNCS + rest;
    if |rest| > 0 {
      assert at[2] == rest[0] && at[3..] == rest[1..];
    }
  }

  lemma FullBody(rest: seq<Event>, frame: seq<bv8>)
    requires Framed(frame) && |frame| <= |rest|
    requires forall i :: 0 <= i < |frame| ==> rest[i] == Data(frame[i])
    ensures First(SYNCS + rest).Seg? && After(rest) == rest[|frame|..]
    ensures if CrcOk(frame) then FrameResult(First(SYNCS + rest), frame, true, true)
            else FrameResult(First(SYNCS + rest), [], false, true)
  {
    hide CrcOk, First, Framed;
    assert rest == AsEvents(frame) + rest[|frame|..];
    assert SYNCS + rest == SYNCS + AsEvents(frame) + rest[|frame|..];
    FirstOfFrame(frame, rest[|frame|..]);
  }

  lemma CutBody(rest: seq<Event>)
    requires |rest| > 0 && rest[0].Data? && rest[0].b as int >= MIN_FRAME_SIZE
    requires ByteRun(rest[1..], rest[0].b as int - 1) < rest[0].b as int - 1
    ensures var k := ByteRun(rest[1..], rest[0].b as int - 1);
      if k + 1 < |rest| then
        First(SYNCS + rest).Seg? && FrameResult(First(SYNCS + rest), [], false, true) && After(rest) == rest[k + 2..]
      else
        FrameResult(First(SYNCS + rest), [], false, false)
  {
    hide CrcOk, ByteRun, Payload, AsEvents, First;
    FirstAtLength(rest);
    FirstRenders(SYNCS + rest);
  }

  lemma BodyCut(rest: seq<Event>, left: seq<Event>, timedOut: bool)
    requires |rest| > 0 && rest[0].Data? && rest[0].b as int >= MIN_FRAME_SIZE
    requires var k := ByteRun(rest[1..], rest[0].b as int - 1);
      k < rest[0].b as int - 1 && timedOut == (k < |rest[1..]|) && left == if timedOut then rest[1..][k + 1..] else []
    ensures FrameResult(First(SYNCS + rest), [], false, timedOut) && |left| < |rest|
    ensures timedOut ==> First(SYNCS + rest).Seg? && left == After(rest)
  {
    hide CrcOk, ByteRun, First, After, FrameResult;
    CutBody(rest);
  }

  lemma ReadIsFrame(l: bv8, rest: seq<Event>, bytes: seq<bv8>)
    requires l as int == |bytes| >= MIN_FRAME_SIZE && bytes[0] == l && |rest| >= |bytes| && rest[0] == Data(l)
    requires forall i :: 1 <= i < |bytes| ==> rest[1..][i - 1] == Data(bytes[i])
    ensures Framed(bytes) && forall i :: 0 <= i < |bytes| ==> rest[i] == Data(bytes[i])
  {
    forall i | 1 <= i < |bytes| ensures rest[i] == Data(bytes[i]) {
      assert rest[1..][i - 1] == Data(bytes[i]);
    }
  }

  // The checksum comparison at the end of ReadSmartbusFrame.
  method CheckFrame(f: array<bv8>, l: bv8, ghost rest: seq<Event>) returns (frame: array?<bv8>)
    requires l as int == f.Length >= MIN_FRAME_SIZE && f[0] == l && |rest| >= f.Length && rest[0] == Data(l)
    requires forall i :: 1 <= i < f.Length ==> rest[1..][i - 1] == Data(f[i])
    ensures FrameResult(First(SYNCS + rest), if frame == null then [] else frame[..], frame != null, true)
    ensures First(SYNCS + rest).Seg? && After(rest) == rest[1..][f.Length - 1..]
  {
    hide Crc, Word, CrcOk, First, After, Framed, FrameResult;
    var n := f.Length - 2;
    var crc := ComputeCrc16(f[..n]);
    CrcOkIs(f[..]);
    assert f[..][..n] == f[..n];
    ReadIsFrame(l, rest, f[..]);
    FullBody(rest, f[..]);
    frame := if crc == Word(f[n], f[n + 1]) then f else null;
  }

  // The buffer for a body, with the length in front.
  method FillBody(s: ByteStream, l: bv8) returns (f: array<bv8>, r: Read)
    requires s.Valid() && l as int >= MIN_FRAME_SIZE
    modifies s`pos
    ensures s.Valid() && fresh(f) && f.Length == l as int && f[0] == l
    ensures var body, k := old(s.Rest()), ByteRun(old(s.Rest()), f.Length - 1);
      if k == f.Length - 1 then
        r.Got? && s.Rest() == body[k..] && forall i :: 1 <= i < f.Length ==> body[i - 1] == Data(f[i])
      else
        k < f.Length - 1 && r == (if k < |body| then TimedOut else Closed) &&
        s.Rest() == if k < |body| then body[k + 1..] else []
  {
    hide ByteRun;
    f := new bv8[l as int];
    f[0] := l;
    r := s.ReadFull(f, 1);
  }

  // The part of ReadSmartbusFrame that follows a length of at least the minimum.
  method ReadBody(s: ByteStream, l: bv8, ghost rest: seq<Event>) returns (frame: array?<bv8>, cont: bool)
    requires s.Valid() && l as int >= MIN_FRAME_SIZE && rest == [Data(l)] + s.Rest()
    modifies s`pos
    ensures s.Valid()
    ensures FrameResult(First(SYNCS + rest), if frame == null then [] else frame[..], frame != null, cont)
    ensures |s.Rest()| < |rest|
    ensures cont ==> First(SYNCS + rest).Seg? && s.Rest() == After(rest)
  {
    hide CrcOk, ByteRun, First, After, FrameResult;
    assert rest[1..] == s.Rest();
    var f, r := FillBody(s, l);
    frame, cont := null, true;
    if r.Got? {
      frame := CheckFrame(f, l, rest);
    } else {
      BodyCut(rest, s.Rest(), r.TimedOut?);
      cont := r.TimedOut?;
    }
  }

  method ReadSmartbusFrame(s: ByteStream) returns (frame: array?<bv8>, cont: bool)
    requires s.Valid()
    modifies s`pos
    ensures s.Valid()
    ensures FrameResult(First(SYNCS + old(s.Rest())), if frame == null then [] else frame[..], frame != null, cont)
    ensures |s.Rest()| <= |old(s.Rest())|
    ensures cont ==> s.Rest() == After(old(s.Rest()))
  {
    hide First, AfterLength, After;
    ghost var rest := s.Rest();
    FirstAtLength(rest);
    var l := s.ReadByte();
    if l.TimedOut? {
      return null, true;
    }
    if l.Closed? {
      return null, false;
    }
    if (l.b as int) < MIN_FRAME_SIZE {
      return null, true;
    }
    frame, cont := ReadBody(s, l.b, rest);
  }

  lemma CrcOkIs(frame: seq<bv8>)
    requires |frame| >= 2
    ensures CrcOk(frame) <==> Crc(frame[..|frame| - 2]) == Word(frame[|frame| - 2], frame[|frame| - 1])
  {}

  // ----- delivery -----

  // What a run of frames puts on the message channel: the messages that parse, up to a
  // frame whose fields make the parser panic.
  function Deliver(frames: seq<seq<bv8>>): (seq<SmartbusMessage>, bool) {
    if |frames| == 0 then ([], false)
    else
      var (msgs, crashed) := Deliver(frames[..|frames| - 1]);
      if crashed then (msgs, true)
      else
        match ParseFrame(frames[|frames| - 1])
        case Ok(m) => (msgs + [m], false)
        case Err(_) => (msgs, false)
        case Panic => (msgs, true)
  }

  // A run crashes exactly when one of its frames does.
  lemma {:induction false} CrashedIff(frames: seq<seq<bv8>>)
    ensures Deliver(frames).1 <==> exists k :: 0 <= k < |frames| && CrashFrame(frames[k])
  {
    hide ParseFrame, CrashFrame;
    if |frames| > 0 {
      var n := |frames| - 1;
      CrashedIff(frames[..n]);
      ParsePanicIff(frames[n]);
      assert forall k :: 0 <= k < n ==> frames[..n][k] == frames[k];
    }
  }

  // What is delivered, in terms of the frames alone: the messages of the frames that
  // parse, each once and in order, up to the first frame that makes the parser panic.
  ghost predicate DeliveredFrom(frames: seq<seq<bv8>>, stop: nat, at: seq<nat>, msgs: seq<SmartbusMessage>) {
    && stop <= |frames| && |msgs| == |at|
    && (forall k :: 0 <= k < stop ==> !CrashFrame(frames[k]))
    && (stop < |frames| ==> CrashFrame(frames[stop]))
    && (forall i, j :: 0 <= i < j < |at| ==> at[i] < at[j])
    && (forall k: nat :: k in at <==> k < stop && ParseFrame(frames[k]).Ok?)
    && (forall i :: 0 <= i < |at| ==> at[i] < stop && ParseFrame(frames[at[i]]) == Ok(msgs[i]))
  }

  lemma {:induction false} DeliveredAre(frames: seq<seq<bv8>>) returns (stop: nat, at: seq<nat>)
    ensures DeliveredFrom(frames, stop, at, Deliver(frames).0)
    ensures Deliver(frames).1 <==> stop < |frames|
  {
    hide ParseFrame, CrashFrame;
    if |frames| == 0 {
      return 0, [];
    }
    var n := |frames| - 1;
    stop, at := DeliveredAre(frames[..n]);
    ParsePanicIff(frames[n]);
    assert forall k :: 0 <= k < n ==> frames[..n][k] == frames[k];
    if stop == n {
      if ParseFrame(frames[n]).Ok? {
        at := at + [n];
        assert forall k: nat :: k in at <==> k in at[..|at| - 1] || k == n;
      }
      stop := if CrashFrame(frames[n]) then n else n + 1;
    }
  }

  // A frame that does not parse leaves no trace.
  lemma {:induction false} DropsLeaveNothing(frames: seq<seq<bv8>>, more: seq<seq<bv8>>)
    requires forall i :: 0 <= i < |more| ==> ParseFrame(more[i]).Err?
    ensures Deliver(frames + more) == Deliver(frames)
    decreases |more|
  {
    hide ParseFrame;
    if |more| == 0 {
      assert frames + more == frames;
    } else {
      var n := |more| - 1;
      assert (frames + more)[..|frames| + n] == frames + more[..n];
      DropsLeaveNothing(frames, more[..n]);
    }
  }

  // The frame handler of ReadSmartbus, with the frames it was given and what it sent. A
  // gateway also gets every frame as it is.
  class Handler {
    const gateway: bool
    var raw: seq<seq<bv8>>
    ghost var frames: seq<seq<bv8>>
    var sent: seq<SmartbusMessage>
    var crashed: bool

    ghost predicate Valid()
      reads this
    {
      (sent, crashed) == Deliver(frames) && raw == if gateway then frames else []
    }

    constructor (gateway: bool)
      ensures Valid() && frames == [] && !crashed && this.gateway == gateway
    {
      this.gateway := gateway;
      raw, frames, sent, crashed := [], [], [], false;
    }

    // Called with the mutex released, so that whoever takes the message may write.
    method Handle(frame: array<bv8>, m: Mutex)
      requires Valid() && !crashed && !m.locked
      modifies this
      ensures Valid() && frames == old(frames) + [frame[..]]
    {
      hide ParseFrame;
      if gateway {
        raw := raw + [frame[..]];
      }
      frames := frames + [frame[..]];
      assert frames[..|frames| - 1] == old(frames);
      match ParseFrame(frame[..]) {
        case Ok(msg) => sent := sent + [msg];
        case Err(_) =>
        case Panic => crashed := true;
      }
    }
  }

  datatype RunResult = StreamEnded | Deadlocked | Crashed

  lemma {:induction false} DeliverCrashed(frames: seq<seq<bv8>>, more: seq<seq<bv8>>)
    requires Deliver(frames).1
    ensures Deliver(frames + more) == Deliver(frames)
    decreases |more|
  {
    hide ParseFrame;
    if |more| == 0 {
      assert frames + more == frames;
    } else {
      var n := |more| - 1;
      assert (frames + more)[..|frames| + n] == frames + more[..n];
      DeliverCrashed(frames, more[..n]);
    }
  }

  lemma {:induction false} Concatenated(a: seq<Segment>, b: seq<Segment>)
    ensures AllLocks(a + b) == AllLocks(a) + AllLocks(b)
    ensures GoodFrames(a + b) == GoodFrames(a) + GoodFrames(b)
    decreases |b|
  {
    hide SegmentLocks;
    if |b| == 0 {
      assert a + b == a;
    } else {
      var n := |b| - 1;
      assert (a + b)[..|a| + n] == a + b[..n];
      Concatenated(a, b[..n]);
    }
  }

  lemma ProgressJoin(all: seq<Event>, segs: seq<Segment>, mid: seq<Event>, found: seq<Segment>, rest: seq<Event>)
    requires Progress(all, segs, mid) && Progress(mid, found, rest)
    ensures Progress(all, segs + found, rest)
  {
    hide Split;
    assert segs + (found + Split(rest).0) == (segs + found) + Split(rest).0;
  }

  // The whole run of a reader over a stream.
  ghost predicate RunIs(all: seq<Event>, r: RunResult, log: seq<LockOp>, locked: bool, frames: seq<seq<bv8>>) {
    var (segs, tail) := Split(all);
    && frames == GoodFrames(segs)
    && log == AllLocks(segs) + TailLocks(tail)
    && locked == tail.Stuck?
    && r == if tail.Stuck? && tail.blocked then Deadlocked else StreamEnded
  }

  // A run that the parser's panic ended: at the first frame that crashes, which is the
  // end of the n-th segment, with the mutex released.
  ghost predicate CrashedAt(all: seq<Event>, n: nat, log: seq<LockOp>, locked: bool, frames: seq<seq<bv8>>) {
    var segs := Split(all).0;
    && 0 < n <= |segs| && segs[n - 1].Good? && CrashFrame(segs[n - 1].frame)
    && frames == GoodFrames(segs[..n])
    && log == AllLocks(segs[..n])
    && !locked
  }

  lemma CrashIsAt(all: seq<Event>, segs: seq<Segment>, rest: seq<Event>, log: seq<LockOp>, frames: seq<seq<bv8>>)
    requires Progress(all, segs, rest) && |segs| > 0
    requires segs[|segs| - 1].Good? && ParseFrame(segs[|segs| - 1].frame).Panic?
    requires frames == GoodFrames(segs) && log == AllLocks(segs)
    ensures CrashedAt(all, |segs|, log, false, frames)
  {
    hide Split, GoodFrames, AllLocks, ParseFrame, CrashFrame;
    SplitFrom(all, segs, rest);
    ParsePanicIff(segs[|segs| - 1].frame);
    assert Split(all).0[..|segs|] == segs;
  }

  lemma CrashIsNew(frames: seq<seq<bv8>>, frame: seq<bv8>)
    requires !Deliver(frames).1 && Deliver(frames + [frame]).1
    ensures ParseFrame(frame).Panic?
  {
    hide ParseFrame;
    assert (frames + [frame])[..|frames|] == frames;
  }

  // ReadSmartbusRaw with the handler of ReadSmartbus.
  method ReadSmartbus(s: ByteStream, m: Mutex, h: Handler) returns (r: RunResult)
    requires s.Valid() && !m.locked && m.log == [] && h.Valid() && h.frames == [] && !h.crashed
    modifies s`pos, m, h
    ensures h.Valid()
    ensures (h.sent, h.crashed) == Deliver(GoodFrames(Split(old(s.Rest())).0))
    ensures r.Crashed? <==> h.crashed
    ensures !h.crashed ==> RunIs(old(s.Rest()), r, m.log, m.locked, h.frames)
    ensures h.crashed ==> exists n: nat :: CrashedAt(old(s.Rest()), n, m.log, m.locked, h.frames)
  {
    hide CrashedAt, CrashFrame, Split, First, Progress, AllLocks, GoodFrames, Render, Deliver, TailLocks,
        SegmentLocks, ParseFrame;
    ghost var all := s.Rest();
    ghost var segs: seq<Segment> := [];
    ProgressStart(all);
    NothingYet();
    while true
      invariant s.Valid() && h.Valid() && !h.crashed && !m.locked
      invariant Progress(all, segs, s.Rest())
      invariant h.frames == GoodFrames(segs) && m.log == AllLocks(segs)
      decreases |s.Rest()|
    {
      ghost var before := s.Rest();
      var sync, found := ReadSync(s, m);
      Concatenated(segs, found);
      assert GoodFrames(segs) + [] == GoodFrames(segs);
      if !sync.Synced? {
        // the mutex stays as ReadSync left it
        SplitFrom(all, segs, before);
        return if sync.Blocked? then Deadlocked else StreamEnded;
      }
      ghost var at := SYNCS + s.Rest();
      ProgressJoin(all, segs, before, found, at);
      segs := segs + found;
      var frame, cont := ReadSmartbusFrame(s);
      m.Unlock();
      if !cont {
        ProgressEnd(all, segs, at, First(at).tail);
        UnfinishedLocks(First(at).tail);
        return StreamEnded;
      }
      ghost var seg := First(at).seg;
      ProgressStep(all, segs, at, seg);
      FrameLocks(seg);
      segs := segs + [seg];
      if frame != null {
        ghost var handled := h.frames;
        h.Handle(frame, m);
        if h.crashed {
          CrashIsNew(handled, frame[..]);
          CrashIsAt(all, segs, s.Rest(), m.log, h.frames);
          SplitFrom(all, segs, s.Rest());
          Concatenated(segs, Split(s.Rest()).0);
          DeliverCrashed(GoodFrames(segs), GoodFrames(Split(s.Rest()).0));
          return Crashed;
        }
      }
    }
  }

  lemma SplitFrom(all: seq<Event>, segs: seq<Segment>, rest: seq<Event>)
    requires Progress(all, segs, rest)
    ensures Split(all).0 == segs + Split(rest).0 && Split(all).1 == Split(rest).1
  {}

  lemma UnfinishedLocks(t: Tail)
    requires t.Unfinished? && |t.bytes| > 0
    ensures TailLocks(t) == [LockOp.Lock, LockOp.Unlock]
  {}

  lemma FrameLocks(s: Segment)
    requires !s.Noise? && !s.Idle?
    ensures SegmentLocks(s) == [LockOp.Lock, LockOp.Unlock]
  {}
}
