/**
 From messages to bytes and back: what WriteSmartbus puts on a stream, ReadSmartbus
 takes off it, in spite of noise between the frames; and what corruption, an oversized
 payload or a timeout between sync bytes does instead.
 */
module WireRoundTrip {
  import opened Outcome
  import opened BitDivision
  import opened Crc16
  import opened CrcDetection
  import CrcOrder
  import opened MessageFormat
  import opened FieldConverters
  import opened Messages
  import opened PanicConditions
  import opened StreamGrammar
  import opened Frame
  import opened FrameReader

  // ----- the writing loop -----

  predicate AllEncodable(msgs: seq<SmartbusMessage>) {
    forall i :: 0 <= i < |msgs| ==> Encodable(msgs[i])
  }

  predicate AllCanSend(items: seq<Outgoing>) {
    forall i :: 0 <= i < |items| ==> CanSend(items[i])
  }

  // The bytes of a list of messages and frames that can all be written.
  function Written(items: seq<Outgoing>): seq<bv8>
    requires AllCanSend(items)
  {
    if |items| == 0 then [] else Written(items[..|items| - 1]) + (SYNC_BYTES + SentFrame(items[|items| - 1]))
  }

  // Everything before the first item that cannot be written.
  ghost predicate WrittenUpTo(items: seq<Outgoing>, n: nat, bs: seq<bv8>) {
    n < |items| && !CanSend(items[n]) && AllCanSend(items[..n]) && bs == Written(items[..n])
  }

  // WriteSmartbus over the items that come through its channel: the mutex is taken for
  // each of them. One that cannot be written is a panic that leaves it locked.
  method WriteSmartbus(writer: Buffer, mutex: Mutex, items: seq<Outgoing>) returns (res: Outcome<()>)
    requires writer.Valid() && writer.data == [] && !mutex.locked
    modifies writer`data, mutex
    ensures writer.Valid()
    ensures AllCanSend(items) ==>
      res == Ok(()) && writer.data == Written(items) && !mutex.locked
          && mutex.log == old(mutex.log) + LockPairs(|items|)
    ensures !AllCanSend(items) ==>
      res == Panic && mutex.locked &&
      exists n: nat ::
        WrittenUpTo(items, n, writer.data) && mutex.log == old(mutex.log) + LockPairs(n) + [LockOp.Lock]
  {
    hide CanSend, SentFrame, Written, SYNC_BYTES;
    WrittenNone();
    assert LockPairs(0) == [];
    for i := 0 to |items|
      invariant writer.Valid() && !mutex.locked
      invariant mutex.log == old(mutex.log) + LockPairs(i)
      invariant AllCanSend(items[..i])
      invariant writer.data == Written(items[..i])
    {
      var _ := mutex.Lock();
      var r := WriteOutgoing(writer, items[i]);
      if r.Panic? {
        assert WrittenUpTo(items, i, writer.data);
        return Panic;
      }
      WrittenOne(items[..i], items[i]);
      assert items[..i + 1] == items[..i] + [items[i]];
      mutex.Unlock();
    }
    assert items[..|items|] == items;
    return Ok(());
  }

  lemma WrittenNone()
    ensures Written([]) == []
  {}

  lemma WrittenOne(items: seq<Outgoing>, o: Outgoing)
    requires AllCanSend(items) && CanSend(o)
    ensures AllCanSend(items + [o]) && Written(items + [o]) == Written(items) + (SYNC_BYTES + SentFrame(o))
  {
    hide CanSend, SentFrame, SYNC_BYTES;
    assert (items + [o])[..|items|] == items;
  }

  // ----- round trip through noise -----

  // The longest payload whose frame has a right length byte.
  const MAX_PAYLOAD := 244

  // The messages that reach the other side.
  ghost predicate Sendable(m: SmartbusMessage) {
    InDomain(m.message) && Encodable(m) && |EncodeMessage(m.message).value| <= MAX_PAYLOAD
  }

  ghost predicate AllSendable(msgs: seq<SmartbusMessage>)
    ensures AllSendable(msgs) ==> AllEncodable(msgs)
  {
    forall i :: 0 <= i < |msgs| ==> Sendable(msgs[i])
  }

  // Segments a receiver drops: noise of any kind, and good frames that do not parse, as
  // those of a device that speaks another dialect.
  ghost predicate Skips(segs: seq<Segment>) {
    AllValid(segs) && forall s <- segs :: s.Good? ==> ParseFrame(s.frame).Err?
  }

  ghost predicate AllSkips(noise: seq<seq<Segment>>) {
    forall i :: 0 <= i < |noise| ==> Skips(noise[i])
  }

  // The events of the messages, the i-th of them preceded by noise[i].
  ghost function Wire(noise: seq<seq<Segment>>, msgs: seq<SmartbusMessage>): seq<Event>
    requires |noise| == |msgs| && AllEncodable(msgs)
  {
    if |msgs| == 0 then []
    else
      var n := |msgs| - 1;
      Wire(noise[..n], msgs[..n]) + (RenderAll(noise[n]) + AsEvents(SYNC_BYTES + FrameOf(msgs[n])))
  }

  ghost function WireSegments(noise: seq<seq<Segment>>, msgs: seq<SmartbusMessage>): seq<Segment>
    requires |noise| == |msgs| && AllEncodable(msgs)
  {
    if |msgs| == 0 then []
    else
      var n := |msgs| - 1;
      WireSegments(noise[..n], msgs[..n]) + (noise[n] + [Good(FrameOf(msgs[n]))])
  }

  function AllStamped(msgs: seq<SmartbusMessage>): seq<SmartbusMessage> {
    seq(|msgs|, i requires 0 <= i < |msgs| => Stamped(msgs[i]))
  }

  lemma SendableFrame(m: SmartbusMessage)
    requires Sendable(m)
    ensures Encodable(m) && ValidSegment(Good(FrameOf(m))) && ParseFrame(FrameOf(m)) == Ok(Stamped(m))
    ensures Render(Good(FrameOf(m))) == AsEvents(SYNC_BYTES + FrameOf(m))
  {
    hide EncodeMessage, InDomain, FrameBytes, ParseFrame, CrcOk, Framed;
    var h, payload := Stamped(m).header, EncodeMessage(m.message).value;
    FrameHasCrc(h, payload);
    FramedIff(h, payload);
    ParseFrameOf(m);
    BytesSplit(SYNC_BYTES, FrameOf(m));
    assert AsEvents(SYNC_BYTES) == SYNCS;
  }

  lemma {:induction false} RenderAllSplit(a: seq<Segment>, b: seq<Segment>)
    ensures RenderAll(a + b) == RenderAll(a) + RenderAll(b)
  {
    hide Render;
    if |a| == 0 {
      assert a + b == b;
    } else {
      assert (a + b)[1..] == a[1..] + b;
      RenderAllSplit(a[1..], b);
    }
  }

  lemma RenderOne(s: Segment)
    ensures RenderAll([s]) == Render(s)
  {
    hide Render;
    assert RenderAll([s][1..]) == [];
  }

  lemma {:induction false} SkippedFrames(segs: seq<Segment>)
    requires forall s <- segs :: s.Good? ==> ParseFrame(s.frame).Err?
    ensures forall frame <- GoodFrames(segs) :: ParseFrame(frame).Err?
  {
    hide ParseFrame;
    if |segs| > 0 {
      assert segs[|segs| - 1] in segs;
      SkippedFrames(segs[..|segs| - 1]);
    }
  }

  lemma GoodOne(frame: seq<bv8>)
    ensures GoodFrames([Good(frame)]) == [frame]
  {
    assert GoodFrames([Good(frame)][..0]) == [];
  }

  lemma {:induction false} WireParses(noise: seq<seq<Segment>>, msgs: seq<SmartbusMessage>)
    requires |noise| == |msgs| && AllSendable(msgs) && AllSkips(noise)
    ensures var segs := WireSegments(noise, msgs);
      && AllValid(segs)
      && RenderAll(segs) == Wire(noise, msgs)
      && Deliver(GoodFrames(segs)) == (AllStamped(msgs), false)
  {
    hide Render, RenderAll, ValidSegment, FrameOf, InDomain, Sendable, ParseFrame;
    hide SYNC_BYTES, Stamped, Deliver, GoodFrames, AsEvents, Encodable, EncodeMessage;
    if |msgs| == 0 {
      NothingParses();
    } else {
      var n := |msgs| - 1;
      var before, m, skip := WireSegments(noise[..n], msgs[..n]), msgs[n], noise[n];
      var good := Good(FrameOf(m));
      WireParses(noise[..n], msgs[..n]);
      assert Sendable(m) && Skips(skip);
      SendableFrame(m);
      RenderAllSplit(before, skip + [good]);
      RenderAllSplit(skip, [good]);
      RenderOne(good);
      Concatenated(before, skip + [good]);
      Concatenated(skip, [good]);
      SkippedFrames(skip);
      DropsLeaveNothing(GoodFrames(before), GoodFrames(skip));
      GoodOne(FrameOf(m));
      DeliverOne(GoodFrames(before) + GoodFrames(skip), FrameOf(m), Stamped(m));
      assert GoodFrames(before) + (GoodFrames(skip) + [FrameOf(m)]) ==
          GoodFrames(before) + GoodFrames(skip) + [FrameOf(m)];
      assert AllStamped(msgs) == AllStamped(msgs[..n]) + [Stamped(m)];
    }
  }

  lemma NothingParses()
    ensures RenderAll([]) == [] && GoodFrames([]) == [] && Deliver([]) == ([], false) && AllStamped([]) == []
  {}

  lemma DeliverOne(frames: seq<seq<bv8>>, frame: seq<bv8>, m: SmartbusMessage)
    requires !Deliver(frames).1 && ParseFrame(frame) == Ok(m)
    ensures Deliver(frames + [frame]) == (Deliver(frames).0 + [m], false)
  {
    hide ParseFrame;
    assert (frames + [frame])[..|frames|] == frames;
  }

  // Any list of sendable messages, written with anything skippable before each of them
  // and any tail, is delivered as it was sent, with the opcodes filled in.
  lemma RoundTrip(noise: seq<seq<Segment>>, msgs: seq<SmartbusMessage>, tail: Tail)
    requires |noise| == |msgs| && AllSendable(msgs) && AllSkips(noise)
    requires ValidTail(tail)
    ensures Deliver(GoodFrames(Split(Wire(noise, msgs) + RenderTail(tail)).0)) == (AllStamped(msgs), false)
  {
    hide Split, RenderTail, Deliver, GoodFrames;
    WireParses(noise, msgs);
    SplitUnique(WireSegments(noise, msgs), tail);
  }

  function AllTyped(msgs: seq<SmartbusMessage>): (items: seq<Outgoing>)
    requires AllEncodable(msgs)
    ensures |items| == |msgs| && AllCanSend(items)
  {
    seq(|msgs|, i requires 0 <= i < |msgs| => Typed(msgs[i]))
  }

  // Without noise the wire is what the writing loop writes.
  lemma {:induction false} WireIsWritten(noise: seq<seq<Segment>>, msgs: seq<SmartbusMessage>)
    requires |noise| == |msgs| && AllEncodable(msgs) && (forall i :: 0 <= i < |noise| ==> noise[i] == [])
    ensures Wire(noise, msgs) == AsEvents(Written(AllTyped(msgs)))
  {
    hide Encodable, EncodeMessage, FrameOf, AsEvents, SYNC_BYTES, Written;
    if |msgs| == 0 {
      WrittenNone();
      assert AllTyped(msgs) == [] && AsEvents([]) == [] by { NoBytes(); }
    } else {
      var n := |msgs| - 1;
      assert RenderAll(noise[n]) == [];
      WireIsWritten(noise[..n], msgs[..n]);
      assert AllTyped(msgs) == AllTyped(msgs[..n]) + [Typed(msgs[n])];
      WrittenOne(AllTyped(msgs[..n]), Typed(msgs[n]));
      BytesSplit(Written(AllTyped(msgs[..n])), SYNC_BYTES + FrameOf(msgs[n]));
    }
  }

  lemma NoBytes()
    ensures AsEvents([]) == []
  {}

  // ----- frames passed on -----

  function AllPreBuilt(frames: seq<seq<bv8>>): (items: seq<Outgoing>)
    ensures |items| == |frames| && AllCanSend(items)
  {
    seq(|frames|, i requires 0 <= i < |frames| => PreBuilt(frames[i]))
  }

  function AllGood(frames: seq<seq<bv8>>): (segs: seq<Segment>)
    ensures |segs| == |frames|
  {
    seq(|frames|, i requires 0 <= i < |frames| => Good(frames[i]))
  }

  lemma {:induction false} PassedOn(frames: seq<seq<bv8>>)
    requires forall i :: 0 <= i < |frames| ==> ValidSegment(Good(frames[i]))
    ensures AllValid(AllGood(frames)) && GoodFrames(AllGood(frames)) == frames
    ensures RenderAll(AllGood(frames)) == AsEvents(Written(AllPreBuilt(frames)))
  {
    hide ValidSegment, RenderAll, Render, AsEvents, SYNC_BYTES, Written, GoodFrames;
    if |frames| == 0 {
      assert AllGood(frames) == [] && AllPreBuilt(frames) == [];
      NothingParses();
      WrittenNone();
      NoBytes();
    } else {
      var n := |frames| - 1;
      var before, frame := frames[..n], frames[n];
      PassedOn(before);
      assert AllGood(frames) == AllGood(before) + [Good(frame)];
      assert AllPreBuilt(frames) == AllPreBuilt(before) + [PreBuilt(frame)];
      WrittenOne(AllPreBuilt(before), PreBuilt(frame));
      RenderAllSplit(AllGood(before), [Good(frame)]);
      RenderOne(Good(frame));
      RenderGood(frame);
      BytesSplit(Written(AllPreBuilt(before)), SYNC_BYTES + frame);
      Concatenated(AllGood(before), [Good(frame)]);
      GoodOne(frame);
    }
  }

  lemma RenderGood(frame: seq<bv8>)
    ensures Render(Good(frame)) == AsEvents(SYNC_BYTES + frame)
  {
    BytesSplit(SYNC_BYTES, frame);
    assert AsEvents(SYNC_BYTES) == SYNCS;
  }

  // A gateway loses nothing: the good frames of any stream, written to another one as
  // they are, are exactly the good frames there.
  lemma ForwardedIntact(ev: seq<Event>)
    ensures var frames := GoodFrames(Split(ev).0);
      GoodFrames(Split(AsEvents(Written(AllPreBuilt(frames)))).0) == frames
  {
    hide Split, GoodFrames, AsEvents, Written, RenderAll, RenderTail, ValidSegment;
    var frames := GoodFrames(Split(ev).0);
    SplitRenders(ev);
    forall i | 0 <= i < |frames| ensures ValidSegment(Good(frames[i])) {
      GoodFramesAreGood(Split(ev).0, i);
    }
    PassedOn(frames);
    NoTail();
    var out := AsEvents(Written(AllPreBuilt(frames)));
    assert out + [] == out;
    SplitUnique(AllGood(frames), Unfinished([]));
  }

  lemma {:induction false} GoodFramesAreGood(segs: seq<Segment>, k: nat)
    requires AllValid(segs) && k < |GoodFrames(segs)|
    ensures ValidSegment(Good(GoodFrames(segs)[k]))
  {
    hide CrcOk, Framed;
    var n := |segs| - 1;
    assert segs[n] in segs;
    if k < |GoodFrames(segs[..n])| {
      GoodFramesAreGood(segs[..n], k);
    }
  }

  // ----- what can be delivered at all -----

  lemma {:induction false} DeliveredComesFromFrame(frames: seq<seq<bv8>>, i: nat)
    requires i < |Deliver(frames).0|
    ensures exists k :: 0 <= k < |frames| && ParseFrame(frames[k]) == Ok(Deliver(frames).0[i])
  {
    hide ParseFrame;
    var n := |frames| - 1;
    if i < |Deliver(frames[..n]).0| {
      DeliveredComesFromFrame(frames[..n], i);
      var k :| 0 <= k < n && ParseFrame(frames[..n][k]) == Ok(Deliver(frames[..n]).0[i]);
      assert frames[k] == frames[..n][k];
    } else {
      assert ParseFrame(frames[n]) == Ok(Deliver(frames).0[i]);
    }
  }

  // On any stream at all, a delivered message that can be written is sendable: nothing
  // outside the domain and no payload over the limit ever gets through.
  lemma DeliveredIsSendable(ev: seq<Event>, i: nat)
    requires var msgs := Deliver(GoodFrames(Split(ev).0)).0;
      i < |msgs| && Encodable(msgs[i])
    ensures var m := Deliver(GoodFrames(Split(ev).0)).0[i];
      Sendable(m) && Stamped(m) == m
  {
    hide Split, Deliver, GoodFrames, ParseFrame, InDomain, EncodeMessage, Framed, FrameBytes, Stamped;
    var segs := Split(ev).0;
    var m := Deliver(GoodFrames(segs)).0[i];
    SplitRenders(ev);
    DeliveredComesFromFrame(GoodFrames(segs), i);
    var k :| 0 <= k < |GoodFrames(segs)| && ParseFrame(GoodFrames(segs)[k]) == Ok(m);
    GoodFramesAreGood(segs, k);
    assert Framed(GoodFrames(segs)[k]);
    FramedSize(GoodFrames(segs)[k]);
    ParsedIsInDomain(GoodFrames(segs)[k]);
    FrameSize(Stamped(m).header, EncodeMessage(m.message).value);
  }

  lemma FramedSize(frame: seq<bv8>)
    requires Framed(frame)
    ensures |frame| <= 255
  {}

  lemma StampedEncodable(m: SmartbusMessage)
    ensures Stamped(m).message == m.message && (Encodable(Stamped(m)) <==> Encodable(m))
    ensures Sendable(Stamped(m)) <==> Sendable(m)
  {
    hide EncodeMessage, InDomain;
  }

  // One written message comes back exactly when it is sendable.
  lemma WireIff(m: SmartbusMessage)
    requires Encodable(m)
    ensures Deliver(GoodFrames(Split(AsEvents(SYNC_BYTES + FrameOf(m))).0)) == ([Stamped(m)], false) <==> Sendable(m)
  {
    hide Split, Deliver, GoodFrames, FrameOf, EncodeMessage, InDomain, AsEvents, Stamped, RenderAll, RenderTail;
    var ev := AsEvents(SYNC_BYTES + FrameOf(m));
    StampedEncodable(m);
    if Sendable(m) {
      var noise: seq<seq<Segment>> := [[]];
      RoundTrip(noise, [m], Unfinished([]));
      WireIsWritten(noise, [m]);
      WrittenNone();
      WrittenOne([], Typed(m));
      NoTail();
      assert AllTyped([m]) == [] + [Typed(m)];
      assert [] + (SYNC_BYTES + FrameOf(m)) == SYNC_BYTES + FrameOf(m);
      assert ev + [] == ev;
      assert AllStamped([m]) == [Stamped(m)];
    } else if Deliver(GoodFrames(Split(ev).0)) == ([Stamped(m)], false) {
      DeliveredIsSendable(ev, 0);
    }
  }

  lemma NoTail()
    ensures RenderTail(Unfinished([])) == []
  {}

  // A list of channel levels can always be written, and survives the wire up to 243.
  lemma LevelsIff(m: SmartbusMessage)
    requires m.message.QueryChannelStatusesResponse?
    ensures Encodable(m) && (Sendable(m) <==> |m.message.levels| <= 243)
  {
    var levels := m.message.levels;
    assert EncodeAll([KStatusBytes], [Value.Bytes(levels)]) == Ok([Count(|levels|)] + levels) by {
      hide Count;
      assert EncodeAll([KStatusBytes][1..], [Value.Bytes(levels)][1..]) == Ok([]);
      assert [Count(|levels|)] + levels + [] == [Count(|levels|)] + levels;
    }
  }

  // ----- the crash -----

  // A frame with a crashing payload, in perfect order otherwise: the run ends with it,
  // whatever follows.
  lemma CrashingFrame(h: MessageHeader, payload: seq<bv8>, rest: seq<Event>)
    requires CrashPayload(h.opcode, payload) && |payload| <= MAX_PAYLOAD
    ensures var frame := FrameBytes(h, payload);
      && ValidSegment(Good(frame)) && CrashFrame(frame)
      && Deliver(GoodFrames(Split(AsEvents(SYNC_BYTES + frame) + rest).0)) == ([], true)
  {
    hide CrashPayload, CrashFrame, ParseFrame, DecodeMessage, FrameBytes, Split, First, GoodFrames, CrcOk, Framed,
        Render;
    var frame := FrameBytes(h, payload);
    FrameHasCrc(h, payload);
    FramedIff(h, payload);
    CrashIff(h.opcode, payload);
    ParseOfFrame(h, payload);
    ParsePanicIff(frame);
    RenderGood(frame);
    SplitAt(Good(frame), rest);
    var more := Split(rest).0;
    Concatenated([Good(frame)], more);
    GoodOne(frame);
    CrashOne(frame);
    DeliverCrashed([frame], GoodFrames(more));
  }

  lemma SplitAt(s: Segment, rest: seq<Event>)
    requires ValidSegment(s)
    ensures Split(Render(s) + rest) == ([s] + Split(rest).0, Split(rest).1)
  {
    hide First, Render, ValidSegment;
    FirstOfSegment(s, rest);
    FirstRenders(Render(s) + rest);
    assert (Render(s) + rest)[|Render(s)|..] == rest;
  }

  lemma CrashOne(frame: seq<bv8>)
    requires ParseFrame(frame).Panic?
    ensures Deliver([frame]) == ([], true)
  {
    hide ParseFrame;
    assert [frame][..0] == [];
  }

  // Four bytes are enough: the response to a command with a count of 255 and no status.
  lemma CrashExample(h: MessageHeader, rest: seq<Event>)
    requires h.opcode == 0x0032
    ensures Deliver(GoodFrames(Split(AsEvents(SYNC_BYTES + FrameBytes(h, [0x01, 0xf8, 0x64, 0xff])) + rest).0)) ==
        ([], true)
  {
    CrashingFrame(h, [0x01, 0xf8, 0x64, 0xff], rest);
  }

  // ----- corruption -----

  // A frame corrupted behind its length byte, by a burst, by two bits anywhere or by an
  // odd number of bits, is dropped, and the stream goes on as if it had not been there.
  lemma CorruptionIsDropped(frame: seq<bv8>, e: seq<bv8>, start: nat, rest: seq<Event>)
    requires Framed(frame) && CrcOk(frame) && |e| == |frame| && e[0] == 0
    requires Burst(Bits(e), start) || Ones(Bits(e)) == 2 || Ones(Bits(e)) % 2 == 1
    ensures var bad := Flip(frame, e);
      && First(SYNCS + AsEvents(bad) + rest) == Seg(Corrupt(bad))
      && Split(SYNCS + AsEvents(bad) + rest) == ([Corrupt(bad)] + Split(rest).0, Split(rest).1)
  {
    hide CrcOk, Bits, Ones, Burst, AsEvents, First;
    var bad := Flip(frame, e);
    if Burst(Bits(e), start) {
      BurstDetected(frame, e, start);
    } else if Ones(Bits(e)) == 2 {
      FramedSize(frame);
      CrcOrder.FewErrorsDetected(frame, e);
    } else {
      OddErrorDetected(frame, e);
    }
    FlipKeepsLength(frame, e);
    FirstOfFrame(bad, rest);
    var ev := SYNCS + AsEvents(bad) + rest;
    assert Render(Corrupt(bad)) == SYNCS + AsEvents(bad);
    assert ev[|Render(Corrupt(bad))|..] == rest;
  }

  lemma FlipKeepsLength(frame: seq<bv8>, e: seq<bv8>)
    requires Framed(frame) && |e| == |frame| && e[0] == 0
    ensures Framed(Flip(frame, e))
  {
    assert Flip(frame, e)[0] == XorByte(frame[0], 0) == frame[0];
  }

  // ----- the mutex over a whole run -----

  // How many of the segments begin with a sync byte.
  function SyncStarts(segs: seq<Segment>): nat {
    if |segs| == 0 then 0
    else
      var s := segs[|segs| - 1];
      SyncStarts(segs[..|segs| - 1]) + if Render(s)[0] == Data(SYNC) then 1 else 0
  }

  function LockPairs(n: nat): seq<LockOp> {
    if n == 0 then [] else LockPairs(n - 1) + [LockOp.Lock, LockOp.Unlock]
  }

  // Lock and Unlock alternate, once for every first sync byte.
  lemma {:induction false} LocksAlternate(segs: seq<Segment>)
    requires AllValid(segs)
    ensures AllLocks(segs) == LockPairs(SyncStarts(segs))
  {
    hide CrcOk, Framed;
    if |segs| > 0 {
      var n := |segs| - 1;
      assert segs[n] in segs;
      LocksAlternate(segs[..n]);
      assert LockPairs(SyncStarts(segs[..n])) + [] == LockPairs(SyncStarts(segs[..n]));
    }
  }

  // After a timeout between two sync bytes nothing more is delivered, whatever follows:
  // the mutex is held until the stream ends, or until the reader waits for itself.
  lemma SyncTimeoutIsFinal(segs: seq<Segment>, more: seq<Event>)
    requires AllValid(segs)
    ensures var (segs', tail) := Split(RenderAll(segs) + ([Data(SYNC), Timeout] + more));
      && segs' == segs && tail.Stuck?
      && (tail.blocked <==> Data(SYNC) in more)
  {
    hide Split, RenderAll, AllValid, HuntRun;
    var tail := AfterSyncTimeout(more);
    AfterSyncTimeoutRenders(more);
    SplitUnique(segs, tail);
    var k := HuntRun(more);
    if k < |more| {
      assert more[k] == Data(SYNC);
    }
  }
}
