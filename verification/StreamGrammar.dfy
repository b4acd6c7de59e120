/**
 What a receiver of smartbus/frame.go makes of a stream: the segments it skips, the
 frames it accepts and the tail it cannot finish. Every stream, timeouts included,
 splits into these in exactly one way (SplitRenders, SplitUnique).
 */
module StreamGrammar {
  import opened Crc16

  // One read of the stream: a byte, or a timeout. After the last event the stream is closed.
  datatype Event = Data(b: bv8) | Timeout

  const SYNC: bv8 := 0xaa
  const MIN_FRAME_SIZE := 11 // excluding sync

  datatype Segment =
    | Noise(b: bv8)                         // not a sync byte
    | Idle                                  // a timeout while hunting for sync
    | HalfSync(b: bv8)                      // one sync byte, then something else
    | NoLength                              // a timeout instead of the length
    | Short(l: bv8)                         // a length below the minimum
    | Cut(l: bv8, part: seq<bv8>)           // a timeout inside the body
    | Corrupt(frame: seq<bv8>)              // a full frame that fails the check
    | Good(frame: seq<bv8>)                 // a full frame that passes it

  datatype Tail =
    | Unfinished(bytes: seq<bv8>)           // the stream closed inside a frame, or between frames
    | Stuck(hunt: seq<Event>, blocked: bool, unread: seq<Event>) // a timeout between the two sync bytes

  function AsEvents(bs: seq<bv8>): (ev: seq<Event>)
    ensures |ev| == |bs|
  {
    seq(|bs|, i requires 0 <= i < |bs| => Data(bs[i]))
  }

  // A frame as the length byte describes it.
  predicate Framed(frame: seq<bv8>) {
    |frame| >= MIN_FRAME_SIZE && frame[0] as int == |frame|
  }

  predicate NoSync(hunt: seq<Event>) {
    forall i :: 0 <= i < |hunt| ==> hunt[i] != Data(SYNC)
  }

  predicate ValidSegment(s: Segment) {
    match s
    case Noise(b) => b != SYNC
    case Idle => true
    case HalfSync(b) => b != SYNC
    case NoLength => true
    case Short(l) => (l as int) < MIN_FRAME_SIZE
    case Cut(l, part) => l as int >= MIN_FRAME_SIZE && |part| < l as int - 1
    case Corrupt(frame) => Framed(frame) && !CrcOk(frame)
    case Good(frame) => Framed(frame) && CrcOk(frame)
  }

  predicate ValidTail(t: Tail) {
    match t
    case Unfinished(bs) =>
      && (|bs| > 0 ==> bs[0] == SYNC)
      && (|bs| > 1 ==> bs[1] == SYNC)
      && (|bs| > 2 ==> bs[2] as int >= MIN_FRAME_SIZE && |bs| - 2 < bs[2] as int)
    case Stuck(hunt, blocked, unread) => NoSync(hunt) && (!blocked ==> |unread| == 0)
  }

  function Render(s: Segment): seq<Event> {
    match s
    case Noise(b) => [Data(b)]
    case Idle => [Timeout]
    case HalfSync(b) => [Data(SYNC), Data(b)]
    case NoLength => [Data(SYNC), Data(SYNC), Timeout]
    case Short(l) => [Data(SYNC), Data(SYNC), Data(l)]
    case Cut(l, part) => [Data(SYNC), Data(SYNC), Data(l)] + (AsEvents(part) + [Timeout])
    case Corrupt(frame) => [Data(SYNC), Data(SYNC)] + AsEvents(frame)
    case Good(frame) => [Data(SYNC), Data(SYNC)] + AsEvents(frame)
  }

  function RenderTail(t: Tail): seq<Event> {
    match t
    case Unfinished(bs) => AsEvents(bs)
    case Stuck(hunt, blocked, unread) =>
      [Data(SYNC), Timeout] + (hunt + if blocked then [Data(SYNC)] + unread else [])
  }

  function RenderAll(segs: seq<Segment>): seq<Event> {
    if |segs| == 0 then [] else Render(segs[0]) + RenderAll(segs[1..])
  }

  ghost predicate AllValid(segs: seq<Segment>) {
    forall s <- segs :: ValidSegment(s)
  }

  // ----- the split -----

  // How many of the first n events are bytes with no timeout before them.
  function ByteRun(ev: seq<Event>, n: nat): (k: nat)
    ensures k <= n && k <= |ev|
    ensures forall i :: 0 <= i < k ==> ev[i].Data?
    ensures k < n && k < |ev| ==> ev[k] == Timeout
  {
    if n == 0 || |ev| == 0 || ev[0].Timeout? then 0 else 1 + ByteRun(ev[1..], n - 1)
  }

  function Payload(ev: seq<Event>): (bs: seq<bv8>)
    requires forall e <- ev :: e.Data?
    ensures |bs| == |ev| && AsEvents(bs) == ev
  {
    var bs := seq(|ev|, i requires 0 <= i < |ev| => ev[i].b);
    assert forall i :: 0 <= i < |ev| ==> ev[i] in ev && AsEvents(bs)[i] == ev[i];
    bs
  }

  // How many events pass before the next sync byte.
  function HuntRun(ev: seq<Event>): (k: nat)
    ensures k <= |ev|
    ensures forall i :: 0 <= i < k ==> ev[i] != Data(SYNC)
    ensures k < |ev| ==> ev[k] == Data(SYNC)
  {
    if |ev| == 0 || ev[0] == Data(SYNC) then 0 else 1 + HuntRun(ev[1..])
  }

  datatype Next = Seg(seg: Segment) | Last(tail: Tail)

  // What follows two sync bytes and a length of at least the minimum.
  function AfterLength(l: bv8, body: seq<Event>): Next
    requires l as int >= MIN_FRAME_SIZE
  {
    var k := ByteRun(body, l as int - 1);
    var part := Payload(body[..k]);
    if k == l as int - 1 then Seg(if CrcOk([l] + part) then Good([l] + part) else Corrupt([l] + part))
    else if k < |body| then Seg(Cut(l, part))
    else Last(Unfinished([SYNC, SYNC, l] + part))
  }

  // What follows a sync byte and a timeout.
  function AfterSyncTimeout(ev: seq<Event>): Tail {
    var k := HuntRun(ev);
    if k < |ev| then Stuck(ev[..k], true, ev[k + 1..]) else Stuck(ev[..k], false, [])
  }

  // What the receiver meets first.
  function First(ev: seq<Event>): Next {
    if |ev| == 0 then Last(Unfinished([]))
    else if ev[0].Timeout? then Seg(Idle)
    else if ev[0].b != SYNC then Seg(Noise(ev[0].b))
    else if |ev| == 1 then Last(Unfinished([SYNC]))
    else if ev[1].Timeout? then Last(AfterSyncTimeout(ev[2..]))
    else if ev[1].b != SYNC then Seg(HalfSync(ev[1].b))
    else if |ev| == 2 then Last(Unfinished([SYNC, SYNC]))
    else if ev[2].Timeout? then Seg(NoLength)
    else if (ev[2].b as int) < MIN_FRAME_SIZE then Seg(Short(ev[2].b))
    else AfterLength(ev[2].b, ev[3..])
  }

  lemma BytesSplit(a: seq<bv8>, b: seq<bv8>)
    ensures AsEvents(a + b) == AsEvents(a) + AsEvents(b)
  {}

  const SYNCS: seq<Event> := [Data(SYNC), Data(SYNC)]

  lemma FullRenders(l: bv8, part: seq<bv8>)
    requires |part| == l as int - 1 >= MIN_FRAME_SIZE - 1
    ensures Framed([l] + part)
    ensures SYNCS + AsEvents([l] + part) == SYNCS + [Data(l)] + AsEvents(part)
  {
    BytesSplit([l], part);
    assert AsEvents([l]) == [Data(l)];
  }

  lemma PartRenders(l: bv8, part: seq<bv8>)
    ensures AsEvents([SYNC, SYNC, l] + part) == SYNCS + [Data(l)] + AsEvents(part)
  {
    BytesSplit([SYNC, SYNC, l], part);
    assert AsEvents([SYNC, SYNC, l]) == SYNCS + [Data(l)];
  }

  lemma PrefixOf(head: seq<Event>, body: seq<Event>, k: nat)
    requires k <= |body|
    ensures head + body[..k] <= head + body
    ensures k == |body| ==> head + body[..k] == head + body
    ensures k < |body| ==> head + (body[..k] + [body[k]]) <= head + body
  {}

  lemma AfterLengthRenders(l: bv8, body: seq<Event>)
    requires l as int >= MIN_FRAME_SIZE
    ensures match AfterLength(l, body)
      case Seg(s) => ValidSegment(s) && |Render(s)| > 0 && Render(s) <= SYNCS + [Data(l)] + body
      case Last(t) => ValidTail(t) && RenderTail(t) == SYNCS + [Data(l)] + body
  {
    hide CrcOk, ByteRun, AsEvents, Payload, Framed;
    var k := ByteRun(body, l as int - 1);
    var part := Payload(body[..k]);
    PrefixOf(SYNCS + [Data(l)], body, k);
    if k == l as int - 1 {
      FullRenders(l, part);
    } else {
      PartRenders(l, part);
    }
  }

  lemma AfterSyncTimeoutRenders(ev: seq<Event>)
    ensures ValidTail(AfterSyncTimeout(ev)) && RenderTail(AfterSyncTimeout(ev)) == [Data(SYNC), Timeout] + ev
  {
    var k := HuntRun(ev);
    if k < |ev| {
      assert ev == ev[..k] + ([Data(SYNC)] + ev[k + 1..]);
    } else {
      assert ev == ev[..k] + [];
    }
  }

  // What First finds is valid, and is what the stream begins with.
  lemma FirstRenders(ev: seq<Event>)
    ensures match First(ev)
      case Seg(s) => ValidSegment(s) && 0 < |Render(s)| && Render(s) <= ev
      case Last(t) => ValidTail(t) && RenderTail(t) == ev
  {
    hide AfterLength, AfterSyncTimeout, CrcOk;
    if |ev| >= 3 && ev[0] == ev[1] == Data(SYNC) && ev[2].Data? && ev[2].b as int >= MIN_FRAME_SIZE {
      AfterLengthRenders(ev[2].b, ev[3..]);
      assert SYNCS + [ev[2]] + ev[3..] == ev;
    } else if |ev| >= 2 && ev[0] == Data(SYNC) && ev[1].Timeout? {
      AfterSyncTimeoutRenders(ev[2..]);
      assert [Data(SYNC), Timeout] + ev[2..] == ev;
    }
  }

  // The segments and the tail of a whole stream.
  function Split(ev: seq<Event>): (seq<Segment>, Tail)
    decreases |ev|
  {
    FirstRenders(ev);
    match First(ev)
    case Seg(s) =>
      var (segs, tail) := Split(ev[|Render(s)|..]);
      ([s] + segs, tail)
    case Last(t) => ([], t)
  }

  lemma {:induction false} SplitRenders(ev: seq<Event>)
    ensures var (segs, tail) := Split(ev);
      AllValid(segs) && ValidTail(tail) && RenderAll(segs) + RenderTail(tail) == ev
    decreases |ev|
  {
    hide First, Render, RenderTail, ValidSegment, ValidTail;
    FirstRenders(ev);
    if First(ev).Seg? {
      var s := First(ev).seg;
      var rest := ev[|Render(s)|..];
      SplitRenders(rest);
      var (segs, tail) := Split(rest);
      assert ([s] + segs)[1..] == segs;
      assert ev == Render(s) + rest;
    }
  }

  // ----- uniqueness -----

  lemma {:induction false} ByteRunOfBytes(part: seq<bv8>, rest: seq<Event>, n: nat)
    requires |part| <= n
    requires |part| == n || |rest| == 0 || rest[0].Timeout?
    ensures ByteRun(AsEvents(part) + rest, n) == |part|
    decreases |part|
  {
    var ev := AsEvents(part) + rest;
    if |part| > 0 {
      assert ev[1..] == AsEvents(part[1..]) + rest;
      ByteRunOfBytes(part[1..], rest, n - 1);
    }
  }

  lemma {:induction false} HuntRunOfHunt(hunt: seq<Event>, rest: seq<Event>)
    requires NoSync(hunt) && (|rest| > 0 ==> rest[0] == Data(SYNC))
    ensures HuntRun(hunt + rest) == |hunt|
  {
    if |hunt| > 0 {
      assert (hunt + rest)[1..] == hunt[1..] + rest;
      HuntRunOfHunt(hunt[1..], rest);
    }
  }

  lemma PayloadOfBytes(part: seq<bv8>, rest: seq<Event>)
    ensures (AsEvents(part) + rest)[..|part|] == AsEvents(part)
    ensures Payload(AsEvents(part)) == part
  {}

  lemma FirstOfFrame(frame: seq<bv8>, rest: seq<Event>)
    requires Framed(frame)
    ensures First(SYNCS + AsEvents(frame) + rest) == Seg(if CrcOk(frame) then Good(frame) else Corrupt(frame))
  {
    hide CrcOk, ByteRun, Payload;
    var l, part := frame[0], frame[1..];
    var ev := SYNCS + AsEvents(frame) + rest;
    assert frame == [l] + part;
    BytesSplit([l], part);
    assert ev[3..] == AsEvents(part) + rest;
    ByteRunOfBytes(part, rest, l as int - 1);
    PayloadOfBytes(part, rest);
  }

  lemma FirstOfCut(l: bv8, part: seq<bv8>, rest: seq<Event>)
    requires l as int >= MIN_FRAME_SIZE && |part| < l as int - 1
    ensures First(SYNCS + [Data(l)] + (AsEvents(part) + [Timeout]) + rest) == Seg(Cut(l, part))
  {
    hide CrcOk, ByteRun, Payload, AsEvents;
    var ev := SYNCS + [Data(l)] + (AsEvents(part) + [Timeout]) + rest;
    assert ev[3..] == AsEvents(part) + ([Timeout] + rest);
    ByteRunOfBytes(part, [Timeout] + rest, l as int - 1);
    PayloadOfBytes(part, [Timeout] + rest);
  }

  // A valid segment is what First finds, whatever follows it.
  lemma FirstOfSegment(s: Segment, rest: seq<Event>)
    requires ValidSegment(s)
    ensures First(Render(s) + rest) == Seg(s)
  {
    hide CrcOk, AsEvents, AfterLength;
    match s
    case Good(frame) => FirstOfFrame(frame, rest);
    case Corrupt(frame) => FirstOfFrame(frame, rest);
    case Cut(l, part) =>
      assert Render(s) == SYNCS + [Data(l)] + (AsEvents(part) + [Timeout]);
      FirstOfCut(l, part, rest);
    case _ =>
  }

  lemma FirstOfUnfinished(l: bv8, part: seq<bv8>)
    requires l as int >= MIN_FRAME_SIZE && |part| < l as int - 1
    ensures First(AsEvents([SYNC, SYNC, l] + part)) == Last(Unfinished([SYNC, SYNC, l] + part))
  {
    hide CrcOk, ByteRun, Payload, AsEvents;
    var ev := SYNCS + [Data(l)] + AsEvents(part);
    PartRenders(l, part);
    assert ev[3..] == AsEvents(part) + [];
    ByteRunOfBytes(part, [], l as int - 1);
    PayloadOfBytes(part, []);
  }

  lemma StuckOpen(hunt: seq<Event>)
    requires NoSync(hunt)
    ensures AfterSyncTimeout(hunt) == Stuck(hunt, false, [])
  {
    hide HuntRun;
    assert hunt == hunt + [] && hunt[..|hunt|] == hunt;
    HuntRunOfHunt(hunt, []);
  }

  lemma StuckBlocked(hunt: seq<Event>, unread: seq<Event>)
    requires NoSync(hunt)
    ensures AfterSyncTimeout(hunt + ([Data(SYNC)] + unread)) == Stuck(hunt, true, unread)
  {
    hide HuntRun;
    var ev := hunt + ([Data(SYNC)] + unread);
    HuntRunOfHunt(hunt, [Data(SYNC)] + unread);
    assert ev[..|hunt|] == hunt && ev[|hunt| + 1..] == unread;
  }

  lemma FirstAfterSyncTimeout(ev: seq<Event>)
    ensures First([Data(SYNC), Timeout] + ev) == Last(AfterSyncTimeout(ev))
  {
    hide AfterSyncTimeout, AfterLength;
    assert ([Data(SYNC), Timeout] + ev)[2..] == ev;
  }

  lemma FirstOfStuck(hunt: seq<Event>, blocked: bool, unread: seq<Event>)
    requires NoSync(hunt) && (!blocked ==> |unread| == 0)
    ensures First(RenderTail(Stuck(hunt, blocked, unread))) == Last(Stuck(hunt, blocked, unread))
  {
    hide First, AfterSyncTimeout, NoSync;
    if blocked {
      StuckBlocked(hunt, unread);
      FirstAfterSyncTimeout(hunt + ([Data(SYNC)] + unread));
    } else {
      StuckOpen(hunt);
      assert hunt + [] == hunt && unread == [];
      FirstAfterSyncTimeout(hunt);
    }
  }

  // A valid tail is what First finds when nothing else is left.
  lemma FirstOfTail(t: Tail)
    requires ValidTail(t)
    ensures First(RenderTail(t)) == Last(t)
  {
    hide AfterLength, AfterSyncTimeout;
    match t
    case Unfinished(bs) =>
      if |bs| > 2 {
        assert bs == [SYNC, SYNC, bs[2]] + bs[3..];
        FirstOfUnfinished(bs[2], bs[3..]);
      } else {
        assert bs == [] || bs == [SYNC] || bs == [SYNC, SYNC];
      }
    case Stuck(hunt, blocked, unread) => FirstOfStuck(hunt, blocked, unread);
  }

  // There is no other way to read the stream.
  lemma {:induction false} SplitUnique(segs: seq<Segment>, tail: Tail)
    requires AllValid(segs) && ValidTail(tail)
    ensures Split(RenderAll(segs) + RenderTail(tail)) == (segs, tail)
    decreases |segs|
  {
    hide First, Render, RenderTail, ValidSegment, ValidTail;
    var ev := RenderAll(segs) + RenderTail(tail);
    if |segs| == 0 {
      assert ev == RenderTail(tail);
      FirstOfTail(tail);
    } else {
      var rest := RenderAll(segs[1..]) + RenderTail(tail);
      assert ev == Render(segs[0]) + rest;
      assert ValidSegment(segs[0]);
      FirstOfSegment(segs[0], rest);
      SplitUnique(segs[1..], tail);
      assert ev[|Render(segs[0])|..] == rest;
      assert segs == [segs[0]] + segs[1..];
    }
  }
}
