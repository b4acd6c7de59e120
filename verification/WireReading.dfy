/**
 The wire format, byte by byte, for the reader: which payloads are messages, and which
 message each of them is.
 */
module WireReading {
  import opened BigEndian
  import opened Outcome
  import opened MessageFormat
  import opened Messages
  import opened PanicConditions
  import opened StreamGrammar
  import opened Frame
  import opened WireFormat

  // ----- the reference -----

  // Exactly the payloads that can be read.
  predicate Readable(op: bv16, bs: seq<bv8>) {
    if op == 0x0031 then |bs| >= 4
    else if op == 0x0032 then |bs| >= 3 && StatusFits(bs[3..])
    else if op == 0x0002 || op == 0xe3d9 || op == 0xe000 || op == 0xe003 then |bs| >= 2
    else if op == 0x0003 then |bs| >= 2 && StatusFits(bs[2..])
    else if op == 0xefff then |bs| > 0 && |bs| >= 1 + bs[0] as int && StatusFits(bs[1 + bs[0] as int..])
    else if op == 0x0286 || op == 0xf003 || op == 0x1645 then true
    else if op == 0x0287 then |bs| >= 7 && 0x01 <= bs[2] <= 0x05
    else if op == 0x0033 || op == 0xe00b || op == 0xe3e7 || op == 0xe3e8 then |bs| >= 1
    else if op == 0x0034 then |bs| > 0 && |bs| >= 1 + bs[0] as int
    else if op == 0xe001 then |bs| >= 9
    else if op == 0xe002 then |bs| >= 10
    else if op == 0xe00a then |bs| >= 16
    else if op == 0xf004 then 8 <= |bs| <= 71
    else if op == 0x1646 then |bs| >= 9
    else if op == 0x1647 then |bs| >= 8
    else false
  }

  // What they mean. Whatever is left over is ignored.
  function Meaning(op: bv16, bs: seq<bv8>): Message
    requires Readable(op, bs)
  {
    if op == 0x0031 then SingleChannelControlCommand(bs[0], bs[1], Word(bs[2], bs[3]))
    else if op == 0x0032 then SingleChannelControlResponse(bs[0], bs[1] == 0xf8, bs[2], StatusIn(bs[3..]))
    else if op == 0x0002 then SceneControl(bs[0], bs[1])
    else if op == 0x0003 then SceneControlResponse(bs[0], bs[1], StatusIn(bs[2..]))
    else if op == 0xefff then
      var n := 1 + bs[0] as int;
      ZoneBeastBroadcast(bs[1..n], StatusIn(bs[n..]))
    else if op == 0x0286 then QueryModules
    else if op == 0x0287 then
      if bs[2] <= 0x02 then QueryModulesResponse(bs[0], bs[1], bs[2], bs[3], 0, 0)
      else if bs[2] == 0x03 then QueryModulesResponse(bs[0], bs[1], bs[2], 0, bs[3], bs[4])
      else QueryModulesResponse(bs[0], bs[1], bs[2], 0, 0, 0)
    else if op == 0xe3d9 then PanelControlResponse(bs[0], bs[1])
    else if op == 0x0033 then QueryChannelStatuses(bs[0])
    else if op == 0x0034 then QueryChannelStatusesResponse(bs[1..1 + bs[0] as int])
    else if op == 0xe000 then QueryPanelButtonAssignment(bs[0], bs[1])
    else if op == 0xe001 then
      QueryPanelButtonAssignmentResponse(bs[0], bs[1], bs[2], bs[3], bs[4], bs[5], bs[6], Word(bs[7], bs[8]))
    else if op == 0xe002 then
      AssignPanelButton(bs[0], bs[1], bs[2], bs[3], bs[4], bs[5], bs[6], Word(bs[7], bs[8]), bs[9])
    else if op == 0xe003 then AssignPanelButtonResponse(bs[0], bs[1])
    else if op == 0xe00a then SetPanelButtonModes(NamesOf(bs[..16]))
    else if op == 0xe00b then SetPanelButtonModesResponse(bs[0] == 0xf8)
    else if op == 0xf003 then ReadMACAddress
    else if op == 0xf004 then ReadMACAddressResponse(bs[..8], bs[8..])
    else if op == 0xe3e7 then ReadTemperatureValues(bs[0] == 0x01)
    else if op == 0xe3e8 then ReadTemperatureValuesResponse(bs[0] == 0x01, SignedAll(bs[1..Min(|bs|, 9)]))
    else if op == 0x1645 then ReadSensorStatus
    else if op == 0x1646 then
      ReadSensorStatusResponse(bs[0] == 0xf8, bs[1] as int - 20, Word(bs[2], bs[3]),
        bs[4] == 0x01, bs[5] == 0x01, bs[6] == 0x01, bs[7], bs[8])
    else
      SensorStatusBroadcast(bs[0] as int - 20, Word(bs[1], bs[2]), bs[3] == 0x01, bs[4] == 0x01, bs[5] ==
          0x01, bs[6], bs[7])
  }

  ghost predicate Agrees(op: bv16, bs: seq<bv8>) {
    && (DecodeMessage(op, bs).Ok? <==> Readable(op, bs))
    && (Readable(op, bs) ==> DecodeMessage(op, bs) == Ok(Meaning(op, bs)))
  }

  // ----- fields of a fixed size -----

  // What the layout reads from the first n bytes; fewer are too few.
  ghost predicate ReadsAs(layout: seq<Kind>, bs: seq<bv8>, n: nat, vs: seq<Value>) {
    if |bs| < n then !DecodeAll(layout, bs).Ok? else DecodeAll(layout, bs) == Ok(vs)
  }

  lemma ReadsNothing(bs: seq<bv8>)
    ensures ReadsAs([], bs, 0, [])
  {}

  function Width(k: Kind): nat { if k.KUint16? then 2 else 1 }

  predicate Fixed(k: Kind) { k.KUint8? || k.KUint16? || k.KFlag? || k.KSuccess? || k.KSensorTemp? }

  function ValueAt(k: Kind, bs: seq<bv8>): Value
    requires Fixed(k) && |bs| >= Width(k)
  {
    match k
    case KUint16 => Uint16(Word(bs[0], bs[1]))
    case KFlag => Bool(bs[0] == 0x01)
    case KSuccess => Bool(bs[0] == 0xf8)
    case KSensorTemp => Int(bs[0] as int - 20)
    case _ => Uint8(bs[0])
  }

  lemma FixedField(k: Kind, bs: seq<bv8>)
    requires Fixed(k)
    ensures if |bs| < Width(k) then Decode(k, bs).Err? else Decode(k, bs) == Ok((ValueAt(k, bs), bs[Width(k)..]))
  {}

  // One more field of a fixed size in front.
  lemma ReadsFront(k: Kind, layout: seq<Kind>, bs: seq<bv8>, n: nat, vs: seq<Value>,
                   layout': seq<Kind>, n': nat, vs': seq<Value>)
    requires Fixed(k) && layout' == [k] + layout && n' == Width(k) + n
    requires |bs| >= Width(k) ==> ReadsAs(layout, bs[Width(k)..], n, vs)
    requires |bs| >= n' ==> vs' == [ValueAt(k, bs)] + vs
    ensures ReadsAs(layout', bs, n', vs')
  {
    hide Decode, DecodeAll, ValueAt;
    FixedField(k, bs);
    ReadOne(k, layout, bs);
  }

  lemma ReadsRun(n: nat, bs: seq<bv8>)
    ensures ReadsAs(Run(n), bs, n, if |bs| >= n then Plain(bs[..n]) else [])
  {
    hide DecodeAll, Run, Plain;
    NoFields();
    ReadRun(n, [], bs);
    assert Run(n) + [] == Run(n);
    if |bs| >= n { assert Plain(bs[..n]) + [] == Plain(bs[..n]); }
  }

  // ----- message by message -----

  // From the fields to the message.
  lemma ReadsMessage(t: Type, bs: seq<bv8>, n: nat, vs: seq<Value>)
    requires ReadsAs(Layout(t), bs, n, vs)
    ensures |bs| < n ==> !DecodeMessage(OpcodeOf(t), bs).Ok?
    ensures |bs| >= n ==> HasLayout(vs, Layout(t)) && DecodeMessage(OpcodeOf(t), bs) == FromFields(t, vs)
  {
    hide DecodeAll, FromFields, Layout, Recognize, OpcodeOf, HasLayout;
    RecognizeOpcode(t);
    if |bs| >= n {
      DecodedLayout(Layout(t), bs);
    }
  }

  lemma SceneReads(bs: seq<bv8>)
    ensures Agrees(0x0002, bs)
  {
    hide DecodeMessage, DecodeAll, HasLayout;
    Runs();
    ReadsRun(2, bs);
    ReadsMessage(TSceneControl, bs, 2, if |bs| >= 2 then Plain(bs[..2]) else []);
  }

  lemma PanelReads(bs: seq<bv8>)
    ensures Agrees(0xe3d9, bs)
  {
    hide DecodeMessage, DecodeAll, HasLayout;
    Runs();
    ReadsRun(2, bs);
    ReadsMessage(TPanelControlResponse, bs, 2, if |bs| >= 2 then Plain(bs[..2]) else []);
  }

  lemma QueryReads(bs: seq<bv8>)
    ensures Agrees(0xe000, bs)
  {
    hide DecodeMessage, DecodeAll, HasLayout;
    Runs();
    ReadsRun(2, bs);
    ReadsMessage(TQueryPanelButtonAssignment, bs, 2, if |bs| >= 2 then Plain(bs[..2]) else []);
  }

  lemma AssignedReads(bs: seq<bv8>)
    ensures Agrees(0xe003, bs)
  {
    hide DecodeMessage, DecodeAll, HasLayout;
    Runs();
    ReadsRun(2, bs);
    ReadsMessage(TAssignPanelButtonResponse, bs, 2, if |bs| >= 2 then Plain(bs[..2]) else []);
  }

  lemma StatusesReads(bs: seq<bv8>)
    ensures Agrees(0x0033, bs)
  {
    hide DecodeMessage, DecodeAll, HasLayout;
    Runs();
    ReadsRun(1, bs);
    ReadsMessage(TQueryChannelStatuses, bs, 1, if |bs| >= 1 then Plain(bs[..1]) else []);
  }

  lemma ModulesReads(bs: seq<bv8>)
    ensures Agrees(0x0287, bs)
  {
    hide DecodeMessage, DecodeAll, HasLayout;
    Runs();
    ReadsRun(7, bs);
    ReadsMessage(TQueryModulesResponse, bs, 7, if |bs| >= 7 then Plain(bs[..7]) else []);
  }

  lemma EmptyReads(op: bv16, bs: seq<bv8>)
    requires op == 0x0286 || op == 0xf003 || op == 0x1645
    ensures Agrees(op, bs)
  {
    hide DecodeMessage, DecodeAll;
    ReadsNothing(bs);
    ReadsMessage(if op == 0x0286 then TQueryModules else if op == 0xf003 then TReadMACAddress
        else TReadSensorStatus, bs, 0, []);
  }

  lemma OneFixedReads(k: Kind, bs: seq<bv8>)
    requires Fixed(k)
    ensures ReadsAs([k], bs, Width(k), if |bs| >= Width(k) then [ValueAt(k, bs)] else [])
  {
    hide DecodeAll, ValueAt;
    if |bs| >= Width(k) {
      ReadsNothing(bs[Width(k)..]);
      assert [ValueAt(k, bs)] + [] == [ValueAt(k, bs)];
    }
    ReadsFront(k, [], bs, 0, [], [k], Width(k), if |bs| >= Width(k) then [ValueAt(k, bs)] else []);
  }

  lemma FlagMessages(op: bv16, bs: seq<bv8>)
    requires op == 0xe00b || op == 0xe3e7
    ensures Agrees(op, bs)
  {
    hide DecodeMessage, DecodeAll, HasLayout;
    var t, k := if op == 0xe00b then TSetPanelButtonModesResponse
        else TReadTemperatureValues, if op == 0xe00b then KSuccess else KFlag;
    OneFixedReads(k, bs);
    ReadsMessage(t, bs, 1, if |bs| >= 1 then [ValueAt(k, bs)] else []);
  }

  // A run of bytes, and a layout behind it.
  lemma ReadsAfterRun(run: nat, layout: seq<Kind>, bs: seq<bv8>, n: nat, vs: seq<Value>,
                      layout': seq<Kind>, vs': seq<Value>)
    requires layout' == Run(run) + layout
    requires |bs| >= run ==> ReadsAs(layout, bs[run..], n, vs)
    requires |bs| >= run + n ==> vs' == Plain(bs[..run]) + vs
    ensures ReadsAs(layout', bs, run + n, vs')
  {
    hide DecodeAll, Run, Plain;
    ReadRun(run, layout, bs);
  }

  lemma CommandReads(bs: seq<bv8>)
    ensures Agrees(0x0031, bs)
  {
    hide DecodeMessage, DecodeAll, HasLayout, Word;
    Runs();
    var vs := if |bs| >= 4 then [Uint8(bs[0]), Uint8(bs[1]), Uint16(Word(bs[2], bs[3]))] else [];
    if |bs| >= 2 {
      OneFixedReads(KUint16, bs[2..]);
    }
    ReadsAfterRun(2, [KUint16], bs, 2, if |bs| >= 4 then [Uint16(Word(bs[2], bs[3]))]
        else [], [KUint8, KUint8, KUint16], vs);
    ReadsMessage(TSingleChannelControlCommand, bs, 4, vs);
  }

  lemma SevenAndWord(bs: seq<bv8>, more: seq<Kind>, n: nat, vs: seq<Value>)
    requires |bs| >= 9 ==> ReadsAs(more, bs[9..], n, vs)
    ensures ReadsAs([KUint8, KUint8, KUint8, KUint8, KUint8, KUint8, KUint8, KUint16] + more, bs, 9 + n,
      if |bs| >= 9 + n then Plain(bs[..7]) + ([Uint16(Word(bs[7], bs[8]))] + vs) else [])
  {
    hide DecodeAll, Word, Plain;
    Runs();
    var mid := if |bs| >= 9 + n then [Uint16(Word(bs[7], bs[8]))] + vs else [];
    if |bs| >= 7 {
      if |bs| >= 9 { assert bs[7..][2..] == bs[9..]; }
      ReadsFront(KUint16, more, bs[7..], n, vs, [KUint16] + more, 2 + n, mid);
    }
    ReadsAfterRun(7, [KUint16] + more, bs, 2 + n, mid,
      [KUint8, KUint8, KUint8, KUint8, KUint8, KUint8, KUint8, KUint16] + more,
      if |bs| >= 9 + n then Plain(bs[..7]) + mid else []);
  }

  lemma ButtonReads(bs: seq<bv8>)
    ensures Agrees(0xe001, bs)
  {
    hide DecodeMessage, DecodeAll, HasLayout, Word;
    var layout := [KUint8, KUint8, KUint8, KUint8, KUint8, KUint8, KUint8, KUint16];
    if |bs| >= 9 { ReadsNothing(bs[9..]); }
    SevenAndWord(bs, [], 0, []);
    assert layout + [] == layout;
    ReadsMessage(TQueryPanelButtonAssignmentResponse, bs, 9,
      if |bs| >= 9 then Plain(bs[..7]) + ([Uint16(Word(bs[7], bs[8]))] + []) else []);
  }

  lemma AssignReads(bs: seq<bv8>)
    ensures Agrees(0xe002, bs)
  {
    hide DecodeMessage, DecodeAll, HasLayout, Word;
    if |bs| >= 9 { OneFixedReads(KUint8, bs[9..]); }
    var last := if |bs| >= 10 then [Uint8(bs[9])] else [];
    SevenAndWord(bs, [KUint8], 1, last);
    assert Layout(TAssignPanelButton) ==
      [KUint8, KUint8, KUint8, KUint8, KUint8, KUint8, KUint8, KUint16] + [KUint8];
    ReadsMessage(TAssignPanelButton, bs, 10,
      if |bs| >= 10 then Plain(bs[..7]) + ([Uint16(Word(bs[7], bs[8]))] + last) else []);
  }

  lemma FlagsRead(bs: seq<bv8>)
    ensures ReadsAs([KFlag, KFlag, KFlag, KUint8, KUint8], bs, 5,
      if |bs| >= 5 then [Bool(bs[0] == 0x01), Bool(bs[1] == 0x01), Bool(bs[2] ==
          0x01), Uint8(bs[3]), Uint8(bs[4])] else [])
  {
    hide DecodeAll;
    Runs();
    var r := if |bs| >= 5 then [Uint8(bs[3]), Uint8(bs[4])] else [];
    var r1 := if |bs| >= 5 then [Bool(bs[2] == 0x01)] + r else [];
    var r2 := if |bs| >= 5 then [Bool(bs[1] == 0x01)] + r1 else [];
    if |bs| >= 3 {
      ReadsRun(2, bs[3..]);
      assert bs[2..][1..] == bs[3..];
      if |bs| >= 5 { assert Plain(bs[3..][..2]) == r; }
    }
    if |bs| >= 2 {
      assert bs[1..][1..] == bs[2..];
      ReadsFront(KFlag, [KUint8, KUint8], bs[2..], 2, r, [KFlag, KUint8, KUint8], 3, r1);
    }
    if |bs| >= 1 { ReadsFront(KFlag, [KFlag, KUint8, KUint8], bs[1..], 3, r1, [KFlag, KFlag, KUint8, KUint8], 4, r2); }
    ReadsFront(KFlag, [KFlag, KFlag, KUint8, KUint8], bs, 4, r2, [KFlag, KFlag, KFlag, KUint8, KUint8], 5,
      if |bs| >= 5 then [Bool(bs[0] == 0x01)] + r2 else []);
    if |bs| >= 5 {
      assert [Bool(bs[0] == 0x01)] + r2 ==
        [Bool(bs[0] == 0x01), Bool(bs[1] == 0x01), Bool(bs[2] == 0x01), Uint8(bs[3]), Uint8(bs[4])];
    }
  }

  // The fields of a sensor broadcast.
  function SensorValues(bs: seq<bv8>): seq<Value>
    requires |bs| >= 8
  {
    [Int(bs[0] as int - 20), Uint16(Word(bs[1], bs[2])), Bool(bs[3] == 0x01), Bool(bs[4] == 0x01), Bool(bs[5] == 0x01),
     Uint8(bs[6]), Uint8(bs[7])]
  }

  lemma SensorRead(bs: seq<bv8>)
    ensures ReadsAs([KSensorTemp, KUint16, KFlag, KFlag, KFlag, KUint8, KUint8], bs, 8,
        if |bs| >= 8 then SensorValues(bs) else [])
  {
    hide DecodeAll, Word;
    var flags := if |bs| >= 8 then [Bool(bs[3] == 0x01), Bool(bs[4] == 0x01), Bool(bs[5] ==
        0x01), Uint8(bs[6]), Uint8(bs[7])] else [];
    var light := if |bs| >= 8 then [Uint16(Word(bs[1], bs[2]))] + flags else [];
    if |bs| >= 3 { FlagsRead(bs[3..]); }
    if |bs| >= 1 {
      if |bs| >= 3 { assert bs[1..][2..] == bs[3..]; }
      ReadsFront(KUint16, [KFlag, KFlag, KFlag, KUint8, KUint8], bs[1..], 5, flags,
        [KUint16, KFlag, KFlag, KFlag, KUint8, KUint8], 7, light);
    }
    ReadsFront(KSensorTemp, [KUint16, KFlag, KFlag, KFlag, KUint8, KUint8], bs, 7, light,
      [KSensorTemp, KUint16, KFlag, KFlag, KFlag, KUint8, KUint8], 8, if |bs| >= 8 then SensorValues(bs) else []);
  }

  lemma BroadcastReads(bs: seq<bv8>)
    ensures Agrees(0x1647, bs)
  {
    hide DecodeMessage, DecodeAll, HasLayout, Word;
    SensorRead(bs);
    ReadsMessage(TSensorStatusBroadcast, bs, 8, if |bs| >= 8 then SensorValues(bs) else []);
  }

  lemma SensorReads(bs: seq<bv8>)
    ensures Agrees(0x1646, bs)
  {
    hide DecodeMessage, DecodeAll, HasLayout, Word;
    if |bs| >= 1 { SensorRead(bs[1..]); }
    var vs := if |bs| >= 9 then [Bool(bs[0] == 0xf8)] + SensorValues(bs[1..]) else [];
    ReadsFront(KSuccess, [KSensorTemp, KUint16, KFlag, KFlag, KFlag, KUint8, KUint8], bs, 8,
      if |bs| >= 9 then SensorValues(bs[1..]) else [],
      [KSuccess, KSensorTemp, KUint16, KFlag, KFlag, KFlag, KUint8, KUint8], 9, vs);
    ReadsMessage(TReadSensorStatusResponse, bs, 9, vs);
  }

  // ----- fields that are as long as they say -----

  lemma StatusReads(bs: seq<bv8>)
    ensures DecodeAll([KChannelStatus], bs).Ok? <==> StatusFits(bs)
    ensures StatusFits(bs) ==> DecodeAll([KChannelStatus], bs) == Ok([Bools(StatusIn(bs))])
  {
    hide StatusSize, Unpack;
    ReadOne(KChannelStatus, [], bs);
    NoFields();
    assert [KChannelStatus] + [] == [KChannelStatus];
    if |bs| > 0 {
      StatusSizeIs(bs[0]);
      ByteOrder(bs[0]);
      var n := (bs[0] as int + 7) / 8;
      if StatusFits(bs) { assert bs[1..][..n] == bs[1..1 + n]; }
    }
    if StatusFits(bs) { assert [Bools(StatusIn(bs))] + [] == [Bools(StatusIn(bs))]; }
  }

  lemma ChannelsReads(bs: seq<bv8>)
    ensures Agrees(0x0003, bs)
  {
    hide DecodeAll, HasLayout, StatusIn, StatusFits;
    Runs();
    assert Layout(TSceneControlResponse) == Run(2) + [KChannelStatus];
    ReadRun(2, [KChannelStatus], bs);
    if |bs| >= 2 {
      StatusReads(bs[2..]);
      if StatusFits(bs[2..]) {
        DecodedLayout(Layout(TSceneControlResponse), bs);
        assert Plain(bs[..2]) + [Bools(StatusIn(bs[2..]))] == [Uint8(bs[0]), Uint8(bs[1]), Bools(StatusIn(bs[2..]))];
      }
    }
  }

  lemma ResponseReads(bs: seq<bv8>)
    ensures Agrees(0x0032, bs)
  {
    hide DecodeAll, Decode, HasLayout, StatusIn, StatusFits;
    var layout := [KUint8, KSuccess, KUint8, KChannelStatus];
    var l1, l2 := [KSuccess, KUint8, KChannelStatus], [KUint8, KChannelStatus];
    assert layout == [KUint8] + l1 && l1 == [KSuccess] + l2 && l2 == [KUint8] + [KChannelStatus];
    ReadOne(KUint8, l1, bs);
    FixedField(KUint8, bs);
    if |bs| >= 1 {
      ReadOne(KSuccess, l2, bs[1..]);
      FixedField(KSuccess, bs[1..]);
    }
    if |bs| >= 2 {
      assert bs[1..][1..] == bs[2..];
      ReadOne(KUint8, [KChannelStatus], bs[2..]);
      FixedField(KUint8, bs[2..]);
    }
    if |bs| >= 3 {
      assert bs[2..][1..] == bs[3..];
      StatusReads(bs[3..]);
      if StatusFits(bs[3..]) {
        DecodedLayout(layout, bs);
        assert DecodeAll(layout, bs).value == [Uint8(bs[0]), Bool(bs[1] ==
            0xf8), Uint8(bs[2]), Bools(StatusIn(bs[3..]))];
      }
    }
  }

  // A count and as many bytes.
  lemma CountedField(bs: seq<bv8>)
    ensures Decode(KStatusBytes, bs).Ok? <==> |bs| > 0 && |bs| >= 1 + bs[0] as int
    ensures Decode(KStatusBytes, bs).Ok? ==>
      Decode(KStatusBytes, bs) == Ok((Value.Bytes(bs[1..1 + bs[0] as int]), bs[1 + bs[0] as int..]))
  {
    if |bs| > 0 {
      ByteOrder(bs[0]);
      Counted(bs, bs[0] as int);
    }
  }

  lemma Counted(bs: seq<bv8>, n: nat)
    requires |bs| > 0 && n == bs[0] as int && (n == 0 <==> bs[0] == 0)
    ensures Decode(KStatusBytes, bs).Ok? <==> |bs| >= 1 + n
    ensures |bs| >= 1 + n ==> Decode(KStatusBytes, bs) == Ok((Value.Bytes(bs[1..1 + n]), bs[1 + n..]))
  {
    if |bs| >= 1 + n {
      assert bs[1..][..n] == bs[1..1 + n] && bs[1..][n..] == bs[1 + n..];
    }
  }

  lemma LevelsReads(bs: seq<bv8>)
    ensures Agrees(0x0034, bs)
  {
    hide DecodeAll, Decode, HasLayout;
    ReadOne(KStatusBytes, [], bs);
    NoFields();
    CountedField(bs);
    assert [KStatusBytes] + [] == [KStatusBytes];
    if Decode(KStatusBytes, bs).Ok? {
      DecodedLayout([KStatusBytes], bs);
    }
  }

  lemma ZonesFields(bs: seq<bv8>, n: nat)
    requires |bs| > 0 && n == 1 + bs[0] as int
    ensures DecodeAll([KStatusBytes, KChannelStatus], bs).Ok? <==> |bs| >= n && StatusFits(bs[n..])
    ensures |bs| >= n && StatusFits(bs[n..]) ==>
      DecodeAll([KStatusBytes, KChannelStatus], bs) == Ok([Value.Bytes(bs[1..n]), Bools(StatusIn(bs[n..]))])
  {
    hide DecodeAll, Decode, StatusIn, StatusFits;
    ReadOne(KStatusBytes, [KChannelStatus], bs);
    CountedField(bs);
    assert [KStatusBytes] + [KChannelStatus] == [KStatusBytes, KChannelStatus];
    if |bs| >= n {
      var zones, rest := Value.Bytes(bs[1..n]), bs[n..];
      assert Decode(KStatusBytes, bs) == Ok((zones, rest));
      StatusReads(rest);
      if StatusFits(rest) {
        assert [zones] + [Bools(StatusIn(rest))] == [zones, Bools(StatusIn(rest))];
      }
    }
  }

  lemma NoZones()
    ensures !DecodeAll([KStatusBytes, KChannelStatus], []).Ok?
  {
    hide DecodeAll;
    ReadOne(KStatusBytes, [KChannelStatus], []);
    assert [KStatusBytes] + [KChannelStatus] == [KStatusBytes, KChannelStatus];
  }

  lemma ZonesReads(bs: seq<bv8>)
    ensures Agrees(0xefff, bs)
  {
    hide DecodeAll, HasLayout, StatusIn, StatusFits;
    if |bs| == 0 {
      NoZones();
      assert bs == [];
    } else {
      ZonesFields(bs, 1 + bs[0] as int);
      if Readable(0xefff, bs) {
        DecodedLayout([KStatusBytes, KChannelStatus], bs);
      }
    }
  }

  lemma ModesReads(bs: seq<bv8>)
    ensures Agrees(0xe00a, bs)
  {
    hide DecodeAll, HasLayout, NamesOf;
    ReadOne(KModes, [], bs);
    NoFields();
    assert [KModes] + [] == [KModes];
    if |bs| >= 16 { DecodedLayout([KModes], bs); }
  }

  lemma AddressReads(bs: seq<bv8>)
    ensures Agrees(0xf004, bs)
  {
    hide DecodeAll, HasLayout;
    ReadOne(KBytes8, [KRemark], bs);
    NoFields();
    assert [KBytes8] + [KRemark] == [KBytes8, KRemark] && [KRemark] + [] == [KRemark];
    if |bs| >= 8 {
      ReadOne(KRemark, [], bs[8..]);
      if |bs| <= 71 { DecodedLayout([KBytes8, KRemark], bs); }
    }
  }

  lemma TemperaturesReads(bs: seq<bv8>)
    ensures Agrees(0xe3e8, bs)
  {
    hide DecodeAll, HasLayout, SignedAll;
    ReadOne(KFlag, [KTempList], bs);
    FixedField(KFlag, bs);
    NoFields();
    assert [KFlag] + [KTempList] == [KFlag, KTempList] && [KTempList] + [] == [KTempList];
    if |bs| >= 1 {
      ReadOne(KTempList, [], bs[1..]);
      assert bs[1..][..Min(|bs[1..]|, 8)] == bs[1..Min(|bs|, 9)];
      DecodedLayout([KFlag, KTempList], bs);
    }
  }

  lemma UnknownReads(op: bv16, bs: seq<bv8>)
    requires !Recognize(op).Ok?
    ensures Agrees(op, bs)
  {
    hide DecodeAll;
  }

  // Every payload under every opcode is read exactly if it is readable, and then as what
  // it means.
  lemma MeaningIs(op: bv16, bs: seq<bv8>)
    ensures DecodeMessage(op, bs).Ok? <==> Readable(op, bs)
    ensures Readable(op, bs) ==> DecodeMessage(op, bs) == Ok(Meaning(op, bs))
  {
    hide DecodeMessage, Readable, Meaning, Recognize;
    assert Agrees(op, bs) by {
      if !Recognize(op).Ok? {
        UnknownReads(op, bs);
      } else {
        RecognizedOpcode(op);
        match Recognize(op).value
        case TSingleChannelControlCommand => CommandReads(bs);
        case TSingleChannelControlResponse => ResponseReads(bs);
        case TSceneControl => SceneReads(bs);
        case TSceneControlResponse => ChannelsReads(bs);
        case TZoneBeastBroadcast => ZonesReads(bs);
        case TQueryModulesResponse => ModulesReads(bs);
        case TPanelControlResponse => PanelReads(bs);
        case TQueryChannelStatuses => StatusesReads(bs);
        case TQueryChannelStatusesResponse => LevelsReads(bs);
        case TQueryPanelButtonAssignment => QueryReads(bs);
        case TQueryPanelButtonAssignmentResponse => ButtonReads(bs);
        case TAssignPanelButton => AssignReads(bs);
        case TAssignPanelButtonResponse => AssignedReads(bs);
        case TSetPanelButtonModes => ModesReads(bs);
        case TSetPanelButtonModesResponse => FlagMessages(op, bs);
        case TReadMACAddressResponse => AddressReads(bs);
        case TReadTemperatureValues => FlagMessages(op, bs);
        case TReadTemperatureValuesResponse => TemperaturesReads(bs);
        case TReadSensorStatusResponse => SensorReads(bs);
        case TSensorStatusBroadcast => BroadcastReads(bs);
        case _ => EmptyReads(op, bs);
      }
    }
  }

  // The same for whole frames: the header lies where FrameIs puts it, and the payload
  // decides.
  lemma ParsedFrame(frame: seq<bv8>)
    ensures ParseFrame(frame).Ok? <==>
      |frame| >= 11 && Readable(Word(frame[5], frame[6]), frame[9..|frame| - 2])
    ensures ParseFrame(frame).Ok? ==>
      var op, payload := Word(frame[5], frame[6]), frame[9..|frame| - 2];
      ParseFrame(frame).value == SmartbusMessage(
        MessageHeader(frame[1], frame[2], Word(frame[3], frame[4]), op, frame[7], frame[8]), Meaning(op, payload))
  {
    hide DecodeMessage, Readable, Meaning, Word;
    if |frame| >= 11 {
      assert frame[1..|frame| - 2][8..] == frame[9..|frame| - 2];
      MeaningIs(Word(frame[5], frame[6]), frame[9..|frame| - 2]);
    }
  }
}
