/**
 The wire format, byte by byte: a second description of all messages, without layouts
 and fields, that the readers and writers agree with on every input.
 */
module WireFormat {
  import opened BigEndian
  import opened Outcome
  import opened Crc16
  import opened MessageFormat
  import opened Messages
  import opened PanicConditions
  import opened StreamGrammar
  import opened Frame

  // ----- the pieces -----

  lemma WordIs(hi: bv8, lo: bv8)
    ensures Word(hi, lo) >> 8 == hi as bv16 && Word(hi, lo) & 0xff == lo as bv16
    ensures Word(0x12, 0x34) == 0x1234 && Hi(0x1234) == 0x12 && Lo(0x1234) == 0x34
  {}

  function FlagByte(on: bool): bv8 { if on then 0x01 else 0x00 }

  function SuccessByte(ok: bool): bv8 { if ok then 0xf8 else 0xf5 }

  // Bit i of a list of statuses is bit i % 8 of byte i / 8, the lowest being bit 0.
  const POWERS: seq<bv8> := [0x01, 0x02, 0x04, 0x08, 0x10, 0x20, 0x40, 0x80]

  lemma BitIs(b: bv8, k: nat)
    requires k < 8
    ensures BitAt(b, k) <==> b & POWERS[k] != 0
  {
    if k == 0 {} else if k == 1 {} else if k == 2 {} else if k == 3 {}
    else if k == 4 {} else if k == 5 {} else if k == 6 {} else {}
  }

  // A signed byte counts up to 127, and the others are below zero.
  lemma SignedIs(b: bv8)
    ensures Signed(b) as int == if b as int < 128 then b as int else b as int - 256
  {
    ByteOfInt(b as int);
  }

  // A flag is set exactly by 0x01, a success exactly by 0xf8.
  lemma FlagReads(b: bv8, rest: seq<bv8>)
    ensures Decode(KFlag, [b] + rest) == Ok((Bool(b == 0x01), rest))
    ensures Decode(KSuccess, [b] + rest) == Ok((Bool(b == 0xf8), rest))
  {
    assert ([b] + rest)[..1] == [b] && ([b] + rest)[1..] == rest;
  }

  // The names of the modes, by their bytes; all other bytes are unmapped.
  lemma ModeBytes(b: bv8)
    ensures ModeName(0) == "Invalid" && ModeName(1) == "SingleOnOff" && ModeName(2) == "SingleOn"
    ensures ModeName(3) == "SingleOff" && ModeName(4) == "CombinationOn" && ModeName(5) == "CombinationOff"
    ensures ModeName(6) == "PressOnReleaseOff" && ModeName(7) == "CombinationOnOff"
    ensures ModeName(8) == "SeparateLeftRightPressOnReleaseOff"
    ensures ModeName(9) == "SeparateLeftRightCombinationOnOff" && ModeName(10) == "LeftOffRightOn"
    ensures b as int > 10 ==> ModeName(b) == ""
  {}

  // A status list behind its count, or nothing at all.
  function StatusBytes(status: seq<bool>): seq<bv8> {
    if |status| == 0 then [] else [Count(|status|)] + Pack(status)
  }

  predicate StatusFits(s: seq<bv8>) {
    |s| == 0 || (s[0] <= 248 && |s| >= 1 + (s[0] as int + 7) / 8)
  }

  function StatusIn(s: seq<bv8>): seq<bool>
    requires StatusFits(s)
  {
    if |s| == 0 then [] else Unpack(s[0] as int, s[1..1 + (s[0] as int + 7) / 8])
  }

  // ----- runs of plain bytes -----

  function Run(n: nat): (layout: seq<Kind>)
    ensures |layout| == n
  {
    if n == 0 then [] else [KUint8] + Run(n - 1)
  }

  function Plain(bs: seq<bv8>): (vs: seq<Value>)
    ensures |vs| == |bs|
  {
    seq(|bs|, i requires 0 <= i < |bs| => Uint8(bs[i]))
  }

  function Before<T>(done: seq<T>, more: Outcome<seq<T>>): Outcome<seq<T>> {
    if more.Ok? then Ok(done + more.value) else more
  }

  // One field, then the others.
  lemma ReadOne(k: Kind, layout: seq<Kind>, bs: seq<bv8>)
    ensures var d := Decode(k, bs);
      DecodeAll([k] + layout, bs) ==
        if d.Ok? then Before([d.value.0], DecodeAll(layout, d.value.1)) else if d.Err? then Err(d.error) else Panic
  {
    hide Decode;
    assert ([k] + layout)[1..] == layout;
  }

  lemma WriteOne(k: Kind, v: Value, layout: seq<Kind>, vs: seq<Value>)
    requires HasKind(v, k) && HasLayout(vs, layout)
    ensures HasLayout([v] + vs, [k] + layout)
    ensures Encode(k, v).Ok? ==> EncodeAll([k] + layout, [v] + vs) == Before(Encode(k, v).value, EncodeAll(layout, vs))
    ensures !Encode(k, v).Ok? ==> !EncodeAll([k] + layout, [v] + vs).Ok?
  {
    hide Encode, HasKind;
    assert ([k] + layout)[1..] == layout && ([v] + vs)[1..] == vs;
  }

  lemma ByteField(bs: seq<bv8>)
    ensures Decode(KUint8, bs) == if |bs| == 0 then Err(Eof) else Ok((Uint8(bs[0]), bs[1..]))
  {}

  lemma BeforeTwice<T>(a: seq<T>, b: seq<T>, more: Outcome<seq<T>>)
    ensures Before(a, Before(b, more)) == Before(a + b, more)
  {
    if more.Ok? { assert a + (b + more.value) == a + b + more.value; }
  }

  lemma {:induction false} ReadRun(n: nat, layout: seq<Kind>, bs: seq<bv8>)
    ensures |bs| < n ==> DecodeAll(Run(n) + layout, bs).Err?
    ensures |bs| >= n ==> DecodeAll(Run(n) + layout, bs) == Before(Plain(bs[..n]), DecodeAll(layout, bs[n..]))
    decreases n
  {
    hide Decode, DecodeAll, Before;
    if n == 0 {
      assert Run(0) + layout == layout && bs[0..] == bs;
      BeforeNothing(Plain(bs[..0]), DecodeAll(layout, bs));
    } else {
      assert Run(n) + layout == [KUint8] + (Run(n - 1) + layout);
      ReadOne(KUint8, Run(n - 1) + layout, bs);
      ByteField(bs);
      if |bs| > 0 {
        ReadRun(n - 1, layout, bs[1..]);
        BeforeErr([Uint8(bs[0])], DecodeAll(Run(n - 1) + layout, bs[1..]));
      }
      if |bs| >= n {
        assert bs[1..][n - 1..] == bs[n..];
        assert Plain(bs[..n]) == [Uint8(bs[0])] + Plain(bs[1..][..n - 1]);
        BeforeTwice([Uint8(bs[0])], Plain(bs[1..][..n - 1]), DecodeAll(layout, bs[n..]));
      }
    }
  }

  lemma BeforeNothing<T>(none: seq<T>, more: Outcome<seq<T>>)
    requires none == []
    ensures Before(none, more) == more
  {
    if more.Ok? { assert none + more.value == more.value; }
  }

  lemma BeforeErr<T>(a: seq<T>, more: Outcome<seq<T>>)
    ensures more.Err? ==> Before(a, more).Err?
  {}

  lemma {:induction false} WriteRun(bs: seq<bv8>, layout: seq<Kind>, vs: seq<Value>)
    requires HasLayout(vs, layout)
    ensures HasLayout(Plain(bs) + vs, Run(|bs|) + layout)
    ensures EncodeAll(Run(|bs|) + layout, Plain(bs) + vs) == Before(bs, EncodeAll(layout, vs))
  {
    hide EncodeAll, Before, HasLayout;
    if |bs| == 0 {
      assert Run(0) + layout == layout && Plain(bs) + vs == vs;
      BeforeNothing(bs, EncodeAll(layout, vs));
    } else {
      var rest := bs[1..];
      WriteRun(rest, layout, vs);
      assert Run(|bs|) + layout == [KUint8] + (Run(|rest|) + layout);
      assert Plain(bs) + vs == [Uint8(bs[0])] + (Plain(rest) + vs);
      WriteOne(KUint8, Uint8(bs[0]), Run(|rest|) + layout, Plain(rest) + vs);
      BeforeTwice([bs[0]], rest, EncodeAll(layout, vs));
      assert [bs[0]] + rest == bs;
    }
  }

  // ----- writing -----

  function ModeByte(name: string): bv8 {
    if name == "SingleOnOff" then 1 else if name == "SingleOn" then 2 else if name == "SingleOff" then 3
    else if name == "CombinationOn" then 4 else if name == "CombinationOff" then 5
    else if name == "PressOnReleaseOff" then 6 else if name == "CombinationOnOff" then 7
    else if name == "SeparateLeftRightPressOnReleaseOff" then 8
    else if name == "SeparateLeftRightCombinationOnOff" then 9
    else if name == "LeftOffRightOn" then 10 else 0
  }

  function ModeByteSeq(names: seq<string>): (bs: seq<bv8>)
    ensures |bs| == |names|
  {
    seq(|names|, i requires 0 <= i < |names| => ModeByte(names[i]))
  }

  function TempByte(t: int): bv8
    requires -20 <= t <= 235
  {
    (t + 20) as bv8
  }

  function Code(m: Message): bv16 {
    match m
    case SingleChannelControlCommand(_, _, _) => 0x0031
    case SingleChannelControlResponse(_, _, _, _) => 0x0032
    case SceneControl(_, _) => 0x0002
    case SceneControlResponse(_, _, _) => 0x0003
    case ZoneBeastBroadcast(_, _) => 0xefff
    case QueryModules => 0x0286
    case QueryModulesResponse(_, _, _, _, _, _) => 0x0287
    case PanelControlResponse(_, _) => 0xe3d9
    case QueryChannelStatuses(_) => 0x0033
    case QueryChannelStatusesResponse(_) => 0x0034
    case QueryPanelButtonAssignment(_, _) => 0xe000
    case QueryPanelButtonAssignmentResponse(_, _, _, _, _, _, _, _) => 0xe001
    case AssignPanelButton(_, _, _, _, _, _, _, _, _) => 0xe002
    case AssignPanelButtonResponse(_, _) => 0xe003
    case SetPanelButtonModes(_) => 0xe00a
    case SetPanelButtonModesResponse(_) => 0xe00b
    case ReadMACAddress => 0xf003
    case ReadMACAddressResponse(_, _) => 0xf004
    case ReadTemperatureValues(_) => 0xe3e7
    case ReadTemperatureValuesResponse(_, _) => 0xe3e8
    case ReadSensorStatus => 0x1645
    case ReadSensorStatusResponse(_, _, _, _, _, _, _, _) => 0x1646
    case SensorStatusBroadcast(_, _, _, _, _, _, _) => 0x1647
  }

  // The payload of every message that can be written.
  function Payload(m: Message): seq<bv8>
    requires CanWrite(m)
  {
    match m
    case SingleChannelControlCommand(channel, level, duration) => [channel, level, Hi(duration), Lo(duration)]
    case SingleChannelControlResponse(channel, ok, level, status) =>
      [channel, SuccessByte(ok), level] + StatusBytes(status)
    case SceneControl(zone, scene) => [zone, scene]
    case SceneControlResponse(zone, scene, status) => [zone, scene] + StatusBytes(status)
    case ZoneBeastBroadcast(zones, status) => [Count(|zones|)] + zones + StatusBytes(status)
    case QueryModules => []
    case QueryModulesResponse(subnet, id, category, channel, hvacSubnet, hvacId) =>
      if category == 0x03 then [subnet, id, 0x03, hvacSubnet, hvacId, 0x00, 0x00]
      else [subnet, id, category, channel, 0x64, 0x00, 0x00]
    case PanelControlResponse(controlType, value) => [controlType, value]
    case QueryChannelStatuses(index) => [index]
    case QueryChannelStatusesResponse(levels) => [Count(|levels|)] + levels
    case QueryPanelButtonAssignment(button, fn) => [button, fn]
    case QueryPanelButtonAssignmentResponse(button, fn, command, subnet, id, channel, level, duration) =>
      [button, fn, command, subnet, id, channel, level, Hi(duration), Lo(duration)]
    case AssignPanelButton(button, fn, command, subnet, id, channel, level, duration, last) =>
      [button, fn, command, subnet, id, channel, level, Hi(duration), Lo(duration), last]
    case AssignPanelButtonResponse(button, fn) => [button, fn]
    case SetPanelButtonModes(modes) => ModeByteSeq(modes)
    case SetPanelButtonModesResponse(ok) => [SuccessByte(ok)]
    case ReadMACAddress => []
    case ReadMACAddressResponse(mac, remark) => mac + remark
    case ReadTemperatureValues(celsius) => [FlagByte(celsius)]
    case ReadTemperatureValuesResponse(celsius, values) => [FlagByte(celsius)] + UnsignedAll(values)
    case ReadSensorStatus => []
    case ReadSensorStatusResponse(ok, t, light, moved, dry1, dry2, r1, r2) =>
      [SuccessByte(ok), TempByte(t), Hi(light), Lo(light), FlagByte(moved), FlagByte(dry1), FlagByte(dry2), r1, r2]
    case SensorStatusBroadcast(t, light, moved, dry1, dry2, r1, r2) =>
      [TempByte(t), Hi(light), Lo(light), FlagByte(moved), FlagByte(dry1), FlagByte(dry2), r1, r2]
  }

  lemma CodeIs(m: Message)
    ensures Opcode(m) == Code(m)
  {}

  // The fields one after another, from the last to the first.
  lemma NoFields()
    ensures HasLayout([], []) && EncodeAll([], []) == Ok([]) && forall bs :: DecodeAll([], bs) == Ok([])
  {}

  lemma {:induction false} ModesWritten(names: seq<string>)
    requires forall name <- names :: name in PANEL_MODES
    ensures EncodeModes(names) == Ok(ModeByteSeq(names))
  {
    hide PANEL_MODES, ModeByte, ModeIndex;
    if |names| > 0 {
      var name, rest := names[0], names[1..];
      assert name in names;
      ModesWritten(rest);
      ModeNameOfIndex(name);
      IndexIsByte(ModeIndex(name));
      assert ModeByteSeq(names) == [ModeByte(name)] + ModeByteSeq(rest);
    }
  }

  lemma IndexIsByte(i: nat)
    requires i < |PANEL_MODES|
    ensures ModeByte(PANEL_MODES[i]) == i as bv8
  {
    if i == 0 {} else if i == 1 {} else if i == 2 {} else if i == 3 {} else if i == 4 {} else if i == 5 {}
    else if i == 6 {} else if i == 7 {} else if i == 8 {} else if i == 9 {} else {}
  }

  lemma Runs()
    ensures Run(0) == [] && Run(1) == [KUint8] && Run(2) == [KUint8, KUint8]
    ensures Run(7) == [KUint8, KUint8, KUint8, KUint8, KUint8, KUint8, KUint8]
  {
    assert Run(4) == [KUint8, KUint8, KUint8, KUint8];
  }

  // What each kind of field is written as.
  function BytesOf(k: Kind, v: Value): seq<bv8>
    requires HasKind(v, k) && CanEncode(k, v)
  {
    match k
    case KUint8 => [v.b]
    case KUint16 => [Hi(v.w), Lo(v.w)]
    case KBytes8 => v.bs
    case KFlag => [FlagByte(v.flag)]
    case KSuccess => [SuccessByte(v.flag)]
    case KChannelStatus => StatusBytes(v.status)
    case KStatusBytes => [Count(|v.bs|)] + v.bs
    case KModes => ModeByteSeq(v.names)
    case KRemark => v.bs
    case KTempList => UnsignedAll(v.temps)
    case KSensorTemp => [TempByte(v.i)]
  }

  lemma FieldWritten(k: Kind, v: Value)
    requires HasKind(v, k) && CanEncode(k, v)
    ensures Encode(k, v) == Ok(BytesOf(k, v))
  {
    hide Count, Pack, UnsignedAll, Hi, Lo, PANEL_MODES, EncodeModes, ModeByteSeq;
    if k.KModes? {
      ModesWritten(v.names);
    }
  }

  // One more field in front of those that are written already.
  lemma Front(k: Kind, v: Value, layout: seq<Kind>, vs: seq<Value>, rest: seq<bv8>,
              layout': seq<Kind>, vs': seq<Value>, bs: seq<bv8>)
    requires HasKind(v, k) && CanEncode(k, v)
    requires HasLayout(vs, layout) && EncodeAll(layout, vs) == Ok(rest)
    requires layout' == [k] + layout && vs' == [v] + vs && bs == BytesOf(k, v) + rest
    ensures HasLayout(vs', layout') && EncodeAll(layout', vs') == Ok(bs)
  {
    hide Encode, EncodeAll, HasKind, CanEncode, BytesOf;
    FieldWritten(k, v);
    WriteOne(k, v, layout, vs);
  }

  lemma FlagFront(on: bool, layout: seq<Kind>, vs: seq<Value>, rest: seq<bv8>,
                  layout': seq<Kind>, vs': seq<Value>, bs: seq<bv8>)
    requires HasLayout(vs, layout) && EncodeAll(layout, vs) == Ok(rest)
    requires layout' == [KFlag] + layout && vs' == [Bool(on)] + vs && bs == [FlagByte(on)] + rest
    ensures HasLayout(vs', layout') && EncodeAll(layout', vs') == Ok(bs)
  {
    hide EncodeAll, HasLayout, FlagByte;
    Front(KFlag, Bool(on), layout, vs, rest, layout', vs', bs);
  }

  lemma SuccessFront(ok: bool, layout: seq<Kind>, vs: seq<Value>, rest: seq<bv8>,
                     layout': seq<Kind>, vs': seq<Value>, bs: seq<bv8>)
    requires HasLayout(vs, layout) && EncodeAll(layout, vs) == Ok(rest)
    requires layout' == [KSuccess] + layout && vs' == [Bool(ok)] + vs && bs == [SuccessByte(ok)] + rest
    ensures HasLayout(vs', layout') && EncodeAll(layout', vs') == Ok(bs)
  {
    hide EncodeAll, HasLayout, SuccessByte;
    Front(KSuccess, Bool(ok), layout, vs, rest, layout', vs', bs);
  }

  // A run of bytes in front of them.
  lemma FrontBytes(run: seq<bv8>, layout: seq<Kind>, vs: seq<Value>, rest: seq<bv8>,
                   layout': seq<Kind>, vs': seq<Value>, bs: seq<bv8>)
    requires HasLayout(vs, layout) && EncodeAll(layout, vs) == Ok(rest)
    requires layout' == Run(|run|) + layout && vs' == Plain(run) + vs && bs == run + rest
    ensures HasLayout(vs', layout') && EncodeAll(layout', vs') == Ok(bs)
  {
    hide EncodeAll, HasLayout, Plain, Run;
    WriteRun(run, layout, vs);
  }

  lemma OneByte(a: bv8)
    ensures var layout, vs := [KUint8], [Uint8(a)];
      HasLayout(vs, layout) && EncodeAll(layout, vs) == Ok([a])
  {
    hide Hi, Lo, FlagByte, SuccessByte, TempByte, StatusBytes, UnsignedAll, ModeByteSeq, PANEL_MODES, EncodeAll,
        HasLayout;
    NoFields();
    Front(KUint8, Uint8(a), [], [], [],
      [KUint8], [Uint8(a)],
      [a]);
  }

  lemma TwoBytes(a: bv8, b: bv8)
    ensures var layout, vs := [KUint8, KUint8], [Uint8(a), Uint8(b)];
      HasLayout(vs, layout) && EncodeAll(layout, vs) == Ok([a, b])
  {
    hide Hi, Lo, FlagByte, SuccessByte, TempByte, StatusBytes, UnsignedAll, ModeByteSeq, PANEL_MODES, EncodeAll,
        HasLayout;
    NoFields();
    Runs();
    FrontBytes([a, b], [], [], [],
      [KUint8, KUint8], [Uint8(a), Uint8(b)],
      [a, b]);
  }

  lemma SevenBytes(a: bv8, b: bv8, c: bv8, d: bv8, e: bv8, f: bv8, g: bv8)
    ensures var layout, vs := [KUint8, KUint8, KUint8, KUint8, KUint8, KUint8, KUint8], [Uint8(a), Uint8(b),
        Uint8(c), Uint8(d), Uint8(e), Uint8(f), Uint8(g)];
      HasLayout(vs, layout) && EncodeAll(layout, vs) == Ok([a, b, c, d, e, f, g])
  {
    hide Hi, Lo, FlagByte, SuccessByte, TempByte, StatusBytes, UnsignedAll, ModeByteSeq, PANEL_MODES, EncodeAll,
        HasLayout;
    NoFields();
    Runs();
    FrontBytes([a, b, c, d, e, f, g], [], [], [],
      [KUint8, KUint8, KUint8, KUint8, KUint8, KUint8, KUint8], [Uint8(a), Uint8(b), Uint8(c), Uint8(d), Uint8(e),
          Uint8(f), Uint8(g)],
      [a, b, c, d, e, f, g]);
  }

  lemma FlagsTail(movement: bool, dryContact1: bool, dryContact2: bool, reserved1: bv8, reserved2: bv8)
    ensures var layout, vs := [KFlag, KFlag, KFlag, KUint8, KUint8], [Bool(movement), Bool(dryContact1),
        Bool(dryContact2), Uint8(reserved1), Uint8(reserved2)];
      HasLayout(vs, layout) && EncodeAll(layout, vs) ==
          Ok([FlagByte(movement), FlagByte(dryContact1), FlagByte(dryContact2), reserved1, reserved2])
  {
    hide Hi, Lo, FlagByte, SuccessByte, TempByte, StatusBytes, UnsignedAll, ModeByteSeq, PANEL_MODES, EncodeAll,
        HasLayout;
    NoFields();
    Runs();
    FrontBytes([reserved1, reserved2], [], [], [],
      [KUint8, KUint8], [Uint8(reserved1), Uint8(reserved2)],
      [reserved1, reserved2]);
    FlagFront(dryContact2, [KUint8, KUint8], [Uint8(reserved1), Uint8(reserved2)], [reserved1, reserved2],
      [KFlag, KUint8, KUint8], [Bool(dryContact2), Uint8(reserved1), Uint8(reserved2)],
      [FlagByte(dryContact2), reserved1, reserved2]);
    FlagFront(dryContact1, [KFlag, KUint8, KUint8], [Bool(dryContact2), Uint8(reserved1), Uint8(reserved2)],
        [FlagByte(dryContact2), reserved1, reserved2],
      [KFlag, KFlag, KUint8, KUint8], [Bool(dryContact1), Bool(dryContact2), Uint8(reserved1), Uint8(reserved2)],
      [FlagByte(dryContact1), FlagByte(dryContact2), reserved1, reserved2]);
    FlagFront(movement, [KFlag, KFlag, KUint8, KUint8], [Bool(dryContact1), Bool(dryContact2), Uint8(reserved1),
        Uint8(reserved2)], [FlagByte(dryContact1), FlagByte(dryContact2), reserved1, reserved2],
      [KFlag, KFlag, KFlag, KUint8, KUint8], [Bool(movement), Bool(dryContact1), Bool(dryContact2),
          Uint8(reserved1), Uint8(reserved2)],
      [FlagByte(movement), FlagByte(dryContact1), FlagByte(dryContact2), reserved1, reserved2]);
  }

  // What the two sensor messages have in common.
  lemma SensorTail(illuminance: bv16, movement: bool, dryContact1: bool, dryContact2: bool, reserved1: bv8,
      reserved2: bv8)
    ensures var layout, vs := [KUint16, KFlag, KFlag, KFlag, KUint8, KUint8], [Uint16(illuminance), Bool(movement),
        Bool(dryContact1), Bool(dryContact2), Uint8(reserved1), Uint8(reserved2)];
      HasLayout(vs, layout) && EncodeAll(layout, vs) ==
          Ok([Hi(illuminance), Lo(illuminance), FlagByte(movement), FlagByte(dryContact1), FlagByte(dryContact2),
          reserved1, reserved2])
  {
    hide Hi, Lo, FlagByte, SuccessByte, TempByte, StatusBytes, UnsignedAll, ModeByteSeq, PANEL_MODES, EncodeAll,
        HasLayout;
    FlagsTail(movement, dryContact1, dryContact2, reserved1, reserved2);
    Front(KUint16, Uint16(illuminance), [KFlag, KFlag, KFlag, KUint8, KUint8], [Bool(movement), Bool(dryContact1),
        Bool(dryContact2), Uint8(reserved1), Uint8(reserved2)], [FlagByte(movement), FlagByte(dryContact1),
        FlagByte(dryContact2), reserved1, reserved2],
      [KUint16, KFlag, KFlag, KFlag, KUint8, KUint8], [Uint16(illuminance), Bool(movement), Bool(dryContact1),
          Bool(dryContact2), Uint8(reserved1), Uint8(reserved2)],
      [Hi(illuminance), Lo(illuminance), FlagByte(movement), FlagByte(dryContact1), FlagByte(dryContact2),
          reserved1, reserved2]);
  }

  lemma SingleChannelControlCommandBytes(channelNo: bv8, level: bv8, duration: bv16)
    ensures var layout, vs := [KUint8, KUint8, KUint16], [Uint8(channelNo), Uint8(level), Uint16(duration)];
      HasLayout(vs, layout) && EncodeAll(layout, vs) == Ok([channelNo, level, Hi(duration), Lo(duration)])
  {
    hide Hi, Lo, FlagByte, SuccessByte, TempByte, StatusBytes, UnsignedAll, ModeByteSeq, PANEL_MODES, EncodeAll,
        HasLayout;
    NoFields();
    Front(KUint16, Uint16(duration), [], [], [],
      [KUint16], [Uint16(duration)],
      [Hi(duration), Lo(duration)]);
    Runs();
    FrontBytes([channelNo, level], [KUint16], [Uint16(duration)], [Hi(duration), Lo(duration)],
      [KUint8, KUint8, KUint16], [Uint8(channelNo), Uint8(level), Uint16(duration)],
      [channelNo, level, Hi(duration), Lo(duration)]);
  }

  lemma SingleChannelControlResponseBytes(channelNo: bv8, success: bool, level: bv8, channelStatus: seq<bool>)
    ensures var layout, vs := [KUint8, KSuccess, KUint8, KChannelStatus], [Uint8(channelNo), Bool(success),
        Uint8(level), Bools(channelStatus)];
      HasLayout(vs, layout) && EncodeAll(layout, vs) ==
          Ok([channelNo, SuccessByte(success), level] + StatusBytes(channelStatus))
  {
    hide Hi, Lo, FlagByte, SuccessByte, TempByte, StatusBytes, UnsignedAll, ModeByteSeq, PANEL_MODES, EncodeAll,
        HasLayout;
    NoFields();
    Front(KChannelStatus, Bools(channelStatus), [], [], [],
      [KChannelStatus], [Bools(channelStatus)],
      StatusBytes(channelStatus));
    Front(KUint8, Uint8(level), [KChannelStatus], [Bools(channelStatus)], StatusBytes(channelStatus),
      [KUint8, KChannelStatus], [Uint8(level), Bools(channelStatus)],
      [level] + StatusBytes(channelStatus));
    SuccessFront(success, [KUint8, KChannelStatus], [Uint8(level), Bools(channelStatus)],
        [level] + StatusBytes(channelStatus),
      [KSuccess, KUint8, KChannelStatus], [Bool(success), Uint8(level), Bools(channelStatus)],
      [SuccessByte(success), level] + StatusBytes(channelStatus));
    Front(KUint8, Uint8(channelNo), [KSuccess, KUint8, KChannelStatus], [Bool(success), Uint8(level),
        Bools(channelStatus)], [SuccessByte(success), level] + StatusBytes(channelStatus),
      [KUint8, KSuccess, KUint8, KChannelStatus], [Uint8(channelNo), Bool(success), Uint8(level), Bools(channelStatus)],
      [channelNo, SuccessByte(success), level] + StatusBytes(channelStatus));
  }

  lemma SceneControlResponseBytes(zoneNo: bv8, sceneNo: bv8, channelStatus: seq<bool>)
    ensures var layout, vs := [KUint8, KUint8, KChannelStatus], [Uint8(zoneNo), Uint8(sceneNo), Bools(channelStatus)];
      HasLayout(vs, layout) && EncodeAll(layout, vs) == Ok([zoneNo, sceneNo] + StatusBytes(channelStatus))
  {
    hide Hi, Lo, FlagByte, SuccessByte, TempByte, StatusBytes, UnsignedAll, ModeByteSeq, PANEL_MODES, EncodeAll,
        HasLayout;
    NoFields();
    Front(KChannelStatus, Bools(channelStatus), [], [], [],
      [KChannelStatus], [Bools(channelStatus)],
      StatusBytes(channelStatus));
    Runs();
    FrontBytes([zoneNo, sceneNo], [KChannelStatus], [Bools(channelStatus)], StatusBytes(channelStatus),
      [KUint8, KUint8, KChannelStatus], [Uint8(zoneNo), Uint8(sceneNo), Bools(channelStatus)],
      [zoneNo, sceneNo] + StatusBytes(channelStatus));
  }

  lemma ZoneBeastBroadcastBytes(zoneStatus: seq<bv8>, channelStatus: seq<bool>)
    ensures var layout, vs := [KStatusBytes, KChannelStatus], [Value.Bytes(zoneStatus), Bools(channelStatus)];
      HasLayout(vs, layout) && EncodeAll(layout, vs) ==
          Ok([Count(|zoneStatus|)] + zoneStatus + StatusBytes(channelStatus))
  {
    hide Hi, Lo, FlagByte, SuccessByte, TempByte, StatusBytes, UnsignedAll, ModeByteSeq, PANEL_MODES, EncodeAll,
        HasLayout;
    NoFields();
    Front(KChannelStatus, Bools(channelStatus), [], [], [],
      [KChannelStatus], [Bools(channelStatus)],
      StatusBytes(channelStatus));
    Front(KStatusBytes, Value.Bytes(zoneStatus), [KChannelStatus], [Bools(channelStatus)], StatusBytes(channelStatus),
      [KStatusBytes, KChannelStatus], [Value.Bytes(zoneStatus), Bools(channelStatus)],
      [Count(|zoneStatus|)] + zoneStatus + StatusBytes(channelStatus));
  }

  lemma QueryChannelStatusesResponseBytes(levels: seq<bv8>)
    ensures var layout, vs := [KStatusBytes], [Value.Bytes(levels)];
      HasLayout(vs, layout) && EncodeAll(layout, vs) == Ok([Count(|levels|)] + levels)
  {
    hide Hi, Lo, FlagByte, SuccessByte, TempByte, StatusBytes, UnsignedAll, ModeByteSeq, PANEL_MODES, EncodeAll,
        HasLayout;
    NoFields();
    Front(KStatusBytes, Value.Bytes(levels), [], [], [],
      [KStatusBytes], [Value.Bytes(levels)],
      [Count(|levels|)] + levels);
  }

  lemma QueryPanelButtonAssignmentResponseBytes(buttonNo: bv8, functionNo: bv8, command: bv8, commandSubnetID: bv8,
      commandDeviceID: bv8, channelNo: bv8, level: bv8, duration: bv16)
    ensures var layout, vs := [KUint8, KUint8, KUint8, KUint8, KUint8, KUint8, KUint8, KUint16], [Uint8(buttonNo),
        Uint8(functionNo), Uint8(command), Uint8(commandSubnetID), Uint8(commandDeviceID), Uint8(channelNo),
        Uint8(level), Uint16(duration)];
      HasLayout(vs, layout) && EncodeAll(layout, vs) ==
          Ok([buttonNo, functionNo, command, commandSubnetID, commandDeviceID, channelNo, level, Hi(duration),
          Lo(duration)])
  {
    hide Hi, Lo, FlagByte, SuccessByte, TempByte, StatusBytes, UnsignedAll, ModeByteSeq, PANEL_MODES, EncodeAll,
        HasLayout;
    NoFields();
    Front(KUint16, Uint16(duration), [], [], [],
      [KUint16], [Uint16(duration)],
      [Hi(duration), Lo(duration)]);
    Runs();
    FrontBytes([buttonNo, functionNo, command, commandSubnetID, commandDeviceID, channelNo, level], [KUint16],
        [Uint16(duration)], [Hi(duration), Lo(duration)],
      [KUint8, KUint8, KUint8, KUint8, KUint8, KUint8, KUint8, KUint16], [Uint8(buttonNo), Uint8(functionNo),
          Uint8(command), Uint8(commandSubnetID), Uint8(commandDeviceID), Uint8(channelNo), Uint8(level),
          Uint16(duration)],
      [buttonNo, functionNo, command, commandSubnetID, commandDeviceID, channelNo, level, Hi(duration), Lo(duration)]);
  }

  lemma AssignPanelButtonBytes(buttonNo: bv8, functionNo: bv8, command: bv8, commandSubnetID: bv8,
      commandDeviceID: bv8, channelNo: bv8, level: bv8, duration: bv16, unknown: bv8)
    ensures var layout, vs := [KUint8, KUint8, KUint8, KUint8, KUint8, KUint8, KUint8, KUint16, KUint8],
        [Uint8(buttonNo), Uint8(functionNo), Uint8(command), Uint8(commandSubnetID), Uint8(commandDeviceID),
        Uint8(channelNo), Uint8(level), Uint16(duration), Uint8(unknown)];
      HasLayout(vs, layout) && EncodeAll(layout, vs) ==
          Ok([buttonNo, functionNo, command, commandSubnetID, commandDeviceID, channelNo, level, Hi(duration),
          Lo(duration), unknown])
  {
    hide Hi, Lo, FlagByte, SuccessByte, TempByte, StatusBytes, UnsignedAll, ModeByteSeq, PANEL_MODES, EncodeAll,
        HasLayout;
    NoFields();
    Front(KUint8, Uint8(unknown), [], [], [],
      [KUint8], [Uint8(unknown)],
      [unknown]);
    Front(KUint16, Uint16(duration), [KUint8], [Uint8(unknown)], [unknown],
      [KUint16, KUint8], [Uint16(duration), Uint8(unknown)],
      [Hi(duration), Lo(duration), unknown]);
    Runs();
    FrontBytes([buttonNo, functionNo, command, commandSubnetID, commandDeviceID, channelNo, level], [KUint16,
        KUint8], [Uint16(duration), Uint8(unknown)], [Hi(duration), Lo(duration), unknown],
      [KUint8, KUint8, KUint8, KUint8, KUint8, KUint8, KUint8, KUint16, KUint8], [Uint8(buttonNo),
          Uint8(functionNo), Uint8(command), Uint8(commandSubnetID), Uint8(commandDeviceID), Uint8(channelNo),
          Uint8(level), Uint16(duration), Uint8(unknown)],
      [buttonNo, functionNo, command, commandSubnetID, commandDeviceID, channelNo, level, Hi(duration),
          Lo(duration), unknown]);
  }

  lemma SetPanelButtonModesBytes(modes: Modes)
    requires forall name <- modes :: name in PANEL_MODES
    ensures var layout, vs := [KModes], [Names(modes)];
      HasLayout(vs, layout) && EncodeAll(layout, vs) == Ok(ModeByteSeq(modes))
  {
    hide Hi, Lo, FlagByte, SuccessByte, TempByte, StatusBytes, UnsignedAll, ModeByteSeq, PANEL_MODES, EncodeAll,
        HasLayout;
    NoFields();
    Front(KModes, Names(modes), [], [], [],
      [KModes], [Names(modes)],
      ModeByteSeq(modes));
  }

  lemma SetPanelButtonModesResponseBytes(success: bool)
    ensures var layout, vs := [KSuccess], [Bool(success)];
      HasLayout(vs, layout) && EncodeAll(layout, vs) == Ok([SuccessByte(success)])
  {
    hide Hi, Lo, FlagByte, SuccessByte, TempByte, StatusBytes, UnsignedAll, ModeByteSeq, PANEL_MODES, EncodeAll,
        HasLayout;
    NoFields();
    SuccessFront(success, [], [], [],
      [KSuccess], [Bool(success)],
      [SuccessByte(success)]);
  }

  lemma ReadMACAddressResponseBytes(mac: Mac, remark: seq<bv8>)
    requires |remark| <= 63
    ensures var layout, vs := [KBytes8, KRemark], [Value.Bytes(mac), Value.Bytes(remark)];
      HasLayout(vs, layout) && EncodeAll(layout, vs) == Ok(mac + remark)
  {
    hide Hi, Lo, FlagByte, SuccessByte, TempByte, StatusBytes, UnsignedAll, ModeByteSeq, PANEL_MODES, EncodeAll,
        HasLayout;
    NoFields();
    Front(KRemark, Value.Bytes(remark), [], [], [],
      [KRemark], [Value.Bytes(remark)],
      remark);
    Front(KBytes8, Value.Bytes(mac), [KRemark], [Value.Bytes(remark)], remark,
      [KBytes8, KRemark], [Value.Bytes(mac), Value.Bytes(remark)],
      mac + remark);
  }

  lemma ReadTemperatureValuesBytes(useCelsius: bool)
    ensures var layout, vs := [KFlag], [Bool(useCelsius)];
      HasLayout(vs, layout) && EncodeAll(layout, vs) == Ok([FlagByte(useCelsius)])
  {
    hide Hi, Lo, FlagByte, SuccessByte, TempByte, StatusBytes, UnsignedAll, ModeByteSeq, PANEL_MODES, EncodeAll,
        HasLayout;
    NoFields();
    FlagFront(useCelsius, [], [], [],
      [KFlag], [Bool(useCelsius)],
      [FlagByte(useCelsius)]);
  }

  lemma ReadTemperatureValuesResponseBytes(useCelsius: bool, values: seq<int8>)
    requires |values| <= 8
    ensures var layout, vs := [KFlag, KTempList], [Bool(useCelsius), Temps(values)];
      HasLayout(vs, layout) && EncodeAll(layout, vs) == Ok([FlagByte(useCelsius)] + UnsignedAll(values))
  {
    hide Hi, Lo, FlagByte, SuccessByte, TempByte, StatusBytes, UnsignedAll, ModeByteSeq, PANEL_MODES, EncodeAll,
        HasLayout;
    NoFields();
    Front(KTempList, Temps(values), [], [], [],
      [KTempList], [Temps(values)],
      UnsignedAll(values));
    FlagFront(useCelsius, [KTempList], [Temps(values)], UnsignedAll(values),
      [KFlag, KTempList], [Bool(useCelsius), Temps(values)],
      [FlagByte(useCelsius)] + UnsignedAll(values));
  }

  lemma SensorStatusBroadcastBytes(temperature: int, illuminance: bv16, movement: bool, dryContact1: bool,
      dryContact2: bool, reserved1: bv8, reserved2: bv8)
    requires -20 <= temperature <= 235
    ensures var layout, vs := [KSensorTemp, KUint16, KFlag, KFlag, KFlag, KUint8, KUint8], [Int(temperature),
        Uint16(illuminance), Bool(movement), Bool(dryContact1), Bool(dryContact2), Uint8(reserved1), Uint8(reserved2)];
      HasLayout(vs, layout) && EncodeAll(layout, vs) ==
          Ok([TempByte(temperature), Hi(illuminance), Lo(illuminance), FlagByte(movement), FlagByte(dryContact1),
          FlagByte(dryContact2), reserved1, reserved2])
  {
    hide Hi, Lo, FlagByte, SuccessByte, TempByte, StatusBytes, UnsignedAll, ModeByteSeq, PANEL_MODES, EncodeAll,
        HasLayout;
    SensorTail(illuminance, movement, dryContact1, dryContact2, reserved1, reserved2);
    Front(KSensorTemp, Int(temperature), [KUint16, KFlag, KFlag, KFlag, KUint8, KUint8], [Uint16(illuminance),
        Bool(movement), Bool(dryContact1), Bool(dryContact2), Uint8(reserved1), Uint8(reserved2)],
        [Hi(illuminance), Lo(illuminance), FlagByte(movement), FlagByte(dryContact1), FlagByte(dryContact2),
        reserved1, reserved2],
      [KSensorTemp, KUint16, KFlag, KFlag, KFlag, KUint8, KUint8], [Int(temperature), Uint16(illuminance),
          Bool(movement), Bool(dryContact1), Bool(dryContact2), Uint8(reserved1), Uint8(reserved2)],
      [TempByte(temperature), Hi(illuminance), Lo(illuminance), FlagByte(movement), FlagByte(dryContact1),
          FlagByte(dryContact2), reserved1, reserved2]);
  }

  lemma ReadSensorStatusResponseBytes(success: bool, temperature: int, illuminance: bv16, movement: bool,
      dryContact1: bool, dryContact2: bool, reserved1: bv8, reserved2: bv8)
    requires -20 <= temperature <= 235
    ensures var layout, vs := [KSuccess, KSensorTemp, KUint16, KFlag, KFlag, KFlag, KUint8, KUint8],
        [Bool(success), Int(temperature), Uint16(illuminance), Bool(movement), Bool(dryContact1),
        Bool(dryContact2), Uint8(reserved1), Uint8(reserved2)];
      HasLayout(vs, layout) && EncodeAll(layout, vs) ==
          Ok([SuccessByte(success), TempByte(temperature), Hi(illuminance), Lo(illuminance), FlagByte(movement),
          FlagByte(dryContact1), FlagByte(dryContact2), reserved1, reserved2])
  {
    hide Hi, Lo, FlagByte, SuccessByte, TempByte, StatusBytes, UnsignedAll, ModeByteSeq, PANEL_MODES, EncodeAll,
        HasLayout;
    SensorStatusBroadcastBytes(temperature, illuminance, movement, dryContact1, dryContact2, reserved1, reserved2);
    SuccessFront(success, [KSensorTemp, KUint16, KFlag, KFlag, KFlag, KUint8, KUint8], [Int(temperature),
        Uint16(illuminance), Bool(movement), Bool(dryContact1), Bool(dryContact2), Uint8(reserved1),
        Uint8(reserved2)], [TempByte(temperature), Hi(illuminance), Lo(illuminance), FlagByte(movement),
        FlagByte(dryContact1), FlagByte(dryContact2), reserved1, reserved2],
      [KSuccess, KSensorTemp, KUint16, KFlag, KFlag, KFlag, KUint8, KUint8], [Bool(success), Int(temperature),
          Uint16(illuminance), Bool(movement), Bool(dryContact1), Bool(dryContact2), Uint8(reserved1),
          Uint8(reserved2)],
      [SuccessByte(success), TempByte(temperature), Hi(illuminance), Lo(illuminance), FlagByte(movement),
          FlagByte(dryContact1), FlagByte(dryContact2), reserved1, reserved2]);
  }

  lemma EncodeIs(m: Message, layout: seq<Kind>, vs: seq<Value>)
    requires Layout(TypeOf(m)) == layout && Fields(m).Ok? && Fields(m).value == vs
    ensures HasLayout(vs, layout) && EncodeMessage(m) == EncodeAll(layout, vs)
  {
    hide Fields, Layout, TypeOf, EncodeAll;
    FieldsLayout(m);
  }

  lemma BytesWritten(m: Message)
    requires m.SceneControl? || m.PanelControlResponse? || m.QueryChannelStatuses?
        || m.QueryPanelButtonAssignment? || m.AssignPanelButtonResponse?
    requires CanWrite(m)
    ensures EncodeMessage(m) == Ok(Payload(m))
  {
    hide EncodeMessage, EncodeAll, HasLayout, HasKind, PANEL_MODES;
    match m
    case SceneControl(x0, x1) =>
      TwoBytes(x0, x1);
      EncodeIs(m, [KUint8, KUint8], [Uint8(x0), Uint8(x1)]);
    case PanelControlResponse(x0, x1) =>
      TwoBytes(x0, x1);
      EncodeIs(m, [KUint8, KUint8], [Uint8(x0), Uint8(x1)]);
    case QueryChannelStatuses(x0) =>
      OneByte(x0);
      EncodeIs(m, [KUint8], [Uint8(x0)]);
    case QueryPanelButtonAssignment(x0, x1) =>
      TwoBytes(x0, x1);
      EncodeIs(m, [KUint8, KUint8], [Uint8(x0), Uint8(x1)]);
    case AssignPanelButtonResponse(x0, x1) =>
      TwoBytes(x0, x1);
      EncodeIs(m, [KUint8, KUint8], [Uint8(x0), Uint8(x1)]);
  }

  lemma ChannelsWritten(m: Message)
    requires m.SingleChannelControlCommand? || m.SingleChannelControlResponse? || m.SceneControlResponse?
        || m.ZoneBeastBroadcast? || m.QueryChannelStatusesResponse?
    requires CanWrite(m)
    ensures EncodeMessage(m) == Ok(Payload(m))
  {
    hide EncodeMessage, EncodeAll, HasLayout, HasKind, PANEL_MODES;
    match m
    case SingleChannelControlCommand(x0, x1, x2) =>
      SingleChannelControlCommandBytes(x0, x1, x2);
      EncodeIs(m, [KUint8, KUint8, KUint16], [Uint8(x0), Uint8(x1), Uint16(x2)]);
    case SingleChannelControlResponse(x0, x1, x2, x3) =>
      SingleChannelControlResponseBytes(x0, x1, x2, x3);
      EncodeIs(m, [KUint8, KSuccess, KUint8, KChannelStatus], [Uint8(x0), Bool(x1), Uint8(x2), Bools(x3)]);
    case SceneControlResponse(x0, x1, x2) =>
      SceneControlResponseBytes(x0, x1, x2);
      EncodeIs(m, [KUint8, KUint8, KChannelStatus], [Uint8(x0), Uint8(x1), Bools(x2)]);
    case ZoneBeastBroadcast(x0, x1) =>
      ZoneBeastBroadcastBytes(x0, x1);
      EncodeIs(m, [KStatusBytes, KChannelStatus], [Value.Bytes(x0), Bools(x1)]);
    case QueryChannelStatusesResponse(x0) =>
      QueryChannelStatusesResponseBytes(x0);
      EncodeIs(m, [KStatusBytes], [Value.Bytes(x0)]);
  }

  lemma ButtonsWritten(m: Message)
    requires m.QueryPanelButtonAssignmentResponse? || m.AssignPanelButton?
    requires CanWrite(m)
    ensures EncodeMessage(m) == Ok(Payload(m))
  {
    hide EncodeMessage, EncodeAll, HasLayout, HasKind, PANEL_MODES;
    match m
    case QueryPanelButtonAssignmentResponse(x0, x1, x2, x3, x4, x5, x6, x7) =>
      QueryPanelButtonAssignmentResponseBytes(x0, x1, x2, x3, x4, x5, x6, x7);
      EncodeIs(m, [KUint8, KUint8, KUint8, KUint8, KUint8, KUint8, KUint8, KUint16], [Uint8(x0), Uint8(x1),
          Uint8(x2), Uint8(x3), Uint8(x4), Uint8(x5), Uint8(x6), Uint16(x7)]);
    case AssignPanelButton(x0, x1, x2, x3, x4, x5, x6, x7, x8) =>
      AssignPanelButtonBytes(x0, x1, x2, x3, x4, x5, x6, x7, x8);
      EncodeIs(m, [KUint8, KUint8, KUint8, KUint8, KUint8, KUint8, KUint8, KUint16, KUint8], [Uint8(x0), Uint8(x1),
          Uint8(x2), Uint8(x3), Uint8(x4), Uint8(x5), Uint8(x6), Uint16(x7), Uint8(x8)]);
  }

  lemma PanelModesWritten(m: Message)
    requires m.SetPanelButtonModes? || m.SetPanelButtonModesResponse?
    requires CanWrite(m)
    ensures EncodeMessage(m) == Ok(Payload(m))
  {
    hide EncodeMessage, EncodeAll, HasLayout, HasKind, PANEL_MODES;
    match m
    case SetPanelButtonModes(x0) =>
      SetPanelButtonModesBytes(x0);
      EncodeIs(m, [KModes], [Names(x0)]);
    case SetPanelButtonModesResponse(x0) =>
      SetPanelButtonModesResponseBytes(x0);
      EncodeIs(m, [KSuccess], [Bool(x0)]);
  }

  lemma RepliesWritten(m: Message)
    requires m.ReadMACAddressResponse? || m.ReadTemperatureValues? || m.ReadTemperatureValuesResponse?
    requires CanWrite(m)
    ensures EncodeMessage(m) == Ok(Payload(m))
  {
    hide EncodeMessage, EncodeAll, HasLayout, HasKind, PANEL_MODES;
    match m
    case ReadMACAddressResponse(x0, x1) =>
      ReadMACAddressResponseBytes(x0, x1);
      EncodeIs(m, [KBytes8, KRemark], [Value.Bytes(x0), Value.Bytes(x1)]);
    case ReadTemperatureValues(x0) =>
      ReadTemperatureValuesBytes(x0);
      EncodeIs(m, [KFlag], [Bool(x0)]);
    case ReadTemperatureValuesResponse(x0, x1) =>
      ReadTemperatureValuesResponseBytes(x0, x1);
      EncodeIs(m, [KFlag, KTempList], [Bool(x0), Temps(x1)]);
  }

  lemma SensorResponseWritten(m: Message)
    requires m.ReadSensorStatusResponse?
    requires CanWrite(m)
    ensures EncodeMessage(m) == Ok(Payload(m))
  {
    hide EncodeMessage, EncodeAll, HasLayout, HasKind, PANEL_MODES;
    match m
    case ReadSensorStatusResponse(x0, x1, x2, x3, x4, x5, x6, x7) =>
      ReadSensorStatusResponseBytes(x0, x1, x2, x3, x4, x5, x6, x7);
      EncodeIs(m, [KSuccess, KSensorTemp, KUint16, KFlag, KFlag, KFlag, KUint8, KUint8], [Bool(x0), Int(x1),
          Uint16(x2), Bool(x3), Bool(x4), Bool(x5), Uint8(x6), Uint8(x7)]);
  }

  lemma SensorBroadcastWritten(m: Message)
    requires m.SensorStatusBroadcast?
    requires CanWrite(m)
    ensures EncodeMessage(m) == Ok(Payload(m))
  {
    hide EncodeMessage, EncodeAll, HasLayout, HasKind, PANEL_MODES;
    match m
    case SensorStatusBroadcast(x0, x1, x2, x3, x4, x5, x6) =>
      SensorStatusBroadcastBytes(x0, x1, x2, x3, x4, x5, x6);
      EncodeIs(m, [KSensorTemp, KUint16, KFlag, KFlag, KFlag, KUint8, KUint8], [Int(x0), Uint16(x1), Bool(x2),
          Bool(x3), Bool(x4), Uint8(x5), Uint8(x6)]);
  }

  lemma RawWritten(m: Message)
    requires m.QueryModulesResponse? && CanWrite(m)
    ensures EncodeMessage(m) == Ok(Payload(m))
  {
    hide EncodeMessage, EncodeAll, HasLayout, HasKind;
    var a, b, c := m.deviceSubnetID, m.deviceID, m.category;
    var d, e := if c == 0x03 then m.hvacSubnetID else m.channelNo, if c == 0x03 then m.hvacDeviceID else 0x64;
    SevenBytes(a, b, c, d, e, 0, 0);
    EncodeIs(m, [KUint8, KUint8, KUint8, KUint8, KUint8, KUint8, KUint8],
      [Uint8(a), Uint8(b), Uint8(c), Uint8(d), Uint8(e), Uint8(0), Uint8(0)]);
  }

  lemma OthersWritten(m: Message)
    requires m.QueryModules? || m.QueryModulesResponse? || m.ReadMACAddress? || m.ReadSensorStatus?
    requires CanWrite(m)
    ensures EncodeMessage(m) == Ok(Payload(m))
  {
    hide EncodeMessage, EncodeAll, HasLayout, HasKind;
    NoFields();
    match m
    case QueryModulesResponse(_, _, _, _, _, _) => RawWritten(m);
    case _ => EncodeIs(m, [], []);
  }

  // Every message that can be written is written as its payload, under its code.
  lemma PayloadIs(m: Message)
    requires CanWrite(m)
    ensures EncodeMessage(m) == Ok(Payload(m)) && Opcode(m) == Code(m)
  {
    hide EncodeMessage, Payload, CanWrite, Opcode;
    CodeIs(m);
    if m.SceneControl? || m.PanelControlResponse? || m.QueryChannelStatuses? || m.QueryPanelButtonAssignment?
        || m.AssignPanelButtonResponse? {
      BytesWritten(m);
    } else if m.SingleChannelControlCommand? || m.SingleChannelControlResponse? || m.SceneControlResponse?
        || m.ZoneBeastBroadcast? || m.QueryChannelStatusesResponse? {
      ChannelsWritten(m);
    } else if m.QueryPanelButtonAssignmentResponse? || m.AssignPanelButton? {
      ButtonsWritten(m);
    } else if m.SetPanelButtonModes? || m.SetPanelButtonModesResponse? {
      PanelModesWritten(m);
    } else if m.ReadMACAddressResponse? || m.ReadTemperatureValues? || m.ReadTemperatureValuesResponse? {
      RepliesWritten(m);
    } else if m.ReadSensorStatusResponse? {
      SensorResponseWritten(m);
    } else if m.SensorStatusBroadcast? {
      SensorBroadcastWritten(m);
    } else {
      OthersWritten(m);
    }
  }

  // ----- the frame -----

  // A frame, byte by byte.
  lemma FrameIs(m: SmartbusMessage)
    requires Encodable(m)
    ensures var h, p, frame := m.header, Payload(m.message), FrameOf(m);
      && |frame| == 11 + |p|
      && frame[0] == Count(11 + |p|)
      && frame[1] == h.origSubnetID && frame[2] == h.origDeviceID
      && Word(frame[3], frame[4]) == h.origDeviceType
      && Word(frame[5], frame[6]) == Code(m.message)
      && frame[7] == h.targetSubnetID && frame[8] == h.targetDeviceID
      && frame[9..9 + |p|] == p
      && Word(frame[9 + |p|], frame[10 + |p|]) == Crc(frame[..9 + |p|])
  {
    hide EncodeMessage, Payload, CanWrite, Count, Crc, Hi, Lo, Word, Opcode, Code;
    var p, h := Payload(m.message), Stamped(m).header;
    PayloadIs(m.message);
    WordOfBytes(h.origDeviceType);
    WordOfBytes(h.opcode);
    var body := [Count(11 + |p|)] + HeaderBytes(h) + p;
    WordOfBytes(Crc(body));
    assert FrameOf(m) == body + [Hi(Crc(body)), Lo(Crc(body))];
    assert FrameOf(m)[..9 + |p|] == body;
  }
}
