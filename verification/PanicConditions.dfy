/**
 When the codec panics: exactly which messages WriteMessage refuses, which makes
 WriteFrame panic, and exactly which payloads make ParseMessage panic.
 */
module PanicConditions {
  import opened Outcome
  import opened MessageFormat
  import opened Messages

  // ----- what can be written at all -----

  // The messages that WriteMessage does not refuse.
  predicate CanWrite(m: Message) {
    match m
    case SetPanelButtonModes(modes) => forall name <- modes :: name in PANEL_MODES
    case QueryModulesResponse(_, _, category, _, _, _) =>
      category == DEV_DIMMER || category == DEV_RELAY || category == DEV_HVAC
    case ReadMACAddressResponse(_, remark) => |remark| <= 63
    case ReadTemperatureValuesResponse(_, values) => |values| <= 8
    case ReadSensorStatusResponse(_, temperature, _, _, _, _, _, _) => -20 <= temperature <= 235
    case SensorStatusBroadcast(temperature, _, _, _, _, _, _) => -20 <= temperature <= 235
    case _ => true
  }

  // Kinds of which every value can be written.
  predicate Harmless(k: Kind) { !k.KModes? && !k.KRemark? && !k.KTempList? && !k.KSensorTemp? }

  predicate HarmlessType(t: Type) {
    !t.TSetPanelButtonModes? && !t.TReadMACAddressResponse? && !t.TReadTemperatureValuesResponse?
    && !t.TReadSensorStatusResponse? && !t.TSensorStatusBroadcast?
  }

  lemma HarmlessLayout(t: Type)
    requires HarmlessType(t)
    ensures forall i :: 0 <= i < |Layout(t)| ==> Harmless(Layout(t)[i])
  {}

  lemma HarmlessWritable(m: Message)
    requires HarmlessType(TypeOf(m))
    ensures Fields(m).Ok? <==> CanWrite(m)
  {}

  // Where the one field is that may be refused.
  function SpecialAt(t: Type): nat
    requires !HarmlessType(t)
    ensures SpecialAt(t) < |Layout(t)|
  {
    if t.TSetPanelButtonModes? || t.TSensorStatusBroadcast? then 0 else 1
  }

  lemma SpecialLayout(t: Type)
    requires !HarmlessType(t)
    ensures forall i :: 0 <= i < |Layout(t)| && i != SpecialAt(t) ==> Harmless(Layout(t)[i])
  {}

  lemma SpecialField(m: Message)
    requires !HarmlessType(TypeOf(m))
    ensures Fields(m).Ok? && |Fields(m).value| == |Layout(TypeOf(m))|
    ensures var i := SpecialAt(TypeOf(m));
      HasKind(Fields(m).value[i], Layout(TypeOf(m))[i])
          && (CanEncode(Layout(TypeOf(m))[i], Fields(m).value[i]) <==> CanWrite(m))
  {
    hide PANEL_MODES;
  }

  lemma LayoutAt(vs: seq<Value>, layout: seq<Kind>, i: nat)
    requires HasLayout(vs, layout) && i < |vs|
    ensures |vs| == |layout| && HasKind(vs[i], layout[i])
  {}

  lemma HarmlessEncodes(k: Kind, v: Value)
    requires HasKind(v, k) && Harmless(k)
    ensures CanEncode(k, v)
  {}

  // When all fields but one are harmless, that one decides.
  lemma OneDecides(layout: seq<Kind>, vs: seq<Value>, at: nat)
    requires HasLayout(vs, layout) && at < |vs|
    requires forall i :: 0 <= i < |layout| && i != at ==> Harmless(layout[i])
    ensures EncodeAll(layout, vs).Ok? <==> CanEncode(layout[at], vs[at])
  {
    hide HasKind, Harmless, CanEncode, EncodeAll;
    CanEncodeAllIff(layout, vs);
    forall i | 0 <= i < |vs| && i != at ensures CanEncode(layout[i], vs[i]) {
      LayoutAt(vs, layout, i);
      HarmlessEncodes(layout[i], vs[i]);
    }
  }

  // WriteMessage refuses a message exactly when it is not CanWrite.
  lemma EncodableIff(m: Message)
    ensures EncodeMessage(m).Ok? <==> CanWrite(m)
  {
    hide Fields, HasLayout, HarmlessType, Layout, TypeOf, EncodeAll, CanWrite, CanEncode, SpecialAt;
    var t := TypeOf(m);
    if HarmlessType(t) {
      HarmlessWritable(m);
      HarmlessLayout(t);
    } else {
      SpecialField(m);
      SpecialLayout(t);
    }
    if Fields(m).Ok? {
      var vs := Fields(m).value;
      FieldsLayout(m);
      if HarmlessType(t) {
        AllHarmless(Layout(t), vs);
      } else {
        OneDecides(Layout(t), vs, SpecialAt(t));
      }
    }
  }

  lemma AllHarmless(layout: seq<Kind>, vs: seq<Value>)
    requires HasLayout(vs, layout) && forall i :: 0 <= i < |layout| ==> Harmless(layout[i])
    ensures EncodeAll(layout, vs).Ok?
  {
    if |layout| == 0 {
      assert vs == [];
    } else {
      HarmlessEncodes(layout[0], vs[0]);
      OneDecides(layout, vs, 0);
    }
  }

  // A payload that is read and cannot be written: sixteen unmapped modes.
  lemma UnwritableExample()
    ensures var r := DecodeMessage(0xe00a, seq(16, _ => 0xff));
      r.Ok? && r.value.SetPanelButtonModes? && !Writable(r.value) && !CanWrite(r.value)
  {
    hide PANEL_MODES, ModeName;
    var bs: seq<bv8> := seq(16, _ => 0xff);
    var names := NamesOf(bs[..16]);
    assert bs[..16] == bs;
    assert Layout(TSetPanelButtonModes) == [KModes] && [KModes][1..] == [];
    assert Decode(KModes, bs) == Ok((Names(names), bs[16..]));
    assert DecodeAll([KModes], bs) == Ok([Names(names)] + []);
    UnmappedMode();
    assert names[0] == "";
    NoEmptyMode();
  }

  lemma UnmappedMode()
    ensures ModeName(0xff) == ""
  {}

  // ----- what crashes the reader -----

  // The payloads that make the parser panic: a status count over 248 where the layout
  // has one.
  predicate CrashPayload(op: bv16, bs: seq<bv8>) {
    if op == 0x0032 then |bs| > 3 && bs[3] > 248
    else if op == 0x0003 then |bs| > 2 && bs[2] > 248
    else if op == 0xefff then |bs| > 0 && |bs| > bs[0] as int + 1 && bs[bs[0] as int + 1] > 248
    else false
  }

  lemma NoStatusNoPanic(layout: seq<Kind>, bs: seq<bv8>)
    requires forall i :: 0 <= i < |layout| ==> !layout[i].KChannelStatus?
    ensures !DecodeAll(layout, bs).Panic?
  {
    hide Decode;
    if |layout| > 0 {
      PanicIff(layout[0], bs);
      PanicAllIff(layout, bs);
      if Decode(layout[0], bs).Ok? {
        NoStatusNoPanic(layout[1..], Decode(layout[0], bs).value.1);
      }
    }
  }

  lemma OneByte(k: Kind, bs: seq<bv8>)
    requires k.KUint8? || k.KSuccess?
    ensures !Decode(k, bs).Panic? && (Decode(k, bs).Ok? <==> |bs| > 0)
    ensures |bs| > 0 ==> Decode(k, bs).value.1 == bs[1..]
  {}

  lemma ResponsePanicIff(bs: seq<bv8>)
    ensures DecodeAll([KUint8, KSuccess, KUint8, KChannelStatus], bs).Panic? <==> |bs| > 3 && bs[3] > 248
  {
    hide DecodeAll, Decode;
    var l := [KUint8, KSuccess, KUint8, KChannelStatus];
    assert l[1..] == [KSuccess, KUint8, KChannelStatus] && l[1..][1..] == [KUint8, KChannelStatus];
    PanicAllIff(l, bs);
    OneByte(KUint8, bs);
    if |bs| > 0 {
      PanicAllIff(l[1..], bs[1..]);
      OneByte(KSuccess, bs[1..]);
      if |bs| > 1 {
        assert bs[1..][1..] == bs[2..];
        assert l[1..][1..] == seq(1, _ => KUint8) + [KChannelStatus];
        ScenePanic(bs[2..], 1);
      }
    }
  }

  // After the given number of bytes, a status field and nothing else.
  lemma {:induction false} ScenePanic(bs: seq<bv8>, n: nat)
    ensures DecodeAll(seq(n, _ => KUint8) + [KChannelStatus], bs).Panic? <==> |bs| > n && bs[n] > 248
  {
    hide DecodeAll, Decode;
    var l := seq(n, _ => KUint8) + [KChannelStatus];
    PanicAllIff(l, bs);
    if n == 0 {
      PanicIff(KChannelStatus, bs);
      assert l[1..] == [];
      PanicAllIff([], if Decode(l[0], bs).Ok? then Decode(l[0], bs).value.1 else []);
    } else {
      OneByte(KUint8, bs);
    }
    if n > 0 && |bs| > 0 {
      assert l[1..] == seq(n - 1, _ => KUint8) + [KChannelStatus];
      ScenePanic(bs[1..], n - 1);
    }
  }

  lemma BroadcastPanicIff(bs: seq<bv8>)
    ensures DecodeAll([KStatusBytes, KChannelStatus], bs).Panic? <==> CrashPayload(0xefff, bs)
  {
    hide DecodeAll;
    var l := [KStatusBytes, KChannelStatus];
    assert l[1..] == seq(0, _ => KUint8) + [KChannelStatus];
    PanicAllIff(l, bs);
    PanicIff(KStatusBytes, bs);
    if |bs| > 0 {
      ByteOrder(bs[0]);
      var k := bs[0] as int + 1;
      if Decode(KStatusBytes, bs).Ok? {
        assert Decode(KStatusBytes, bs).value.1 == bs[k..];
        ScenePanic(bs[k..], 0);
      } else {
        assert |bs| < k;
      }
    }
  }

  lemma QuietLayout(t: Type)
    requires !t.TSingleChannelControlResponse? && !t.TSceneControlResponse? && !t.TZoneBeastBroadcast?
    ensures forall i :: 0 <= i < |Layout(t)| ==> !Layout(t)[i].KChannelStatus?
  {}

  lemma StatusTypes(op: bv16)
    ensures !Recognize(op).Panic?
    ensures Recognize(op) == Ok(TSingleChannelControlResponse) <==> op == 0x0032
    ensures Recognize(op) == Ok(TSceneControlResponse) <==> op == 0x0003
    ensures Recognize(op) == Ok(TZoneBeastBroadcast) <==> op == 0xefff
  {}

  // Exactly which payloads make the parser panic.
  lemma CrashIff(op: bv16, bs: seq<bv8>)
    ensures DecodeMessage(op, bs).Panic? <==> CrashPayload(op, bs)
  {
    hide Recognize, FromFields, DecodeAll;
    StatusTypes(op);
    if Recognize(op).Ok? {
      var t := Recognize(op).value;
      if DecodeAll(Layout(t), bs).Ok? { NoPanicFields(t, bs); }
      match t
      case TSingleChannelControlResponse => ResponsePanicIff(bs);
      case TSceneControlResponse =>
        assert Layout(t) == seq(2, _ => KUint8) + [KChannelStatus];
        ScenePanic(bs, 2);
      case TZoneBeastBroadcast => BroadcastPanicIff(bs);
      case _ =>
        QuietLayout(t);
        NoStatusNoPanic(Layout(t), bs);
    }
  }

  lemma NoPanicFields(t: Type, bs: seq<bv8>)
    requires DecodeAll(Layout(t), bs).Ok?
    ensures HasLayout(DecodeAll(Layout(t), bs).value, Layout(t))
        && !FromFields(t, DecodeAll(Layout(t), bs).value).Panic?
  {
    hide DecodeAll;
    DecodedLayout(Layout(t), bs);
  }
}
