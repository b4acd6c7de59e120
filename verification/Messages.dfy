/**
 The twenty-three messages of smartbus/messages.go, their layouts and opcodes, and
 ParseMessage and WriteMessage at the level of whole messages.
 */
module Messages {
  import opened Outcome
  import opened MessageFormat

  type Mac = bs: seq<bv8> | |bs| == 8 witness [0, 0, 0, 0, 0, 0, 0, 0]
  type Modes = names: seq<string> | |names| == 16
    witness ["", "", "", "", "", "", "", "", "", "", "", "", "", "", "", ""]

  datatype Message =
    | SingleChannelControlCommand(channelNo: bv8, level: bv8, duration: bv16)
    | SingleChannelControlResponse(channelNo: bv8, success: bool, level: bv8, channelStatus: seq<bool>)
    | SceneControl(zoneNo: bv8, sceneNo: bv8)
    | SceneControlResponse(zoneNo: bv8, sceneNo: bv8, channelStatus: seq<bool>)
    | ZoneBeastBroadcast(zoneStatus: seq<bv8>, channelStatus: seq<bool>)
    | QueryModules
    | QueryModulesResponse(deviceSubnetID: bv8, deviceID: bv8, category: bv8, channelNo: bv8,
                           hvacSubnetID: bv8, hvacDeviceID: bv8)
    | PanelControlResponse(controlType: bv8, value: bv8)
    | QueryChannelStatuses(index: bv8)
    | QueryChannelStatusesResponse(levels: seq<bv8>)
    | QueryPanelButtonAssignment(buttonNo: bv8, functionNo: bv8)
    | QueryPanelButtonAssignmentResponse(buttonNo: bv8, functionNo: bv8, command: bv8, commandSubnetID: bv8,
        commandDeviceID: bv8, channelNo: bv8, level: bv8, duration: bv16)
    | AssignPanelButton(buttonNo: bv8, functionNo: bv8, command: bv8, commandSubnetID: bv8,
        commandDeviceID: bv8, channelNo: bv8, level: bv8, duration: bv16, unknown: bv8)
    | AssignPanelButtonResponse(buttonNo: bv8, functionNo: bv8)
    | SetPanelButtonModes(modes: Modes)
    | SetPanelButtonModesResponse(success: bool)
    | ReadMACAddress
    | ReadMACAddressResponse(mac: Mac, remark: seq<bv8>)
    | ReadTemperatureValues(useCelsius: bool)
    | ReadTemperatureValuesResponse(useCelsius: bool, values: seq<int8>)
    | ReadSensorStatus
    | ReadSensorStatusResponse(success: bool, temperature: int, illuminance: bv16, movement: bool,
        dryContact1: bool, dryContact2: bool, reserved1: bv8, reserved2: bv8)
    | SensorStatusBroadcast(temperature: int, illuminance: bv16, movement: bool,
        dryContact1: bool, dryContact2: bool, reserved1: bv8, reserved2: bv8)

  // Categories of the device that a QueryModulesResponse names.
  const DEV_DIMMER: bv8 := 0x01
  const DEV_RELAY: bv8 := 0x02
  const DEV_HVAC: bv8 := 0x03
  const DEV_SENSORS: bv8 := 0x04
  const DEV_Z_AUDIO: bv8 := 0x05

  // The registered message types.
  datatype Type =
    | TSingleChannelControlCommand
    | TSingleChannelControlResponse
    | TSceneControl
    | TSceneControlResponse
    | TZoneBeastBroadcast
    | TQueryModules
    | TQueryModulesResponse
    | TPanelControlResponse
    | TQueryChannelStatuses
    | TQueryChannelStatusesResponse
    | TQueryPanelButtonAssignment
    | TQueryPanelButtonAssignmentResponse
    | TAssignPanelButton
    | TAssignPanelButtonResponse
    | TSetPanelButtonModes
    | TSetPanelButtonModesResponse
    | TReadMACAddress
    | TReadMACAddressResponse
    | TReadTemperatureValues
    | TReadTemperatureValuesResponse
    | TReadSensorStatus
    | TReadSensorStatusResponse
    | TSensorStatusBroadcast

  function TypeOf(m: Message): Type {
    match m
    case SingleChannelControlCommand(_, _, _) => TSingleChannelControlCommand
    case SingleChannelControlResponse(_, _, _, _) => TSingleChannelControlResponse
    case SceneControl(_, _) => TSceneControl
    case SceneControlResponse(_, _, _) => TSceneControlResponse
    case ZoneBeastBroadcast(_, _) => TZoneBeastBroadcast
    case QueryModules => TQueryModules
    case QueryModulesResponse(_, _, _, _, _, _) => TQueryModulesResponse
    case PanelControlResponse(_, _) => TPanelControlResponse
    case QueryChannelStatuses(_) => TQueryChannelStatuses
    case QueryChannelStatusesResponse(_) => TQueryChannelStatusesResponse
    case QueryPanelButtonAssignment(_, _) => TQueryPanelButtonAssignment
    case QueryPanelButtonAssignmentResponse(_, _, _, _, _, _, _, _) => TQueryPanelButtonAssignmentResponse
    case AssignPanelButton(_, _, _, _, _, _, _, _, _) => TAssignPanelButton
    case AssignPanelButtonResponse(_, _) => TAssignPanelButtonResponse
    case SetPanelButtonModes(_) => TSetPanelButtonModes
    case SetPanelButtonModesResponse(_) => TSetPanelButtonModesResponse
    case ReadMACAddress => TReadMACAddress
    case ReadMACAddressResponse(_, _) => TReadMACAddressResponse
    case ReadTemperatureValues(_) => TReadTemperatureValues
    case ReadTemperatureValuesResponse(_, _) => TReadTemperatureValuesResponse
    case ReadSensorStatus => TReadSensorStatus
    case ReadSensorStatusResponse(_, _, _, _, _, _, _, _) => TReadSensorStatusResponse
    case SensorStatusBroadcast(_, _, _, _, _, _, _) => TSensorStatusBroadcast
  }

  function OpcodeOf(t: Type): bv16 {
    match t
    case TSingleChannelControlCommand => 0x0031
    case TSingleChannelControlResponse => 0x0032
    case TSceneControl => 0x0002
    case TSceneControlResponse => 0x0003
    case TZoneBeastBroadcast => 0xefff
    case TQueryModules => 0x0286
    case TQueryModulesResponse => 0x0287
    case TPanelControlResponse => 0xe3d9
    case TQueryChannelStatuses => 0x0033
    case TQueryChannelStatusesResponse => 0x0034
    case TQueryPanelButtonAssignment => 0xe000
    case TQueryPanelButtonAssignmentResponse => 0xe001
    case TAssignPanelButton => 0xe002
    case TAssignPanelButtonResponse => 0xe003
    case TSetPanelButtonModes => 0xe00a
    case TSetPanelButtonModesResponse => 0xe00b
    case TReadMACAddress => 0xf003
    case TReadMACAddressResponse => 0xf004
    case TReadTemperatureValues => 0xe3e7
    case TReadTemperatureValuesResponse => 0xe3e8
    case TReadSensorStatus => 0x1645
    case TReadSensorStatusResponse => 0x1646
    case TSensorStatusBroadcast => 0x1647
  }

  function Opcode(m: Message): bv16 { OpcodeOf(TypeOf(m)) }

  // The lookup in recognizedMessages.
  function Recognize(op: bv16): Outcome<Type> {
    if op == 0x0031 then Ok(TSingleChannelControlCommand)
    else if op == 0x0032 then Ok(TSingleChannelControlResponse)
    else if op == 0x0002 then Ok(TSceneControl)
    else if op == 0x0003 then Ok(TSceneControlResponse)
    else if op == 0xefff then Ok(TZoneBeastBroadcast)
    else if op == 0x0286 then Ok(TQueryModules)
    else if op == 0x0287 then Ok(TQueryModulesResponse)
    else if op == 0xe3d9 then Ok(TPanelControlResponse)
    else if op == 0x0033 then Ok(TQueryChannelStatuses)
    else if op == 0x0034 then Ok(TQueryChannelStatusesResponse)
    else if op == 0xe000 then Ok(TQueryPanelButtonAssignment)
    else if op == 0xe001 then Ok(TQueryPanelButtonAssignmentResponse)
    else if op == 0xe002 then Ok(TAssignPanelButton)
    else if op == 0xe003 then Ok(TAssignPanelButtonResponse)
    else if op == 0xe00a then Ok(TSetPanelButtonModes)
    else if op == 0xe00b then Ok(TSetPanelButtonModesResponse)
    else if op == 0xf003 then Ok(TReadMACAddress)
    else if op == 0xf004 then Ok(TReadMACAddressResponse)
    else if op == 0xe3e7 then Ok(TReadTemperatureValues)
    else if op == 0xe3e8 then Ok(TReadTemperatureValuesResponse)
    else if op == 0x1645 then Ok(TReadSensorStatus)
    else if op == 0x1646 then Ok(TReadSensorStatusResponse)
    else if op == 0x1647 then Ok(TSensorStatusBroadcast)
    else Err(UnknownOpcode)
  }

  // The fields of each struct, in order. QueryModulesResponse has its raw form.
  function Layout(t: Type): seq<Kind> {
    match t
    case TSingleChannelControlCommand => [KUint8, KUint8, KUint16]
    case TSingleChannelControlResponse => [KUint8, KSuccess, KUint8, KChannelStatus]
    case TSceneControl => [KUint8, KUint8]
    case TSceneControlResponse => [KUint8, KUint8, KChannelStatus]
    case TZoneBeastBroadcast => [KStatusBytes, KChannelStatus]
    case TQueryModules => []
    case TQueryModulesResponse => [KUint8, KUint8, KUint8, KUint8, KUint8, KUint8, KUint8]
    case TPanelControlResponse => [KUint8, KUint8]
    case TQueryChannelStatuses => [KUint8]
    case TQueryChannelStatusesResponse => [KStatusBytes]
    case TQueryPanelButtonAssignment => [KUint8, KUint8]
    case TQueryPanelButtonAssignmentResponse => [KUint8, KUint8, KUint8, KUint8, KUint8, KUint8, KUint8, KUint16]
    case TAssignPanelButton => [KUint8, KUint8, KUint8, KUint8, KUint8, KUint8, KUint8, KUint16, KUint8]
    case TAssignPanelButtonResponse => [KUint8, KUint8]
    case TSetPanelButtonModes => [KModes]
    case TSetPanelButtonModesResponse => [KSuccess]
    case TReadMACAddress => []
    case TReadMACAddressResponse => [KBytes8, KRemark]
    case TReadTemperatureValues => [KFlag]
    case TReadTemperatureValuesResponse => [KFlag, KTempList]
    case TReadSensorStatus => []
    case TReadSensorStatusResponse => [KSuccess, KSensorTemp, KUint16, KFlag, KFlag, KFlag, KUint8, KUint8]
    case TSensorStatusBroadcast => [KSensorTemp, KUint16, KFlag, KFlag, KFlag, KUint8, KUint8]
  }

  // The field values of a message; ToRaw for QueryModulesResponse.
  function Fields(m: Message): Outcome<seq<Value>> {
    match m
    case SingleChannelControlCommand(x0, x1, x2) =>
      Ok([Uint8(x0), Uint8(x1), Uint16(x2)])
    case SingleChannelControlResponse(x0, x1, x2, x3) =>
      Ok([Uint8(x0), Bool(x1), Uint8(x2), Bools(x3)])
    case SceneControl(x0, x1) =>
      Ok([Uint8(x0), Uint8(x1)])
    case SceneControlResponse(x0, x1, x2) =>
      Ok([Uint8(x0), Uint8(x1), Bools(x2)])
    case ZoneBeastBroadcast(x0, x1) =>
      Ok([Bytes(x0), Bools(x1)])
    case QueryModules =>
      Ok([])
    case QueryModulesResponse(subnet, id, category, channelNo, hvacSubnet, hvacId) =>
      if category == DEV_DIMMER || category == DEV_RELAY then
        Ok([Uint8(subnet), Uint8(id), Uint8(category), Uint8(channelNo), Uint8(0x64), Uint8(0), Uint8(0)])
      else if category == DEV_HVAC then
        Ok([Uint8(subnet), Uint8(id), Uint8(category), Uint8(hvacSubnet), Uint8(hvacId), Uint8(0), Uint8(0)])
      else
        Err(BadCategory)
    case PanelControlResponse(x0, x1) =>
      Ok([Uint8(x0), Uint8(x1)])
    case QueryChannelStatuses(x0) =>
      Ok([Uint8(x0)])
    case QueryChannelStatusesResponse(x0) =>
      Ok([Bytes(x0)])
    case QueryPanelButtonAssignment(x0, x1) =>
      Ok([Uint8(x0), Uint8(x1)])
    case QueryPanelButtonAssignmentResponse(x0, x1, x2, x3, x4, x5, x6, x7) =>
      Ok([Uint8(x0), Uint8(x1), Uint8(x2), Uint8(x3), Uint8(x4), Uint8(x5), Uint8(x6), Uint16(x7)])
    case AssignPanelButton(x0, x1, x2, x3, x4, x5, x6, x7, x8) =>
      Ok([Uint8(x0), Uint8(x1), Uint8(x2), Uint8(x3), Uint8(x4), Uint8(x5), Uint8(x6), Uint16(x7), Uint8(x8)])
    case AssignPanelButtonResponse(x0, x1) =>
      Ok([Uint8(x0), Uint8(x1)])
    case SetPanelButtonModes(x0) =>
      Ok([Names(x0)])
    case SetPanelButtonModesResponse(x0) =>
      Ok([Bool(x0)])
    case ReadMACAddress =>
      Ok([])
    case ReadMACAddressResponse(x0, x1) =>
      Ok([Bytes(x0), Bytes(x1)])
    case ReadTemperatureValues(x0) =>
      Ok([Bool(x0)])
    case ReadTemperatureValuesResponse(x0, x1) =>
      Ok([Bool(x0), Temps(x1)])
    case ReadSensorStatus =>
      Ok([])
    case ReadSensorStatusResponse(x0, x1, x2, x3, x4, x5, x6, x7) =>
      Ok([Bool(x0), Int(x1), Uint16(x2), Bool(x3), Bool(x4), Bool(x5), Uint8(x6), Uint8(x7)])
    case SensorStatusBroadcast(x0, x1, x2, x3, x4, x5, x6) =>
      Ok([Int(x0), Uint16(x1), Bool(x2), Bool(x3), Bool(x4), Uint8(x5), Uint8(x6)])
  }

  // The message with those field values; FromRaw for QueryModulesResponse.
  function FromFields(t: Type, vs: seq<Value>): Outcome<Message>
    requires HasLayout(vs, Layout(t))
  {
    match t
    case TSingleChannelControlCommand => Ok(SingleChannelControlCommand(vs[0].b, vs[1].b, vs[2].w))
    case TSingleChannelControlResponse => Ok(SingleChannelControlResponse(vs[0].b, vs[1].flag, vs[2].b, vs[3].status))
    case TSceneControl => Ok(SceneControl(vs[0].b, vs[1].b))
    case TSceneControlResponse => Ok(SceneControlResponse(vs[0].b, vs[1].b, vs[2].status))
    case TZoneBeastBroadcast => Ok(ZoneBeastBroadcast(vs[0].bs, vs[1].status))
    case TQueryModules => Ok(QueryModules)
    case TQueryModulesResponse =>
      var category := vs[2].b;
      if category == DEV_DIMMER || category == DEV_RELAY then
        Ok(QueryModulesResponse(vs[0].b, vs[1].b, category, vs[3].b, 0, 0))
      else if category == DEV_HVAC then
        Ok(QueryModulesResponse(vs[0].b, vs[1].b, category, 0, vs[3].b, vs[4].b))
      else if category == DEV_SENSORS || category == DEV_Z_AUDIO then
        Ok(QueryModulesResponse(vs[0].b, vs[1].b, category, 0, 0, 0))
      else
        Err(BadCategory)
    case TPanelControlResponse => Ok(PanelControlResponse(vs[0].b, vs[1].b))
    case TQueryChannelStatuses => Ok(QueryChannelStatuses(vs[0].b))
    case TQueryChannelStatusesResponse => Ok(QueryChannelStatusesResponse(vs[0].bs))
    case TQueryPanelButtonAssignment => Ok(QueryPanelButtonAssignment(vs[0].b, vs[1].b))
    case TQueryPanelButtonAssignmentResponse =>
      Ok(QueryPanelButtonAssignmentResponse(vs[0].b, vs[1].b, vs[2].b, vs[3].b, vs[4].b, vs[5].b, vs[6].b, vs[7].w))
    case TAssignPanelButton => Ok(AssignPanelButton(vs[0].b, vs[1].b, vs[2].b, vs[3].b, vs[4].b, vs[5].b, vs[6].b,
        vs[7].w, vs[8].b))
    case TAssignPanelButtonResponse => Ok(AssignPanelButtonResponse(vs[0].b, vs[1].b))
    case TSetPanelButtonModes => Ok(SetPanelButtonModes(vs[0].names))
    case TSetPanelButtonModesResponse => Ok(SetPanelButtonModesResponse(vs[0].flag))
    case TReadMACAddress => Ok(ReadMACAddress)
    case TReadMACAddressResponse => Ok(ReadMACAddressResponse(vs[0].bs, vs[1].bs))
    case TReadTemperatureValues => Ok(ReadTemperatureValues(vs[0].flag))
    case TReadTemperatureValuesResponse => Ok(ReadTemperatureValuesResponse(vs[0].flag, vs[1].temps))
    case TReadSensorStatus => Ok(ReadSensorStatus)
    case TReadSensorStatusResponse =>
      Ok(ReadSensorStatusResponse(vs[0].flag, vs[1].i, vs[2].w, vs[3].flag, vs[4].flag, vs[5].flag, vs[6].b, vs[7].b))
    case TSensorStatusBroadcast => Ok(SensorStatusBroadcast(vs[0].i, vs[1].w, vs[2].flag, vs[3].flag, vs[4].flag,
        vs[5].b, vs[6].b))
  }

  lemma RecognizeOpcode(t: Type)
    ensures Recognize(OpcodeOf(t)) == Ok(t)
  {}

  // ParseMessage, with the lookup of the opcode before it.
  function DecodeMessage(op: bv16, bs: seq<bv8>): Outcome<Message> {
    var t :- Recognize(op);
    var vs :- DecodeAll(Layout(t), bs);
    DecodedLayout(Layout(t), bs);
    FromFields(t, vs)
  }

  // WriteMessage, of the raw form where there is one.
  function EncodeMessage(m: Message): Outcome<seq<bv8>> {
    var vs :- Fields(m);
    FieldsLayout(m);
    EncodeAll(Layout(TypeOf(m)), vs)
  }

  lemma DecodedLayout(layout: seq<Kind>, bs: seq<bv8>)
    requires DecodeAll(layout, bs).Ok?
    ensures HasLayout(DecodeAll(layout, bs).value, layout)
  {
    NormalisesAll(layout, bs);
  }

  // The messages about channels and zones.
  predicate AboutChannels(m: Message) {
    m.SingleChannelControlCommand? || m.SingleChannelControlResponse? || m.SceneControl? || m.SceneControlResponse?
    || m.ZoneBeastBroadcast? || m.QueryChannelStatuses? || m.QueryChannelStatusesResponse?
  }

  // The messages about modules and panel buttons.
  predicate AboutPanels(m: Message) {
    m.QueryModules? || m.QueryModulesResponse? || m.PanelControlResponse?
    || m.QueryPanelButtonAssignment? || m.QueryPanelButtonAssignmentResponse? || m.AssignPanelButton?
    || m.AssignPanelButtonResponse? || m.SetPanelButtonModes? || m.SetPanelButtonModesResponse?
  }

  // The messages about eight-in-one sensors.
  predicate AboutSensors(m: Message) {
    m.ReadSensorStatus? || m.ReadSensorStatusResponse? || m.SensorStatusBroadcast?
  }

  predicate AboutOthers(m: Message) {
    m.ReadMACAddress? || m.ReadMACAddressResponse? || m.ReadTemperatureValues? || m.ReadTemperatureValuesResponse?
  }

  lemma ChannelFieldsLayout(m: Message)
    requires AboutChannels(m)
    ensures Fields(m).Ok? && HasLayout(Fields(m).value, Layout(TypeOf(m)))
    ensures FromFields(TypeOf(m), Fields(m).value) == Ok(m)
  {}

  lemma PanelFieldsLayout(m: Message)
    requires AboutPanels(m) && Fields(m).Ok?
    ensures HasLayout(Fields(m).value, Layout(TypeOf(m)))
  {}

  lemma SensorFieldsLayout(m: Message)
    requires AboutSensors(m)
    ensures Fields(m).Ok? && HasLayout(Fields(m).value, Layout(TypeOf(m)))
    ensures FromFields(TypeOf(m), Fields(m).value) == Ok(m)
  {}

  lemma OtherFieldsLayout(m: Message)
    requires AboutOthers(m)
    ensures Fields(m).Ok? && HasLayout(Fields(m).value, Layout(TypeOf(m)))
    ensures FromFields(TypeOf(m), Fields(m).value) == Ok(m)
  {}

  lemma FieldsLayout(m: Message)
    requires Fields(m).Ok?
    ensures HasLayout(Fields(m).value, Layout(TypeOf(m)))
  {
    hide Fields, HasLayout, Layout, TypeOf, FromFields;
    if AboutChannels(m) {
      ChannelFieldsLayout(m);
    } else if AboutPanels(m) {
      PanelFieldsLayout(m);
    } else if AboutSensors(m) {
      SensorFieldsLayout(m);
    } else {
      OtherFieldsLayout(m);
    }
  }

  // The fields of a QueryModulesResponse that its category leaves unused are zero.
  predicate UnusedZero(m: Message) {
    m.QueryModulesResponse? ==>
      if m.category == DEV_DIMMER || m.category == DEV_RELAY then m.hvacSubnetID == 0 && m.hvacDeviceID == 0
      else if m.category == DEV_HVAC then m.channelNo == 0
      else m.channelNo == 0 && m.hvacSubnetID == 0 && m.hvacDeviceID == 0
  }

  // Exactly the messages that survive being written and read.
  predicate InDomain(m: Message) {
    match m
    case SingleChannelControlResponse(_, _, _, status) => |status| <= 248
    case SceneControlResponse(_, _, status) => |status| <= 248
    case ZoneBeastBroadcast(zones, status) => |zones| <= 255 && |status| <= 248
    case QueryModulesResponse(_, _, category, _, _, _) =>
      (category == DEV_DIMMER || category == DEV_RELAY || category == DEV_HVAC) && UnusedZero(m)
    case QueryChannelStatusesResponse(levels) => |levels| <= 255
    case SetPanelButtonModes(modes) => forall name <- modes :: name in PANEL_MODES
    case ReadMACAddressResponse(_, remark) => |remark| <= 63
    case ReadTemperatureValuesResponse(_, values) => |values| <= 8
    case ReadSensorStatusResponse(_, temperature, _, _, _, _, _, _) => -20 <= temperature <= 235
    case SensorStatusBroadcast(temperature, _, _, _, _, _, _) => -20 <= temperature <= 235
    case _ => true
  }

  // Of the messages that can be read, exactly those that can also be written: no
  // button mode was left unset, and the category has a raw form.
  predicate Writable(m: Message) {
    match m
    case SetPanelButtonModes(modes) => "" !in modes
    case QueryModulesResponse(_, _, category, _, _, _) =>
      category == DEV_DIMMER || category == DEV_RELAY || category == DEV_HVAC
    case _ => true
  }

  lemma PanelFieldsBack(m: Message)
    requires AboutPanels(m) && Fields(m).Ok? && HasLayout(Fields(m).value, Layout(TypeOf(m)))
    ensures FromFields(TypeOf(m), Fields(m).value) == Ok(m) <==> UnusedZero(m)
  {
    hide HasLayout;
  }

  // Reading the fields of a written message gives it back, unless unused fields are lost.
  lemma FieldsBack(m: Message)
    requires Fields(m).Ok? && HasLayout(Fields(m).value, Layout(TypeOf(m)))
    ensures FromFields(TypeOf(m), Fields(m).value) == Ok(m) <==> UnusedZero(m)
  {
    hide Fields, HasLayout, Layout, TypeOf, FromFields;
    if AboutChannels(m) {
      ChannelFieldsLayout(m);
    } else if AboutPanels(m) {
      PanelFieldsBack(m);
    } else if AboutSensors(m) {
      SensorFieldsLayout(m);
    } else {
      OtherFieldsLayout(m);
    }
  }

  lemma ChannelFits(m: Message)
    requires AboutChannels(m) && Fields(m).Ok? && HasLayout(Fields(m).value, Layout(TypeOf(m)))
    ensures FitsAll(Layout(TypeOf(m)), Fields(m).value) <==> InDomain(m)
  {
    hide PANEL_MODES;
    var l, vs := Layout(TypeOf(m)), Fields(m).value;
    if FitsAll(l, vs) {
      match m
      case SingleChannelControlResponse(_, _, _, _) => assert Fits(l[3], vs[3]);
      case SceneControlResponse(_, _, _) => assert Fits(l[2], vs[2]);
      case ZoneBeastBroadcast(_, _) => assert Fits(l[0], vs[0]) && Fits(l[1], vs[1]);
      case QueryChannelStatusesResponse(_) => assert Fits(l[0], vs[0]);
      case _ =>
    }
  }

  lemma PanelFits(m: Message)
    requires AboutPanels(m) && Fields(m).Ok? && HasLayout(Fields(m).value, Layout(TypeOf(m)))
    ensures FitsAll(Layout(TypeOf(m)), Fields(m).value) && UnusedZero(m) <==> InDomain(m)
  {
    hide PANEL_MODES;
    var l, vs := Layout(TypeOf(m)), Fields(m).value;
    if FitsAll(l, vs) && m.SetPanelButtonModes? {
      assert Fits(l[0], vs[0]);
    }
  }

  lemma SensorResponseFits(m: Message)
    requires m.ReadSensorStatusResponse? && Fields(m).Ok? && HasLayout(Fields(m).value, Layout(TypeOf(m)))
    ensures FitsAll(Layout(TypeOf(m)), Fields(m).value) <==> InDomain(m)
  {
    var l, vs := Layout(TReadSensorStatusResponse), Fields(m).value;
    assert FitsAll(l, vs) ==> Fits(l[1], vs[1]);
  }

  lemma SensorFits(m: Message)
    requires AboutSensors(m) && Fields(m).Ok? && HasLayout(Fields(m).value, Layout(TypeOf(m)))
    ensures FitsAll(Layout(TypeOf(m)), Fields(m).value) <==> InDomain(m)
  {
    if m.ReadSensorStatusResponse? {
      SensorResponseFits(m);
    } else if m.SensorStatusBroadcast? {
      var l, vs := Layout(TSensorStatusBroadcast), Fields(m).value;
      assert FitsAll(l, vs) ==> Fits(l[0], vs[0]);
    }
  }

  lemma OtherFits(m: Message)
    requires AboutOthers(m)
    requires Fields(m).Ok? && HasLayout(Fields(m).value, Layout(TypeOf(m)))
    ensures FitsAll(Layout(TypeOf(m)), Fields(m).value) <==> InDomain(m)
  {
    hide PANEL_MODES;
    var l, vs := Layout(TypeOf(m)), Fields(m).value;
    if FitsAll(l, vs) && (m.ReadMACAddressResponse? || m.ReadTemperatureValuesResponse?) {
      assert Fits(l[1], vs[1]);
    }
  }

  lemma FitsIsDomain(m: Message)
    requires Fields(m).Ok? && HasLayout(Fields(m).value, Layout(TypeOf(m)))
    ensures FitsAll(Layout(TypeOf(m)), Fields(m).value) && UnusedZero(m) <==> InDomain(m)
  {
    hide Fields, HasLayout, Layout, TypeOf, FromFields, FitsAll, InDomain;
    if AboutChannels(m) {
      ChannelFits(m);
    } else if AboutPanels(m) {
      PanelFits(m);
    } else if AboutSensors(m) {
      SensorFits(m);
    } else {
      OtherFits(m);
    }
  }

  lemma DomainHasFields(m: Message)
    requires InDomain(m)
    ensures Fields(m).Ok?
  {}

  lemma LayoutGreedyLast(t: Type)
    ensures GreedyLast(Layout(t))
  {}

  predicate ChannelType(t: Type) {
    t.TSingleChannelControlCommand? || t.TSingleChannelControlResponse? || t.TSceneControl? || t.TSceneControlResponse?
    || t.TZoneBeastBroadcast? || t.TQueryChannelStatuses? || t.TQueryChannelStatusesResponse?
  }

  predicate PanelType(t: Type) {
    t.TQueryModules? || t.TPanelControlResponse? || t.TQueryPanelButtonAssignment? || t.TAssignPanelButtonResponse?
    || t.TSetPanelButtonModes? || t.TSetPanelButtonModesResponse?
  }

  predicate AssignmentType(t: Type) { t.TQueryPanelButtonAssignmentResponse? || t.TAssignPanelButton? }

  predicate SensorType(t: Type) { t.TReadSensorStatus? || t.TReadSensorStatusResponse? || t.TSensorStatusBroadcast? }

  predicate OtherType(t: Type) {
    t.TReadMACAddress? || t.TReadMACAddressResponse? || t.TReadTemperatureValues? || t.TReadTemperatureValuesResponse?
  }

  // The message read from these fields has this type and these fields.
  predicate ReadAs(t: Type, vs: seq<Value>)
    requires HasLayout(vs, Layout(t))
  {
    var m := FromFields(t, vs);
    m.Ok? && TypeOf(m.value) == t && Fields(m.value).Ok? && Fields(m.value).value == vs
  }

  lemma ChannelFieldsOfRead(t: Type, vs: seq<Value>)
    requires HasLayout(vs, Layout(t)) && ChannelType(t)
    ensures ReadAs(t, vs)
  {}

  lemma PanelFieldsOfRead(t: Type, vs: seq<Value>)
    requires HasLayout(vs, Layout(t)) && PanelType(t)
    ensures ReadAs(t, vs)
  {}

  lemma AssignmentFieldsOfRead(t: Type, vs: seq<Value>)
    requires HasLayout(vs, Layout(t)) && AssignmentType(t)
    ensures ReadAs(t, vs)
  {}

  lemma ModuleFieldsOfRead(vs: seq<Value>)
    requires HasLayout(vs, Layout(TQueryModulesResponse)) && FromFields(TQueryModulesResponse, vs).Ok?
    ensures var m := FromFields(TQueryModulesResponse, vs).value; m.QueryModulesResponse? && UnusedZero(m)
  {}

  lemma SensorFieldsOfRead(t: Type, vs: seq<Value>)
    requires HasLayout(vs, Layout(t)) && SensorType(t)
    ensures ReadAs(t, vs)
  {}

  lemma OtherFieldsOfRead(t: Type, vs: seq<Value>)
    requires HasLayout(vs, Layout(t)) && OtherType(t)
    ensures ReadAs(t, vs)
  {}

  // A message that was read has the fields it was read from, except that the raw form
  // of QueryModulesResponse is rebuilt.
  lemma FieldsOfRead(t: Type, vs: seq<Value>)
    requires HasLayout(vs, Layout(t)) && FromFields(t, vs).Ok?
    ensures var m := FromFields(t, vs).value;
      TypeOf(m) == t && UnusedZero(m) && (!m.QueryModulesResponse? ==> Fields(m) == Ok(vs))
  {
    hide Fields, HasLayout, Layout, FromFields;
    if ChannelType(t) {
      ChannelFieldsOfRead(t, vs);
    } else if PanelType(t) {
      PanelFieldsOfRead(t, vs);
    } else if AssignmentType(t) {
      AssignmentFieldsOfRead(t, vs);
    } else if SensorType(t) {
      SensorFieldsOfRead(t, vs);
    } else if OtherType(t) {
      OtherFieldsOfRead(t, vs);
    } else {
      assert t == TQueryModulesResponse;
      ModuleFieldsOfRead(vs);
    }
  }

  // ----- the main results -----

  // Parsing what WriteMessage wrote gives the message back, exactly for the messages in
  // the domain.
  lemma RoundTripIff(m: Message)
    ensures InDomain(m) <==>
            EncodeMessage(m).Ok? && DecodeMessage(Opcode(m), EncodeMessage(m).value) == Ok(m)
  {
    hide Fields, HasLayout, Layout, TypeOf, FromFields, FitsAll, InDomain, UnusedZero, OpcodeOf, Recognize,
        EncodeAll, DecodeAll;
    var t := TypeOf(m);
    RecognizeOpcode(t);
    if InDomain(m) {
      DomainHasFields(m);
      FieldsLayout(m);
      FitsIsDomain(m);
      LayoutGreedyLast(t);
      DecodeEncodeAll(Layout(t), Fields(m).value);
      FieldsBack(m);
    }
    if EncodeMessage(m).Ok? && DecodeMessage(Opcode(m), EncodeMessage(m).value) == Ok(m) {
      Normalise(Opcode(m), EncodeMessage(m).value);
    }
  }

  predicate AllUint8(layout: seq<Kind>) {
    forall i :: 0 <= i < |layout| ==> layout[i] == KUint8
  }

  lemma UintSize(layout: seq<Kind>, vs: seq<Value>)
    requires HasLayout(vs, layout) && AllUint8(layout)
    ensures EncodeAll(layout, vs).Ok? && |EncodeAll(layout, vs).value| == |layout|
    ensures FitsAll(layout, vs)
  {
    hide HasKind;
    if |layout| > 0 {
      assert layout[0] == KUint8 && HasKind(vs[0], KUint8);
      UintSize(layout[1..], vs[1..]);
    }
  }

  // Whatever was read and can be written is in the domain, and is written in no more
  // bytes than it was read from: trailing bytes, padding bits and unmapped flags are
  // dropped.
  lemma Normalise(op: bv16, bs: seq<bv8>)
    requires DecodeMessage(op, bs).Ok? && EncodeMessage(DecodeMessage(op, bs).value).Ok?
    ensures var m := DecodeMessage(op, bs).value;
      && Opcode(m) == op
      && InDomain(m)
      && |EncodeMessage(m).value| <= |bs|
  {
    hide Fields, HasLayout, Layout, TypeOf, FromFields, FitsAll, InDomain, UnusedZero, OpcodeOf, Recognize,
        EncodeAll, DecodeAll;
    var t := Recognize(op).value;
    var vs := DecodeAll(Layout(t), bs).value;
    var m := DecodeMessage(op, bs).value;
    RecognizedOpcode(op);
    NormalisesAll(Layout(t), bs);
    FieldsOfRead(t, vs);
    FieldsLayout(m);
    if m.QueryModulesResponse? {
      RawLayout(m);
      UintSize(Layout(t), vs);
      UintSize(Layout(t), Fields(m).value);
    }
    FitsIsDomain(m);
  }

  lemma RawLayout(m: Message)
    requires m.QueryModulesResponse?
    ensures AllUint8(Layout(TypeOf(m)))
  {}

  lemma RecognizedOpcode(op: bv16)
    requires Recognize(op).Ok?
    ensures OpcodeOf(Recognize(op).value) == op
  {}

  predicate NoModes(layout: seq<Kind>) {
    forall i :: 0 <= i < |layout| ==> layout[i] != KModes
  }

  lemma {:induction false} ReadFitsAll(layout: seq<Kind>, bs: seq<bv8>)
    requires DecodeAll(layout, bs).Ok? && NoModes(layout)
    requires HasLayout(DecodeAll(layout, bs).value, layout)
    ensures FitsAll(layout, DecodeAll(layout, bs).value)
  {
    hide Decode, Fits, HasKind;
    if |layout| > 0 {
      var (v, rest) := Decode(layout[0], bs).value;
      ReadFits(layout[0], bs);
      DecodedLayout(layout[1..], rest);
      ReadFitsAll(layout[1..], rest);
      var vs := DecodeAll(layout, bs).value;
      assert vs[0] == v && vs[1..] == DecodeAll(layout[1..], rest).value;
    }
  }

  lemma OnlyModesHaveModes(t: Type)
    requires t != TSetPanelButtonModes
    ensures NoModes(Layout(t))
  {}

  lemma ReadModesWritable(bs: seq<bv8>)
    requires DecodeMessage(0xe00a, bs).Ok?
    ensures DecodeMessage(0xe00a, bs).value.SetPanelButtonModes?
    ensures InDomain(DecodeMessage(0xe00a, bs).value) <==> Writable(DecodeMessage(0xe00a, bs).value)
  {
    hide PANEL_MODES, ModeName;
    var names := NamesOf(bs[..16]);
    assert DecodeMessage(0xe00a, bs).value == SetPanelButtonModes(names);
    forall i | 0 <= i < 16 ensures names[i] != "" <==> names[i] in PANEL_MODES {
      ModeNameKnown(bs[i]);
    }
  }

  lemma ModeNameKnown(b: bv8)
    ensures ModeName(b) != "" <==> ModeName(b) in PANEL_MODES
  {
    hide PANEL_MODES;
    ModesAreFew();
    NoEmptyMode();
  }

  lemma NoEmptyMode()
    ensures forall i :: 0 <= i < |PANEL_MODES| ==> PANEL_MODES[i] != ""
  {
    forall i | 0 <= i < |PANEL_MODES| ensures PANEL_MODES[i] != "" {
      if i < 10 { ModesDistinct(i, 10); }
    }
  }

  // A message that was read can be written back exactly when it is Writable.
  lemma WritableIff(op: bv16, bs: seq<bv8>)
    requires DecodeMessage(op, bs).Ok?
    ensures var m := DecodeMessage(op, bs).value;
      EncodeMessage(m).Ok? <==> Writable(m)
  {
    hide Fields, HasLayout, Layout, TypeOf, FromFields, FitsAll, InDomain, UnusedZero, OpcodeOf, Recognize,
        EncodeAll, DecodeAll;
    var t := Recognize(op).value;
    var vs := DecodeAll(Layout(t), bs).value;
    var m := DecodeMessage(op, bs).value;
    if EncodeMessage(m).Ok? {
      Normalise(op, bs);
    } else if InDomain(m) {
      RoundTripIff(m);
    }
    DecodedLayout(Layout(t), bs);
    FieldsOfRead(t, vs);
    RecognizedOpcode(op);
    if t == TSetPanelButtonModes {
      ModesOpcode();
      ReadModesWritable(bs);
    } else {
      OnlyModesHaveModes(t);
      ReadFitsAll(Layout(t), bs);
      WritableType(m);
      if m.QueryModulesResponse? {
        RawWritable(m);
      } else {
        FitsIsDomain(m);
      }
    }
  }

  lemma ModesOpcode()
    ensures OpcodeOf(TSetPanelButtonModes) == 0xe00a
  {}

  lemma WritableType(m: Message)
    ensures m.SetPanelButtonModes? <==> TypeOf(m) == TSetPanelButtonModes
    ensures m.QueryModulesResponse? <==> TypeOf(m) == TQueryModulesResponse
  {}

  lemma RawWritable(m: Message)
    requires m.QueryModulesResponse? && UnusedZero(m)
    ensures InDomain(m) <==> Writable(m)
  {}
}
