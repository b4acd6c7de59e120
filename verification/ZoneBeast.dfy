/**
 The ZoneBeast and Hmix12 models of smartbus/smartbus_model.go: a mirror of the relay
 channels and the temperatures, published control by control.

 The handlers are loops over the object. What they do to the mirror is said without
 loops by Overlay; what they tell the observer is said call by call, and replaying it
 shows exactly the mirror.
 */
module ZoneBeast {
  import opened Strconv
  import opened Observer
  import opened MessageFormat
  import Messages

  const SWITCH := "switch"
  const TEMPERATURE := "temperature"

  // The control of the i-th channel, counted from 0 and named from 1.
  function ChannelName(i: nat): string { "Channel " + Itoa(i + 1) }

  function TempName(i: nat): string { "Temp " + Itoa(i + 1) }

  lemma NamesDiffer(m: nat, n: nat)
    ensures ChannelName(m) == ChannelName(n) ==> m == n
    ensures TempName(m) == TempName(n) ==> m == n
    ensures ChannelName(m) != TempName(n)
  {
    hide Digits;
    assert ChannelName(m)[8..] == Digits(m + 1) && ChannelName(n)[8..] == Digits(n + 1);
    assert TempName(m)[5..] == Digits(m + 1) && TempName(n)[5..] == Digits(n + 1);
    assert ChannelName(m)[0] == 'C' && TempName(n)[0] == 'T';
    if Digits(m + 1) == Digits(n + 1) {
      DigitsInjective(m + 1, n + 1);
    }
  }

  // New values over old ones; the old ones stay where there are no new.
  function Overlay<T>(under: seq<T>, over: seq<T>): (r: seq<T>)
    ensures |r| == if |over| > |under| then |over| else |under|
  {
    if |over| >= |under| then over else over + under[|over|..]
  }

  // ----- the calls, and what they show -----

  // The call for channel i when its status is reported: none when it has not changed.
  function ChannelCall(channels: seq<bool>, status: seq<bool>, i: nat): seq<Call>
    requires i < |status|
  {
    var value := Switch(status[i]);
    if i >= |channels| then [OnNewControl(ChannelName(i), SWITCH, value, false)]
    else if channels[i] == status[i] then []
    else [OnValue(ChannelName(i), value)]
  }

  // The calls for the first n channels of a report.
  function ChannelCalls(channels: seq<bool>, status: seq<bool>, n: nat): seq<Call>
    requires n <= |status|
  {
    if n == 0 then [] else ChannelCalls(channels, status, n - 1) + ChannelCall(channels, status, n - 1)
  }

  function TempCall(known: nat, values: seq<int8>, i: nat): Call
    requires i < |values|
  {
    var value := Itoa(values[i] as int);
    if i >= known then OnNewControl(TempName(i), TEMPERATURE, value, true) else OnValue(TempName(i), value)
  }

  function TempCalls(known: nat, values: seq<int8>, n: nat): seq<Call>
    requires n <= |values|
  {
    if n == 0 then [] else TempCalls(known, values, n - 1) + [TempCall(known, values, n - 1)]
  }

  // The observer shows one switch for each channel and one temperature for each sensor,
  // with their values, and nothing else.
  ghost predicate Shows(view: View, channels: seq<bool>, temps: seq<int8>) {
    && (forall i :: 0 <= i < |channels| ==> ChannelName(i) in view && view[ChannelName(i)] == Switch(channels[i]))
    && (forall i :: 0 <= i < |temps| ==> TempName(i) in view && view[TempName(i)] == Itoa(temps[i] as int))
    && (forall name <- view :: (exists i :: 0 <= i < |channels| && name == ChannelName(i))
                            || (exists i :: 0 <= i < |temps| && name == TempName(i)))
  }

  lemma AllNamesDiffer()
    ensures forall j: nat, k: nat :: ChannelName(j) == ChannelName(k) ==> j == k
    ensures forall j: nat, k: nat :: TempName(j) == TempName(k) ==> j == k
    ensures forall j: nat, k: nat :: ChannelName(j) != TempName(k)
  {
    hide ChannelName, TempName;
    forall j: nat, k: nat ensures ChannelName(j) == ChannelName(k) ==> j == k {
      NamesDiffer(j, k);
    }
    forall j: nat, k: nat ensures TempName(j) == TempName(k) ==> j == k {
      NamesDiffer(j, k);
    }
    forall j: nat, k: nat ensures ChannelName(j) != TempName(k) {
      NamesDiffer(j, k);
    }
  }

  // One element set, or the next one added.
  function Put<T>(xs: seq<T>, i: nat, x: T): (r: seq<T>)
    requires i <= |xs|
    ensures |r| == if i < |xs| then |xs| else |xs| + 1
    ensures forall k :: 0 <= k < |r| ==> r[k] == if k == i then x else xs[k]
  {
    if i < |xs| then xs[i := x] else xs + [x]
  }

  lemma ShowChannel(view: View, channels: seq<bool>, temps: seq<int8>, i: nat, on: bool)
    requires Shows(view, channels, temps) && i <= |channels|
    ensures ChannelName(i) in view <==> i < |channels|
    ensures Shows(view[ChannelName(i) := Switch(on)], Put(channels, i, on), temps)
  {
    hide ChannelName, TempName, Switch, Itoa, Put;
    AllNamesDiffer();
    var channels', view' := Put(channels, i, on), view[ChannelName(i) := Switch(on)];
    forall name | name in view'
      ensures (exists j :: 0 <= j < |channels'| && name == ChannelName(j))
           || (exists j :: 0 <= j < |temps| && name == TempName(j))
    {
      if name == ChannelName(i) {
        assert i < |channels'|;
      } else if j :| 0 <= j < |channels| && name == ChannelName(j) {
        assert j < |channels'|;
      }
    }
  }

  lemma ShowTemp(view: View, channels: seq<bool>, temps: seq<int8>, i: nat, value: int8)
    requires Shows(view, channels, temps) && i <= |temps|
    ensures TempName(i) in view <==> i < |temps|
    ensures Shows(view[TempName(i) := Itoa(value as int)], channels, Put(temps, i, value))
  {
    hide ChannelName, TempName, Switch, Itoa, Put;
    AllNamesDiffer();
    var temps', view' := Put(temps, i, value), view[TempName(i) := Itoa(value as int)];
    forall name | name in view'
      ensures (exists j :: 0 <= j < |channels| && name == ChannelName(j))
           || (exists j :: 0 <= j < |temps'| && name == TempName(j))
    {
      if name == TempName(i) {
        assert i < |temps'|;
      } else if j :| 0 <= j < |temps| && name == TempName(j) {
        assert j < |temps'|;
      }
    }
  }

  // ----- what a whole report shows -----

  lemma {:induction false} ChannelCallsShow(log: seq<Call>, channels: seq<bool>, temps: seq<int8>,
      status: seq<bool>, n: nat)
    requires Consistent(log) && Shows(Replay(log), channels, temps) && n <= |status|
    ensures Consistent(log + ChannelCalls(channels, status, n))
    ensures Shows(Replay(log + ChannelCalls(channels, status, n)), Overlay(channels, status[..n]), temps)
  {
    hide Shows, ChannelName, Switch, Consistent, Replay;
    if n == 0 {
      assert log + [] == log && Overlay(channels, []) == channels;
    } else {
      var i := n - 1;
      var calls := ChannelCalls(channels, status, i);
      ChannelCallsShow(log, channels, temps, status, i);
      var before, mid := log + calls, Overlay(channels, status[..i]);
      assert log + ChannelCalls(channels, status, n) == before + ChannelCall(channels, status, i);
      OverlayNext(channels, status, i);
      ShowChannel(Replay(before), mid, temps, i, status[i]);
      if i < |channels| && channels[i] == status[i] {
        assert before + [] == before;
        assert Put(mid, i, status[i]) == mid;
      } else {
        ReplayOne(before, ChannelCall(channels, status, i)[0]);
      }
    }
  }

  lemma OverlayNext<T>(under: seq<T>, over: seq<T>, i: nat)
    requires i < |over|
    ensures i <= |Overlay(under, over[..i])|
    ensures Overlay(under, over[..i + 1]) == Put(Overlay(under, over[..i]), i, over[i])
    ensures i < |under| ==> Overlay(under, over[..i])[i] == under[i]
    ensures |Overlay(under, over[..i])| == if i < |under| then |under| else i
  {}

  lemma {:induction false} TempCallsShow(log: seq<Call>, channels: seq<bool>, temps: seq<int8>, values: seq<int8>,
      n: nat)
    requires Consistent(log) && Shows(Replay(log), channels, temps) && n <= |values|
    ensures Consistent(log + TempCalls(|temps|, values, n))
    ensures Shows(Replay(log + TempCalls(|temps|, values, n)), channels, Overlay(temps, values[..n]))
  {
    hide Shows, TempName, Itoa, Consistent, Replay;
    if n == 0 {
      assert log + [] == log && Overlay(temps, []) == temps;
    } else {
      var i := n - 1;
      TempCallsShow(log, channels, temps, values, i);
      var before, mid := log + TempCalls(|temps|, values, i), Overlay(temps, values[..i]);
      assert log + TempCalls(|temps|, values, n) == before + [TempCall(|temps|, values, i)];
      OverlayNext(temps, values, i);
      ShowTemp(Replay(before), channels, mid, i, values[i]);
      ReplayOne(before, TempCall(|temps|, values, i));
    }
  }

  // ----- the order of the controls -----

  function ChannelNames(n: nat): (names: seq<string>)
    ensures |names| == n
  {
    seq(n, i requires 0 <= i < n => ChannelName(i))
  }

  function TempNames(n: nat): (names: seq<string>)
    ensures |names| == n
  {
    seq(n, i requires 0 <= i < n => TempName(i))
  }

  lemma NextNames(n: nat)
    ensures ChannelNames(n + 1) == ChannelNames(n) + [ChannelName(n)]
    ensures TempNames(n + 1) == TempNames(n) + [TempName(n)]
  {
    hide ChannelName, TempName;
  }

  lemma ChannelCallNames(channels: seq<bool>, status: seq<bool>, i: nat)
    requires i < |status|
    ensures NewNames(ChannelCall(channels, status, i), TEMPERATURE) == []
    ensures NewNames(ChannelCall(channels, status, i), SWITCH) == if i < |channels| then [] else [ChannelName(i)]
  {
    hide ChannelName, NewNames, Switch;
    NoNewNames();
    var call := ChannelCall(channels, status, i);
    if |call| == 1 {
      assert call == [call[0]];
      NewNamesOne(call[0], SWITCH);
      NewNamesOne(call[0], TEMPERATURE);
    }
  }

  lemma {:induction false} ChannelCallsInOrder(channels: seq<bool>, status: seq<bool>, n: nat)
    requires n <= |status|
    ensures NewNames(ChannelCalls(channels, status, n), TEMPERATURE) == []
    ensures ChannelNames(|channels|) + NewNames(ChannelCalls(channels, status, n), SWITCH)
         == ChannelNames(if n > |channels| then n else |channels|)
  {
    hide ChannelName, ChannelNames, ChannelCall, NewNames, SWITCH, TEMPERATURE;
    if n == 0 {
      NoNewNames();
    } else {
      var before, call := ChannelCalls(channels, status, n - 1), ChannelCall(channels, status, n - 1);
      ChannelCallsInOrder(channels, status, n - 1);
      ChannelCallNames(channels, status, n - 1);
      NewNamesSplit(before, call, SWITCH);
      NewNamesSplit(before, call, TEMPERATURE);
      NextNames(n - 1);
      Regroup(ChannelNames(|channels|), NewNames(before, SWITCH), NewNames(call, SWITCH));
    }
  }

  lemma Regroup<T>(a: seq<T>, b: seq<T>, c: seq<T>)
    ensures a + b + c == a + (b + c)
  {}

  lemma {:induction false} TempCallsInOrder(known: nat, values: seq<int8>, n: nat)
    requires n <= |values|
    ensures NewNames(TempCalls(known, values, n), SWITCH) == []
    ensures TempNames(known) + NewNames(TempCalls(known, values, n), TEMPERATURE)
         == TempNames(if n > known then n else known)
  {
    hide TempName, TempNames, NewNames, Itoa;
    if n == 0 {
      NoNewNames();
    } else {
      var before, call := TempCalls(known, values, n - 1), TempCall(known, values, n - 1);
      TempCallsInOrder(known, values, n - 1);
      NextNames(n - 1);
      NewNamesSplit(before, [call], SWITCH);
      NewNamesSplit(before, [call], TEMPERATURE);
      NewNamesOne(call, SWITCH);
      NewNamesOne(call, TEMPERATURE);
      Regroup(TempNames(known), NewNames(before, TEMPERATURE), NewName(call, TEMPERATURE));
    }
  }

  // ----- the mirror as a value -----

  datatype Mirror = Mirror(channels: seq<bool>, skipBroadcast: bool, temps: seq<int8>)

  // The messages from the device; Levels is the answer of a Hmix12.
  datatype Report =
    | Broadcast(status: seq<bool>)
    | Levels(levels: seq<bv8>)
    | Single(channelNo: bv8, success: bool, level: bv8)
    | Temperatures(useCelsius: bool, values: seq<int8>)

  // A list that came with its length in one byte.
  predicate FromWire(r: Report) {
    match r
    case Broadcast(status) => |status| <= 255
    case Levels(levels) => |levels| <= 255
    case _ => true
  }

  function AreOn(levels: seq<bv8>): (status: seq<bool>)
    ensures |status| == |levels|
  {
    seq(|levels|, i requires 0 <= i < |levels| => levels[i] > 0)
  }

  // The index a channel number stands for: one less, in a byte.
  function ChannelIndex(channelNo: bv8): nat { (channelNo - 1) as int }

  function After(m: Mirror, r: Report): Mirror {
    match r
    case Broadcast(status) =>
      m.(channels := if m.skipBroadcast then m.channels else Overlay(m.channels, status), skipBroadcast := false)
    case Levels(levels) => m.(channels := Overlay(m.channels, AreOn(levels)))
    case Single(channelNo, success, level) =>
      var i := ChannelIndex(channelNo);
      if !success then m
      else m.(channels := if i < |m.channels| then m.channels[i := level != 0] else m.channels, skipBroadcast := true)
    case Temperatures(useCelsius, values) =>
      if useCelsius then m.(temps := Overlay(m.temps, values)) else m
  }

  // What the observer is told.
  function Calls(m: Mirror, r: Report): seq<Call> {
    match r
    case Broadcast(status) => if m.skipBroadcast then [] else ChannelCalls(m.channels, status, |status|)
    case Levels(levels) => ChannelCalls(m.channels, AreOn(levels), |levels|)
    case Single(channelNo, success, level) =>
      var i := ChannelIndex(channelNo);
      if success && i < |m.channels| && m.channels[i] != (level != 0)
      then [OnValue(ChannelName(i), Switch(level != 0))]
      else []
    case Temperatures(useCelsius, values) => if useCelsius then TempCalls(|m.temps|, values, |values|) else []
  }

  ghost predicate Faithful(m: Mirror, log: seq<Call>) {
    && Consistent(log) && Shows(Replay(log), m.channels, m.temps) && |m.channels| <= 255
    && InOrder(m, log)
  }

  // The controls were announced in order: Channel 1, Channel 2, and so on, and Temp 1,
  // Temp 2, and so on.
  ghost predicate InOrder(m: Mirror, log: seq<Call>) {
    && NewNames(log, SWITCH) == ChannelNames(|m.channels|)
    && NewNames(log, TEMPERATURE) == TempNames(|m.temps|)
  }

  lemma ReportInOrder(m: Mirror, log: seq<Call>, r: Report)
    requires InOrder(m, log)
    ensures InOrder(After(m, r), log + Calls(m, r))
  {
    hide ChannelCalls, TempCalls, ChannelNames, TempNames, NewNames;
    NewNamesSplit(log, Calls(m, r), SWITCH);
    NewNamesSplit(log, Calls(m, r), TEMPERATURE);
    NoNewNames();
    match r
    case Broadcast(status) => ChannelCallsInOrder(m.channels, status, |status|);
    case Levels(levels) => ChannelCallsInOrder(m.channels, AreOn(levels), |levels|);
    case Single(channelNo, _, level) =>
      var call := OnValue(ChannelName(ChannelIndex(channelNo)), Switch(level != 0));
      NewNamesOne(call, SWITCH);
      NewNamesOne(call, TEMPERATURE);
    case Temperatures(_, values) => TempCallsInOrder(|m.temps|, values, |values|);
  }

  lemma NoNewNames()
    ensures forall t :: NewNames([], t) == []
  {}

  lemma SingleShows(m: Mirror, log: seq<Call>, r: Report)
    requires Faithful(m, log) && r.Single?
    ensures Faithful(After(m, r), log + Calls(m, r))
  {
    hide InOrder, Shows, ChannelName, Switch, Consistent, Replay, ChannelIndex;
    ReportInOrder(m, log, r);
    var i, on := ChannelIndex(r.channelNo), r.level != 0;
    assert log + [] == log;
    if r.success && i < |m.channels| {
      if m.channels[i] == on {
        assert m.channels[i := on] == m.channels;
      } else {
        ShowChannel(Replay(log), m.channels, m.temps, i, on);
        ReplayOne(log, OnValue(ChannelName(i), Switch(on)));
        assert Put(m.channels, i, on) == m.channels[i := on];
      }
    }
  }

  // Every report keeps the observer's view equal to the mirror.
  lemma ReportShows(m: Mirror, log: seq<Call>, r: Report)
    requires Faithful(m, log) && FromWire(r)
    ensures Faithful(After(m, r), log + Calls(m, r))
  {
    hide InOrder, Shows, Consistent, Replay, ChannelCalls, TempCalls;
    ReportInOrder(m, log, r);
    assert log + [] == log;
    match r
    case Broadcast(status) =>
      ChannelCallsShow(log, m.channels, m.temps, status, |status|);
      assert status[..|status|] == status;
    case Levels(levels) =>
      var status := AreOn(levels);
      ChannelCallsShow(log, m.channels, m.temps, status, |status|);
      assert status[..|status|] == status;
    case Single(_, _, _) => SingleShows(m, log, r);
    case Temperatures(_, values) =>
      TempCallsShow(log, m.channels, m.temps, values, |values|);
      assert values[..|values|] == values;
  }

  const NEW_MIRROR := Mirror([], false, [])

  function AfterAll(m: Mirror, reports: seq<Report>): Mirror {
    if |reports| == 0 then m else After(AfterAll(m, reports[..|reports| - 1]), reports[|reports| - 1])
  }

  function AllCalls(m: Mirror, reports: seq<Report>): seq<Call> {
    if |reports| == 0 then []
    else
      var before := reports[..|reports| - 1];
      AllCalls(m, before) + Calls(AfterAll(m, before), reports[|reports| - 1])
  }

  // Over any run of reports from the wire, what the observer has been told amounts to
  // the mirror.
  lemma {:induction false} ViewIsMirror(reports: seq<Report>)
    requires forall i :: 0 <= i < |reports| ==> FromWire(reports[i])
    ensures Faithful(AfterAll(NEW_MIRROR, reports), AllCalls(NEW_MIRROR, reports))
  {
    hide Faithful, After, Calls, FromWire;
    if |reports| == 0 {
      NewIsFaithful();
    } else {
      var n := |reports| - 1;
      ViewIsMirror(reports[..n]);
      ReportShows(AfterAll(NEW_MIRROR, reports[..n]), AllCalls(NEW_MIRROR, reports[..n]), reports[n]);
    }
  }

  lemma NewIsFaithful()
    ensures Faithful(NEW_MIRROR, [])
  {}

  // Channel number 0 wraps to index 255, which a mirror fed from the wire never has: no
  // channel changes and nothing is published. The next broadcast is skipped all the same.
  lemma ChannelZeroIsRejected(reports: seq<Report>, level: bv8)
    requires forall i :: 0 <= i < |reports| ==> FromWire(reports[i])
    ensures var m := AfterAll(NEW_MIRROR, reports);
      && After(m, Single(0, true, level)) == m.(skipBroadcast := true)
      && Calls(m, Single(0, true, level)) == []
  {
    ViewIsMirror(reports);
    assert ChannelIndex(0) == 255;
  }

  // ----- the mirror and the wire -----

  // The report in a message from the device.
  function ReportOf(m: Messages.Message): seq<Report> {
    match m
    case ZoneBeastBroadcast(_, status) => [Broadcast(status)]
    case QueryChannelStatusesResponse(levels) => [Levels(levels)]
    case SingleChannelControlResponse(channelNo, success, level, _) => [Single(channelNo, success, level)]
    case ReadTemperatureValuesResponse(useCelsius, values) => [Temperatures(useCelsius, values)]
    case _ => []
  }

  // Whatever bytes a message was parsed from, its report has a length that fits a byte.
  lemma ParsedReportsAreFromWire(op: bv16, bs: seq<bv8>)
    requires Messages.DecodeMessage(op, bs).Ok?
    ensures forall r <- ReportOf(Messages.DecodeMessage(op, bs).value) :: FromWire(r)
  {
    hide Messages.DecodeMessage, Messages.EncodeMessage;
    var m := Messages.DecodeMessage(op, bs).value;
    if m.ZoneBeastBroadcast? || m.QueryChannelStatusesResponse? {
      Messages.WritableIff(op, bs);
      Messages.Normalise(op, bs);
    }
  }

  const LEVEL_ON: bv8 := 100
  const LEVEL_OFF: bv8 := 0

  // The command that a write to a control sends: a channel number, cut to a byte, and a
  // level; none for a name without a number.
  function CommandFor(name: string, value: string): seq<Messages.Message> {
    match Atoi(TrimPrefix(name, "Channel "))
    case NotANumber => []
    case Parsed(n) =>
      [Messages.SingleChannelControlCommand((n % 256) as bv8, if value == "1" then LEVEL_ON else LEVEL_OFF, 0)]
  }

  // Writing to a published switch commands that channel, and a device that confirms the
  // command brings exactly that channel of the mirror to the value written.
  lemma CommandRoundTrip(m: Mirror, log: seq<Call>, i: nat, on: bool)
    requires Faithful(m, log) && i < |m.channels|
    ensures exists channelNo: bv8, level: bv8 ::
      && CommandFor(ChannelName(i), Switch(on)) == [Messages.SingleChannelControlCommand(channelNo, level, 0)]
      && channelNo as int == i + 1 && level == (if on then 100 else 0)
      && After(m, Single(channelNo, true, level)).channels == m.channels[i := on]
  {
    hide Shows, Consistent, Digits, Atoi;
    var channelNo := (i + 1) as bv8;
    var level := if on then LEVEL_ON else LEVEL_OFF;
    assert ChannelName(i)[8..] == Itoa(i + 1) && "Channel " <= ChannelName(i);
    AtoiItoa(i + 1);
    ByteOfInt(i + 1);
    ChannelIndexIs(i);
    assert CommandFor(ChannelName(i), Switch(on)) == [Messages.SingleChannelControlCommand(channelNo, level, 0)];
  }

  lemma ChannelIndexIs(i: nat)
    requires i < 255
    ensures ChannelIndex((i + 1) as bv8) == i
  {
    ByteOfInt(i + 1);
  }

  // ----- the object -----

  class ZoneBeastDeviceModel {
    var channelStatus: seq<bool>
    var skipBroadcast: bool
    var numTemps: nat
    ghost var temps: seq<int8>   // the last values, which the model itself does not keep
    ghost var log: seq<Call>     // what the observer was told
    ghost var passed: seq<bv16>  // the opcodes handed to the request queue as answers

    ghost function Contents(): Mirror
      reads this
    {
      Mirror(channelStatus, skipBroadcast, temps)
    }

    ghost predicate Valid()
      reads this
    {
      numTemps == |temps| && Faithful(Contents(), log)
    }

    constructor ()
      ensures Valid() && Contents() == NEW_MIRROR && log == [] && passed == []
    {
      channelStatus, skipBroadcast, numTemps := [], false, 0;
      temps, log, passed := [], [], [];
      new;
      NewIsFaithful();
    }

    method UpdateSingleChannel(n: nat, isOn: bool)
      modifies this`channelStatus, this`log
      ensures channelStatus == if n < |old(channelStatus)| then old(channelStatus)[n := isOn] else old(channelStatus)
      ensures log == old(log) +
        if n < |old(channelStatus)| && old(channelStatus)[n] != isOn then [OnValue(ChannelName(n),
            Switch(isOn))] else []
    {
      if n >= |channelStatus| {
        return;
      }
      if channelStatus[n] == isOn {
        return;
      }
      channelStatus := channelStatus[n := isOn];
      log := log + [OnValue(ChannelName(n), Switch(isOn))];
    }

    method UpdateChannelStatus(status: seq<bool>)
      modifies this`channelStatus, this`log
      ensures channelStatus == Overlay(old(channelStatus), status)
      ensures log == old(log) + ChannelCalls(old(channelStatus), status, |status|)
    {
      hide ChannelName, Switch, Overlay, Put, ChannelCall, ChannelCalls;
      ghost var was, told := channelStatus, log;
      var updateCount := Min(|channelStatus|, |status|);
      OverlayNothing(channelStatus, status);
      NoCalls(was, status);
      for i := 0 to updateCount
        invariant channelStatus == Overlay(was, status[..i])
        invariant log == told + ChannelCalls(was, status, i)
      {
        OverlayNext(was, status, i);
        PutIs(channelStatus, i, status[i]);
        CallsNext(told, was, status, i);
        UpdateSingleChannel(i, status[i]);
      }
      for i := updateCount to |status|
        invariant channelStatus == Overlay(was, status[..i])
        invariant log == told + ChannelCalls(was, status, i)
      {
        OverlayNext(was, status, i);
        PutIs(channelStatus, i, status[i]);
        CallsNext(told, was, status, i);
        channelStatus := channelStatus + [status[i]];
        log := log + [OnNewControl(ChannelName(i), SWITCH, Switch(channelStatus[i]), false)];
      }
      assert status[..|status|] == status;
    }

    method UpdateTemperatureValue(n: nat, value: int8)
      requires n <= numTemps == |temps|
      modifies this`numTemps, this`temps, this`log
      ensures numTemps == |temps| && temps == Put(old(temps), n, value)
      ensures log == old(log) +
        [if n < old(numTemps) then OnValue(TempName(n), Itoa(value as int))
         else OnNewControl(TempName(n), TEMPERATURE, Itoa(value as int), true)]
    {
      temps := Put(temps, n, value);
      if n + 1 > numTemps {
        log := log + [OnNewControl(TempName(n), TEMPERATURE, Itoa(value as int), true)];
        numTemps := n + 1;
      } else {
        log := log + [OnValue(TempName(n), Itoa(value as int))];
      }
    }

    method OnSingleChannelControlResponse(channelNo: bv8, success: bool, level: bv8)
      requires Valid()
      modifies this
      ensures Valid()
      ensures Contents() == After(old(Contents()), Single(channelNo, success, level))
      ensures log == old(log) + Calls(old(Contents()), Single(channelNo, success, level))
      ensures passed == old(passed) + [0x0032]
    {
      passed := passed + [0x0032];
      ReportShows(Contents(), log, Single(channelNo, success, level));
      if !success {
        return;
      }
      UpdateSingleChannel(ChannelIndex(channelNo), level != 0);
      // an outdated broadcast may follow
      skipBroadcast := true;
    }

    method OnZoneBeastBroadcast(status: seq<bool>)
      requires Valid() && |status| <= 255
      modifies this`channelStatus, this`skipBroadcast, this`numTemps, this`temps, this`log
      ensures Valid()
      ensures Contents() == After(old(Contents()), Broadcast(status))
      ensures log == old(log) + Calls(old(Contents()), Broadcast(status))
    {
      ReportShows(Contents(), log, Broadcast(status));
      if !skipBroadcast {
        UpdateChannelStatus(status);
      }
      skipBroadcast := false;
    }

    method OnReadTemperatureValuesResponse(useCelsius: bool, values: seq<int8>)
      requires Valid()
      modifies this`channelStatus, this`skipBroadcast, this`numTemps, this`temps, this`log
      ensures Valid()
      ensures Contents() == After(old(Contents()), Temperatures(useCelsius, values))
      ensures log == old(log) + Calls(old(Contents()), Temperatures(useCelsius, values))
    {
      hide TempName, Itoa, Faithful, Overlay, Put;
      ReportShows(Contents(), log, Temperatures(useCelsius, values));
      if useCelsius {
        ghost var known := |temps|;
        OverlayNothing(temps, values);
        for i := 0 to |values|
          invariant numTemps == |temps| && temps == Overlay(old(temps), values[..i])
          invariant channelStatus == old(channelStatus) && skipBroadcast == old(skipBroadcast)
          invariant log == old(log) + TempCalls(known, values, i)
        {
          OverlayNext(old(temps), values, i);
          UpdateTemperatureValue(i, values[i]);
        }
        assert values[..|values|] == values;
      }
    }

    // The handler that a Hmix12 adds.
    method OnQueryChannelStatusesResponse(levels: seq<bv8>)
      requires Valid() && |levels| <= 255
      modifies this`channelStatus, this`skipBroadcast, this`numTemps, this`temps, this`log
      ensures Valid()
      ensures Contents() == After(old(Contents()), Levels(levels))
      ensures log == old(log) + Calls(old(Contents()), Levels(levels))
    {
      hide Faithful, Overlay, ChannelCalls, AreOn;
      ReportShows(Contents(), log, Levels(levels));
      var shortStatus := Shorten(levels);
      UpdateChannelStatus(shortStatus[..]);
    }
  }

  lemma NoCalls(channels: seq<bool>, status: seq<bool>)
    ensures ChannelCalls(channels, status, 0) == []
  {}

  // The call that one more channel adds.
  lemma CallsNext(log: seq<Call>, channels: seq<bool>, status: seq<bool>, i: nat)
    requires i < |status|
    ensures log + ChannelCalls(channels, status, i + 1) == log + ChannelCalls(channels, status, i) +
      if i >= |channels| then [OnNewControl(ChannelName(i), SWITCH, Switch(status[i]), false)]
      else if channels[i] == status[i] then []
      else [OnValue(ChannelName(i), Switch(status[i]))]
  {
    hide ChannelName, Switch;
  }

  // The loop that turns levels into on and off.
  method Shorten(levels: seq<bv8>) returns (shortStatus: array<bool>)
    ensures fresh(shortStatus) && shortStatus[..] == AreOn(levels)
  {
    shortStatus := new bool[|levels|];
    for n := 0 to |levels|
      invariant forall k :: 0 <= k < n ==> shortStatus[k] == (levels[k] > 0)
    {
      shortStatus[n] := levels[n] > 0;
    }
  }

  lemma PutIs<T>(xs: seq<T>, i: nat, x: T)
    requires i <= |xs|
    ensures Put(xs, i, x) == if i < |xs| then xs[i := x] else xs + [x]
  {}

  lemma OverlayNothing<T>(under: seq<T>, over: seq<T>)
    ensures Overlay(under, over[..0]) == under
  {}
}
