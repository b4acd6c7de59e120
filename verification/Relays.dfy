/**
 The virtual relays and the eight-in-one sensor of smartbus/smartbus_model.go: what
 they publish is what they hold.
 */
module Relays {
  import opened Strconv
  import opened Observer
  import opened Messages

  const NUM_VIRTUAL_RELAYS := 15

  function RelayName(i: nat): string { "VirtualRelay" + Itoa(i + 1) }

  lemma RelayNamesDiffer(i: nat, j: nat)
    requires RelayName(i) == RelayName(j)
    ensures i == j
  {
    hide Digits;
    assert RelayName(i)[12..] == Digits(i + 1) && RelayName(j)[12..] == Digits(j + 1);
    DigitsInjective(i + 1, j + 1);
  }

  // The first n relays are on display, with their states, and nothing else.
  ghost predicate ShowsRelays(view: View, status: seq<bool>, n: nat)
    requires n <= |status|
  {
    && (forall i: nat {:trigger RelayName(i)} :: RelayName(i) in view <==> i < n)
    && (forall i: nat {:trigger RelayName(i)} :: i < n ==> view[RelayName(i)] == Switch(status[i]))
    && (forall name <- view :: exists i: nat {:trigger RelayName(i)} :: i < n && name == RelayName(i))
  }

  lemma ShowRelay(view: View, status: seq<bool>, n: nat, i: nat, on: bool)
    requires n <= |status| && ShowsRelays(view, status, n) && i <= n && i < |status|
    ensures ShowsRelays(view[RelayName(i) := Switch(on)], status[i := on], if i < n then n else n + 1)
  {
    hide RelayName, Switch;
    forall j: nat, k: nat {:trigger RelayName(j), RelayName(k)} | RelayName(j) == RelayName(k) ensures j == k {
      RelayNamesDiffer(j, k);
    }
  }

  lemma NoRelays(status: seq<bool>)
    ensures Consistent([]) && ShowsRelays(Replay([]), status, 0)
  {}

  lemma NotYetShown(view: View, status: seq<bool>, i: nat)
    requires i <= |status| && ShowsRelays(view, status, i)
    ensures RelayName(i) !in view
  {}

  class VirtualRelayDevice {
    const channelStatus: array<bool>
    ghost var log: seq<Call>

    ghost predicate Valid()
      reads this, channelStatus
    {
      && channelStatus.Length == NUM_VIRTUAL_RELAYS
      && Consistent(log) && ShowsRelays(Replay(log), channelStatus[..], NUM_VIRTUAL_RELAYS)
    }

    // The device, and its Publish, which Start calls before anything else.
    constructor ()
      ensures Valid() && fresh(channelStatus)
      ensures forall i :: 0 <= i < NUM_VIRTUAL_RELAYS ==> !channelStatus[i]
      ensures |log| == NUM_VIRTUAL_RELAYS
      ensures forall i :: 0 <= i < |log| ==> log[i] == OnNewControl(RelayName(i), "switch", "0", true)
    {
      channelStatus := new bool[NUM_VIRTUAL_RELAYS](_ => false);
      log := [];
      new;
      hide RelayName, Consistent, Replay, ShowsRelays;
      NoRelays(channelStatus[..]);
      Publish();
    }

    method Publish()
      requires channelStatus.Length == NUM_VIRTUAL_RELAYS
      requires log == [] && Consistent(log) && ShowsRelays(Replay(log), channelStatus[..], 0)
      modifies `log
      ensures Valid() && |log| == NUM_VIRTUAL_RELAYS
      ensures forall i :: 0 <= i < |log| ==>
          log[i] == OnNewControl(RelayName(i), "switch", Switch(channelStatus[i]), true)
    {
      hide RelayName, Switch, Consistent, Replay, ShowsRelays;
      for i := 0 to NUM_VIRTUAL_RELAYS
        invariant Consistent(log) && ShowsRelays(Replay(log), channelStatus[..], i)
        invariant |log| == i
        invariant forall k :: 0 <= k < i ==>
            log[k] == OnNewControl(RelayName(k), "switch", Switch(channelStatus[k]), true)
      {
        var call := OnNewControl(RelayName(i), "switch", Switch(channelStatus[i]), true);
        ReplayOne(log, call);
        NotYetShown(Replay(log), channelStatus[..], i);
        ShowRelay(Replay(log), channelStatus[..], i, i, channelStatus[i]);
        assert channelStatus[..][i := channelStatus[i]] == channelStatus[..];
        log := log + [call];
      }
    }

    method SetRelayOn(channelNo: int, on: bool)
      requires Valid()
      modifies this`log, channelStatus
      ensures Valid()
      ensures channelStatus[..] ==
        if 1 <= channelNo <= NUM_VIRTUAL_RELAYS then old(channelStatus[..])[channelNo - 1 := on]
            else old(channelStatus[..])
      ensures log == old(log) +
        if 1 <= channelNo <= NUM_VIRTUAL_RELAYS && old(channelStatus[channelNo - 1]) != on
        then [OnValue(RelayName(channelNo - 1), Switch(on))] else []
    {
      hide RelayName, Switch, ShowsRelays;
      if channelNo < 1 || channelNo > NUM_VIRTUAL_RELAYS {
        return;
      }
      var i := channelNo - 1;
      if channelStatus[i] == on {
        assert channelStatus[..][i := on] == channelStatus[..];
        return;
      }
      ReplayOne(log, OnValue(RelayName(i), Switch(on)));
      ShowRelay(Replay(log), channelStatus[..], NUM_VIRTUAL_RELAYS, i, on);
      RelayShown(Replay(log), channelStatus[..], i);
      channelStatus[i] := on;
      assert channelStatus[..] == old(channelStatus[..])[i := on];
      log := log + [OnValue(RelayName(i), Switch(on))];
    }

    // A panel's command, and the answer to it: the states after the command, in a message
    // that can always be sent.
    method OnSingleChannelControlCommand(channelNo: bv8, level: bv8) returns (answer: Message)
      requires Valid()
      modifies this`log, channelStatus
      ensures Valid() && InDomain(answer)
      ensures answer == SingleChannelControlResponse(channelNo, true, level, channelStatus[..])
      ensures 1 <= channelNo as int <= NUM_VIRTUAL_RELAYS ==> channelStatus[channelNo as int - 1] == (level > 0)
    {
      SetRelayOn(channelNo as int, level > 0);
      answer := SingleChannelControlResponse(channelNo, true, level, channelStatus[..]);
    }
  }

  lemma RelayShown(view: View, status: seq<bool>, i: nat)
    requires i < |status| && ShowsRelays(view, status, |status|)
    ensures RelayName(i) in view
  {}

  // ----- the sensor -----

  datatype Reading = Reading(temperature: int, illuminance: bv16, movement: bool, dryContact1: bool, dryContact2: bool)

  const TEMPERATURE := "Temperature"
  const ILLUMINANCE := "Illuminance"
  const MOVEMENT := "Movement"
  const DRY_CONTACT_1 := "DryContact1"
  const DRY_CONTACT_2 := "DryContact2"

  // A view with the five values of a reading put into it.
  function Put(view: View, r: Reading): View {
    view[TEMPERATURE := Itoa(r.temperature)][ILLUMINANCE := Itoa(r.illuminance as int)]
        [MOVEMENT := Switch(r.movement)][DRY_CONTACT_1 := Switch(r.dryContact1)][DRY_CONTACT_2 := Switch(r.dryContact2)]
  }

  function Shown(r: Reading): View { Put(map[], r) }

  lemma PutIs(view: View, r: Reading)
    ensures Put(view, r) == view[TEMPERATURE := Itoa(r.temperature)][ILLUMINANCE := Itoa(r.illuminance as int)]
        [MOVEMENT := Switch(r.movement)][DRY_CONTACT_1 := Switch(r.dryContact1)][DRY_CONTACT_2 := Switch(r.dryContact2)]
    ensures Shown(r) == Put(map[], r)
    ensures TEMPERATURE in Shown(r) && ILLUMINANCE in Shown(r) && MOVEMENT in Shown(r)
    ensures DRY_CONTACT_1 in Shown(r) && DRY_CONTACT_2 in Shown(r)
  {
    hide Itoa, Switch, TEMPERATURE, ILLUMINANCE, MOVEMENT, DRY_CONTACT_1, DRY_CONTACT_2;
  }

  lemma PutTwice(before: Reading, now: Reading)
    ensures Put(Shown(before), now) == Shown(now)
  {
    hide Itoa, Switch, TEMPERATURE, ILLUMINANCE, MOVEMENT, DRY_CONTACT_1, DRY_CONTACT_2;
  }

  // What the first reading announces: five controls that cannot be written.
  function SensorControls(r: Reading): seq<Call> {
    [OnNewControl(TEMPERATURE, "temperature", Itoa(r.temperature), true),
     OnNewControl(ILLUMINANCE, "lux", Itoa(r.illuminance as int), true),
     OnNewControl(MOVEMENT, "switch", Switch(r.movement), true),
     OnNewControl(DRY_CONTACT_1, "switch", Switch(r.dryContact1), true),
     OnNewControl(DRY_CONTACT_2, "switch", Switch(r.dryContact2), true)]
  }

  // What the others publish.
  function SensorUpdates(r: Reading): seq<Call> {
    [OnValue(TEMPERATURE, Itoa(r.temperature)), OnValue(ILLUMINANCE, Itoa(r.illuminance as int)),
     OnValue(MOVEMENT, Switch(r.movement)), OnValue(DRY_CONTACT_1, Switch(r.dryContact1)),
     OnValue(DRY_CONTACT_2, Switch(r.dryContact2))]
  }

  class Sensor8in1 {
    var isNew: bool
    ghost var last: Reading
    ghost var log: seq<Call>

    ghost predicate Valid()
      reads this
    {
      Consistent(log) && Replay(log) == if isNew then map[] else Shown(last)
    }

    constructor ()
      ensures Valid() && isNew && log == []
    {
      isNew, log := true, [];
    }

    method ReportValue(name: string, paramType: string, value: string)
      modifies this`log
      ensures log == old(log) + [if isNew then OnNewControl(name, paramType, value, true) else OnValue(name, value)]
      ensures Consistent(old(log)) && (isNew <==> name !in Replay(old(log))) ==>
        Consistent(log) && Replay(log) == Replay(old(log))[name := value]
    {
      hide Consistent, Replay;
      var call := if isNew then OnNewControl(name, paramType, value, true) else OnValue(name, value);
      ReplayOne(log, call);
      log := log + [call];
    }

    // Five controls, created by the first reading and updated by the others.
    method OnReadSensorStatusResponse(r: Reading)
      requires Valid()
      modifies this`isNew, this`last, this`log
      ensures Valid() && !isNew && last == r
      ensures log == old(log) + if old(isNew) then SensorControls(r) else SensorUpdates(r)
    {
      hide Replay, Consistent, Itoa, Switch, Put, Shown, TEMPERATURE, ILLUMINANCE, MOVEMENT, DRY_CONTACT_1,
          DRY_CONTACT_2;
      ReadingShown(log, isNew, last, r);
      ReportValue(TEMPERATURE, "temperature", Itoa(r.temperature));
      ReportValue(ILLUMINANCE, "lux", Itoa(r.illuminance as int));
      ReportValue(MOVEMENT, "switch", Switch(r.movement));
      ReportValue(DRY_CONTACT_1, "switch", Switch(r.dryContact1));
      ReportValue(DRY_CONTACT_2, "switch", Switch(r.dryContact2));
      Gather(old(log), if old(isNew) then SensorControls(r) else SensorUpdates(r));
      isNew := false;
      last := r;
    }
  }

  // A reading is shown, whether it is the first or not.
  lemma ReadingShown(log: seq<Call>, isNew: bool, last: Reading, r: Reading)
    requires Consistent(log) && Replay(log) == if isNew then map[] else Shown(last)
    ensures var log' := log + if isNew then SensorControls(r) else SensorUpdates(r);
      Consistent(log') && Replay(log') == Shown(r)
  {
    hide Replay, Consistent, Itoa, Switch, Put, Shown, TEMPERATURE, ILLUMINANCE, MOVEMENT, DRY_CONTACT_1, DRY_CONTACT_2;
    NamesDistinct();
    PutTwice(last, r);
    PutIs(Shown(last), r);
    PutIs(map[], r);
    PutIs(map[], last);
    var c := if isNew then SensorControls(r) else SensorUpdates(r);
    var l1, l2, l3, l4 := log + [c[0]], log + [c[0]] + [c[1]], log + [c[0]] + [c[1]] + [c[2]],
        log + [c[0]] + [c[1]] + [c[2]] + [c[3]];
    ReplayOne(log, c[0]);
    ReplayOne(l1, c[1]);
    ReplayOne(l2, c[2]);
    ReplayOne(l3, c[3]);
    ReplayOne(l4, c[4]);
    Gather(log, c);
  }

  lemma Gather(log: seq<Call>, calls: seq<Call>)
    requires |calls| == 5
    ensures log + [calls[0]] + [calls[1]] + [calls[2]] + [calls[3]] + [calls[4]] == log + calls
  {}

  lemma NamesDistinct()
    ensures TEMPERATURE != ILLUMINANCE && TEMPERATURE != MOVEMENT && TEMPERATURE != DRY_CONTACT_1
        && TEMPERATURE != DRY_CONTACT_2
    ensures ILLUMINANCE != MOVEMENT && ILLUMINANCE != DRY_CONTACT_1 && ILLUMINANCE != DRY_CONTACT_2
    ensures MOVEMENT != DRY_CONTACT_1 && MOVEMENT != DRY_CONTACT_2 && DRY_CONTACT_1 != DRY_CONTACT_2
  {
    assert TEMPERATURE[0] == 'T' && ILLUMINANCE[0] == 'I' && DRY_CONTACT_1[0] == DRY_CONTACT_2[0] == 'D';
    assert DRY_CONTACT_1[10] != DRY_CONTACT_2[10];
  }
}
