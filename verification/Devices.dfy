/**
 How the driver tells devices apart: the device map of smartbus/smartbus_model.go and the
 key of smartbus/connection.go.
 */
module Devices {
  // Where a message comes from, as its header says. A device model is the header it was
  // made for: its address and its type.
  datatype Header = Header(subnetID: bv8, deviceID: bv8, deviceType: bv16)

  function DeviceKey(subnetID: bv8, deviceID: bv8): bv16 { ((subnetID as bv16) << 8) + (deviceID as bv16) }

  // Two addresses never share a key.
  lemma KeyInjective(s: bv8, d: bv8, s': bv8, d': bv8, k: bv16, k': bv16)
    requires k == DeviceKey(s, d) && k' == DeviceKey(s', d') && k == k'
    ensures s == s' && d == d'
  {
    assert (k >> 8) as bv8 == s && (k & 0xff) as bv8 == d;
    assert (k' >> 8) as bv8 == s' && (k' & 0xff) as bv8 == d';
  }

  // The registered types: ZoneBeast, DDP, Hmix12 and the two sensors.
  predicate Known(h: Header) {
    h.deviceType == 0x139c || h.deviceType == 0x0095 || h.deviceType == 0x0257 || h.deviceType == 0x0149
        || h.deviceType == 0x0142
  }

  // The 16-bit key as a number.
  function KeyOf(h: Header): int { DeviceKey(h.subnetID, h.deviceID) as int }

  // The map holds the announced models under their own keys, all of known types and each
  // announced once.
  ghost predicate Consistent(devices: map<int, Header>, announced: seq<Header>) {
    && (forall k :: k in devices ==> KeyOf(devices[k]) == k && Known(devices[k]) && devices[k] in announced)
    && (forall h :: h in announced ==> KeyOf(h) in devices)
    && (forall i, j :: 0 <= i < j < |announced| ==> KeyOf(announced[i]) != KeyOf(announced[j]))
  }

  lemma Announcing(devices: map<int, Header>, announced: seq<Header>, h: Header)
    requires Consistent(devices, announced) && KeyOf(h) !in devices && Known(h)
    ensures Consistent(devices[KeyOf(h) := h], announced + [h])
  {
    hide Known, KeyOf;
    var now := announced + [h];
    assert forall i :: 0 <= i < |announced| ==> now[i] == announced[i] && announced[i] in announced;
    assert now[|announced|] == h;
  }

  class SmartbusModel {
    var deviceMap: map<int, Header>
    ghost var announced: seq<Header>        // the models given to OnNewDevice, in order

    ghost predicate Valid()
      reads this
    {
      Consistent(deviceMap, announced)
    }

    constructor ()
      ensures Valid() && deviceMap == map[] && announced == []
    {
      deviceMap, announced := map[], [];
    }

    // The model for the sender of a message: the one that is there, whatever type the
    // header claims now, or a new one if the type is known. Each is announced once.
    method EnsureDevice(h: Header) returns (found: bool, model: Header)
      requires Valid()
      modifies this
      ensures Valid()
      ensures found <==>
        KeyOf(h) in old(deviceMap) || h.deviceType in {0x139c, 0x0095, 0x0257, 0x0149, 0x0142}
      ensures var key := KeyOf(h);
        if key in old(deviceMap) then
          found && model == old(deviceMap)[key] && deviceMap == old(deviceMap) && announced == old(announced)
        else if Known(h) then
          found && model == h && deviceMap == old(deviceMap)[key := h] && announced == old(announced) + [h]
        else
          !found && deviceMap == old(deviceMap) && announced == old(announced)
    {
      hide KeyOf, Consistent;
      var key := KeyOf(h);
      if key in deviceMap {
        return true, deviceMap[key];
      }
      if !Known(h) {
        return false, h;
      }
      Announcing(deviceMap, announced, h);
      deviceMap := deviceMap[key := h];
      announced := announced + [h];
      return true, h;
    }
  }

  // ----- over a run of messages -----

  function MapAfter(headers: seq<Header>): map<int, Header> {
    if |headers| == 0 then map[]
    else
      var before, h := MapAfter(headers[..|headers| - 1]), headers[|headers| - 1];
      if KeyOf(h) in before || !Known(h) then before else before[KeyOf(h) := h]
  }

  // The first header of a known type heard from an address, if any.
  function FirstKnown(headers: seq<Header>, key: int): seq<Header> {
    if |headers| == 0 then []
    else if KeyOf(headers[0]) == key && Known(headers[0]) then [headers[0]]
    else FirstKnown(headers[1..], key)
  }

  lemma {:induction false} FirstKnownAppend(headers: seq<Header>, h: Header, key: int)
    ensures FirstKnown(headers + [h], key) ==
      if FirstKnown(headers, key) != [] then FirstKnown(headers, key)
      else if KeyOf(h) == key && Known(h) then [h]
      else []
  {
    hide KeyOf, Known;
    if |headers| == 0 {
      assert headers + [h] == [h] && [h][1..] == [];
    } else {
      assert (headers + [h])[1..] == headers[1..] + [h];
      FirstKnownAppend(headers[1..], h, key);
    }
  }

  // The map records, for each address, the first header of a known type heard from it;
  // what the same address claims later changes nothing.
  lemma {:induction false} FirstTypeWins(headers: seq<Header>, key: int)
    ensures FirstKnown(headers, key) == if key in MapAfter(headers) then [MapAfter(headers)[key]] else []
  {
    hide KeyOf, Known;
    if |headers| > 0 {
      var n := |headers| - 1;
      FirstTypeWins(headers[..n], key);
      FirstKnownAppend(headers[..n], headers[n], key);
      assert headers == headers[..n] + [headers[n]];
    }
  }
}
