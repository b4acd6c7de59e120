/**
 What a device model tells its observer, and what the observer then shows: the protocol
 between smartbus/smartbus_model.go and the driver above it.
 */
module Observer {
  datatype Call =
    | OnNewControl(name: string, paramType: string, value: string, readonly: bool)
    | OnValue(name: string, value: string)

  type View = map<string, string>

  // The values on display after a list of calls.
  function Replay(calls: seq<Call>): View {
    if |calls| == 0 then map[]
    else
      var last := calls[|calls| - 1];
      Replay(calls[..|calls| - 1])[last.name := last.value]
  }

  // A control is announced before its first value, and only once.
  ghost predicate Consistent(calls: seq<Call>) {
    |calls| == 0 ||
    (var last := calls[|calls| - 1];
     var shown := Replay(calls[..|calls| - 1]);
     Consistent(calls[..|calls| - 1]) && (last.OnNewControl? <==> last.name !in shown))
  }

  lemma ReplayOne(calls: seq<Call>, call: Call)
    ensures Replay(calls + [call]) == Replay(calls)[call.name := call.value]
    ensures Consistent(calls + [call]) <==>
            Consistent(calls) && (call.OnNewControl? <==> call.name !in Replay(calls))
  {
    assert (calls + [call])[..|calls|] == calls;
  }

  // In a consistent log every value comes after the control, and no control is announced twice.
  lemma {:induction false} ConsistentMeans(calls: seq<Call>, i: nat)
    requires Consistent(calls) && i < |calls|
    ensures calls[i].OnValue? ==> exists k :: 0 <= k < i && calls[k].OnNewControl? && calls[k].name == calls[i].name
    ensures calls[i].OnNewControl? ==> forall k :: 0 <= k < i ==> calls[k].name != calls[i].name
  {
    var n := |calls| - 1;
    if i < n {
      ConsistentMeans(calls[..n], i);
    } else if calls[i].OnValue? {
      AnnouncedInView(calls[..n], calls[i].name);
      var k :| 0 <= k < n && calls[..n][k].OnNewControl? && calls[..n][k].name == calls[i].name;
      assert calls[k] == calls[..n][k];
    } else {
      forall k | 0 <= k < i ensures calls[k].name != calls[i].name {
        NamedInView(calls[..n], k);
        assert calls[k] == calls[..n][k];
      }
    }
  }

  lemma {:induction false} NamedInView(calls: seq<Call>, k: nat)
    requires k < |calls|
    ensures calls[k].name in Replay(calls)
  {
    var n := |calls| - 1;
    if k < n {
      NamedInView(calls[..n], k);
    }
  }

  lemma {:induction false} AnnouncedInView(calls: seq<Call>, name: string)
    requires Consistent(calls) && name in Replay(calls)
    ensures exists k :: 0 <= k < |calls| && calls[k].OnNewControl? && calls[k].name == name
  {
    var n := |calls| - 1;
    if name in Replay(calls[..n]) {
      AnnouncedInView(calls[..n], name);
      var k :| 0 <= k < n && calls[..n][k].OnNewControl? && calls[..n][k].name == name;
      assert calls[k] == calls[..n][k];
    } else {
      assert calls[n].OnNewControl? && calls[n].name == name;
    }
  }

  function NewName(call: Call, paramType: string): seq<string> {
    if call.OnNewControl? && call.paramType == paramType then [call.name] else []
  }

  // The controls of a type in the order in which they were announced.
  function NewNames(calls: seq<Call>, paramType: string): seq<string> {
    if |calls| == 0 then [] else NewNames(calls[..|calls| - 1], paramType) + NewName(calls[|calls| - 1], paramType)
  }

  lemma {:induction false} NewNamesSplit(a: seq<Call>, b: seq<Call>, paramType: string)
    ensures NewNames(a + b, paramType) == NewNames(a, paramType) + NewNames(b, paramType)
    decreases |b|
  {
    hide NewName;
    if |b| == 0 {
      assert a + b == a;
    } else {
      var n := |b| - 1;
      assert (a + b)[..|a| + n] == a + b[..n];
      NewNamesSplit(a, b[..n], paramType);
    }
  }

  lemma NewNamesOne(call: Call, paramType: string)
    ensures NewNames([call], paramType) == NewName(call, paramType)
  {
    assert [call][..0] == [];
  }

  function Switch(on: bool): string { if on then "1" else "0" }
}
