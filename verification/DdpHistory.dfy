/**
 The panel in terms of what happened to it: which request every event leads to and what
 each request sends, which assignment is open, and what every button is assigned to.
 */
module DdpHistory {
  import opened Strconv
  import opened Observer
  import opened Messages
  import opened Ddp

  ghost predicate NamesPublished(events: seq<PanelEvent>) {
    forall i :: 0 <= i < |events| ==> PublishedName(events[i])
  }

  // What a write asks for: the button its name stands for, and the relay.
  function ButtonOf(e: PanelEvent): int {
    if e.UserSet? && ParseName(e.name).Button? then ParseName(e.name).b else 0
  }

  function RelayOf(e: PanelEvent): int {
    if e.UserSet? && Atoi(e.value).Parsed? then Atoi(e.value).n else 0
  }

  // ----- which assignment is open -----

  ghost predicate Acks(e: PanelEvent, button: int) {
    e.AssignResponse? && e.buttonNo as int == button && e.functionNo == 1
  }

  // The write at i was accepted, and not acknowledged before k.
  ghost predicate Open(own: Address, events: seq<PanelEvent>, i: nat, k: nat)
    requires k <= |events|
  {
    && i < k && Accepts(NextAll(own, events[..i]), events[i])
    && forall j :: i < j < k ==> !Acks(events[j], ButtonOf(events[i]))
  }

  lemma OpenPrefix(own: Address, events: seq<PanelEvent>, i: nat, k: nat)
    requires k <= |events|
    ensures Open(own, events[..k], i, k) <==> Open(own, events, i, k)
  {
    hide Accepts, Acks, NextAll, ButtonOf;
    if i < k {
      assert events[..k][..i] == events[..i];
    }
  }

  // What is pending is what was asked for in the write that is open; there is one at most.
  ghost predicate OpenIsPending(own: Address, events: seq<PanelEvent>) {
    var p := NextAll(own, events);
    && (p.pendingButton > 0 <==> exists i :: 0 <= i < |events| && Open(own, events, i, |events|))
    && (forall i :: 0 <= i < |events| && Open(own, events, i, |events|) ==>
          p.pendingButton == ButtonOf(events[i]) && p.pendingAssignment == RelayOf(events[i]))
  }

  lemma PendingOf(own: Address, events: seq<PanelEvent>)
    requires NamesPublished(events)
    ensures PendingOk(NextAll(own, events))
  {
    hide NextAll, AllPanelCalls;
    PanelRun(own, events);
    OkPending(NextAll(own, events), AllPanelCalls(own, events));
  }

  // One more event, for a write at i.
  lemma OpenNext(own: Address, events: seq<PanelEvent>, i: nat)
    requires |events| > 0 && i < |events|
    ensures var n := |events| - 1;
      Open(own, events, i, |events|) <==>
        if i == n then Accepts(NextAll(own, events[..n]), events[n])
        else Open(own, events[..n], i, n) && !Acks(events[n], ButtonOf(events[i]))
  {
    hide Accepts, Acks, NextAll, ButtonOf;
    var n := |events| - 1;
    OpenPrefix(own, events, i, n);
  }

  lemma AcceptedPending(own: Address, p: Panel, e: PanelEvent)
    requires Sized(p) && PendingOk(p) && PublishedName(e) && Accepts(p, e)
    ensures var p' := Next(own, p, e);
      p'.pendingButton == ButtonOf(e) > 0 && p'.pendingAssignment == RelayOf(e)
  {
    hide ButtonName, ParseName, Atoi;
    var b: nat :| 1 <= b <= BUTTON_COUNT && e.name == ButtonName(b);
    ButtonNameRoundTrip(b);
  }

  lemma AcknowledgesIs(p: Panel, e: PanelEvent)
    requires PendingOk(p)
    ensures Acknowledges(p, e) <==> p.pendingButton > 0 && Acks(e, p.pendingButton)
  {}

  lemma {:induction false} OpenPending(own: Address, events: seq<PanelEvent>)
    requires NamesPublished(events)
    ensures OpenIsPending(own, events)
  {
    hide Accepts, Acks, Acknowledges, ButtonOf, RelayOf, Next, PublishedName, Open;
    if |events| == 0 {
      assert NextAll(own, events) == NEW_PANEL;
    } else {
      var n := |events| - 1;
      var before, e := events[..n], events[n];
      var p := NextAll(own, before);
      assert NextAll(own, events) == Next(own, p, e);
      OpenPending(own, before);
      PendingOf(own, before);
      PendingChanges(own, p, e);
      AcknowledgesIs(p, e);
      forall i: nat | i < |events|
        ensures Open(own, events, i, |events|) <==>
          if i == n then Accepts(p, e) else Open(own, before, i, n) && !Acks(e, ButtonOf(events[i]))
      {
        OpenNext(own, events, i);
      }
      assert forall i :: 0 <= i < n ==> before[i] == events[i];
      if Accepts(p, e) {
        AcceptedPending(own, p, e);
        assert Open(own, events, n, |events|);
      } else if p.pendingButton > 0 {
        var i :| 0 <= i < n && Open(own, before, i, n);
        assert before[i] == events[i];
        if !Acks(e, p.pendingButton) {
          assert Open(own, events, i, |events|);
        }
      }
    }
  }

  // ----- what is requested, and when -----

  // An event leads to one request at most.
  lemma RequestKinds(own: Address, p: Panel, e: PanelEvent)
    requires Sized(p)
    ensures var rs := Requests(own, p, e);
      && |rs| <= 1
      && (rs == [Assign] <==> e.ModesResponse? && p.pendingButton > 0)
      && (|rs| == 1 && rs[0].SetModes? <==> Accepts(p, e))
  {
    hide Accepts, ModesFor, ValidResponse;
    AcceptsIsWrite(p, e);
  }

  lemma QueryKind(own: Address, p: Panel, e: PanelEvent, n: nat)
    requires Sized(p)
    ensures Requests(own, p, e) == [QueryButton(n)] <==>
      (n == 1 && e.Discovered? && p.isNew) ||
      (e.QueryResponse? && e.functionNo == 1 && 2 <= n <= BUTTON_COUNT && e.buttonNo as int == n - 1)
  {
    hide Accepts, ModesFor;
  }

  lemma AcceptsIsWrite(p: Panel, e: PanelEvent)
    ensures Accepts(p, e) ==> e.UserSet?
  {}

  // The assignment is requested exactly at a response to the modes while an accepted
  // write is not acknowledged.
  lemma AssignIff(own: Address, events: seq<PanelEvent>, k: nat)
    requires NamesPublished(events) && k < |events|
    ensures Requests(own, NextAll(own, events[..k]), events[k]) == [Assign] <==>
      events[k].ModesResponse? && exists i :: 0 <= i < k && Open(own, events, i, k)
  {
    hide Requests, NextAll, Open;
    OpenPending(own, events[..k]);
    RequestKinds(own, NextAll(own, events[..k]), events[k]);
    forall i: nat | i < k ensures Open(own, events[..k], i, k) <==> Open(own, events, i, k) {
      OpenPrefix(own, events, i, k);
    }
  }

  lemma {:induction false} NewUntilDiscovered(own: Address, events: seq<PanelEvent>)
    ensures NextAll(own, events).isNew <==> Discovered !in events
  {
    hide Accepts, ValidResponse, Acknowledges;
    if |events| > 0 {
      var n := |events| - 1;
      NewUntilDiscovered(own, events[..n]);
      assert events == events[..n] + [events[n]];
    }
  }

  // A button is queried exactly when the panel is first discovered, which is button 1,
  // or after the response about the button before it.
  lemma QueryIff(own: Address, events: seq<PanelEvent>, k: nat, n: nat)
    requires k < |events|
    ensures Requests(own, NextAll(own, events[..k]), events[k]) == [QueryButton(n)] <==>
      || (n == 1 && events[k] == Discovered && Discovered !in events[..k])
      || (events[k].QueryResponse? && events[k].functionNo == 1 && 2 <= n <= BUTTON_COUNT
          && events[k].buttonNo as int == n - 1)
  {
    hide Requests, NextAll;
    NewUntilDiscovered(own, events[..k]);
    QueryKind(own, NextAll(own, events[..k]), events[k], n);
  }

  // ----- what a request sends -----

  // The message of a request that runs now, and the opcode that answers it.
  function RequestMessage(own: Address, p: Panel, r: Request): Message
    requires r.SetModes? ==> |r.modes| == BUTTON_COUNT
  {
    match r
    case QueryButton(n) => QueryPanelButtonAssignment(AsByte(n), 1)
    case SetModes(modes) => SetPanelButtonModes(modes)
    case Assign => AssignMessage(own, p)
  }

  function ExpectedOf(r: Request): bv16 {
    match r
    case QueryButton(_) => 0xe001
    case SetModes(_) => 0xe00b
    case Assign => 0xe003
  }

  // The answer of every request has the opcode after that of its message.
  lemma AnswerFollows(own: Address, p: Panel, r: Request)
    requires r.SetModes? ==> |r.modes| == BUTTON_COUNT
    ensures ExpectedOf(r) == Opcode(RequestMessage(own, p, r)) + 1
  {}

  // The handshake: a write of a relay to a button is accepted at i, the response to the
  // modes comes at m, and the acknowledgement has not come yet. Then the request was made
  // at m, and sends that button and that relay whenever it runs, over and over.
  lemma HandshakeSends(own: Address, events: seq<PanelEvent>, i: nat, m: nat, b: nat, v: nat)
    requires NamesPublished(events) && i < m < |events| && events[m].ModesResponse?
    requires 1 <= b <= BUTTON_COUNT && events[i].UserSet? && events[i].name == ButtonName(b)
        && Atoi(events[i].value) == Parsed(v)
    requires Accepts(NextAll(own, events[..i]), events[i])
    requires forall j :: i < j < |events| ==> !Acks(events[j], b)
    ensures Requests(own, NextAll(own, events[..m]), events[m]) == [Assign]
    ensures RequestMessage(own, NextAll(own, events), Assign) ==
      AssignPanelButton(AsByte(b), 1, 0x59, own.subnetID, own.deviceID, AsByte(v), 100, 0, 0)
    ensures 1 <= v <= 15 && AsByte(b) as int == b && AsByte(v) as int == v
  {
    hide Requests, NextAll, ParseName, ButtonName, Atoi, Accepts, Acks, AssignMessage, Open;
    ButtonNameRoundTrip(b);
    OpenWrite(own, events, i, b);
    assert Open(own, events, i, m) && Open(own, events, i, |events|);
    AssignIff(own, events, m);
    RequestKinds(own, NextAll(own, events[..m]), events[m]);
    OpenPending(own, events);
    PendingOf(own, events);
    AcceptedRelay(NextAll(own, events[..i]), events[i]);
    AssignSendsPending(own, NextAll(own, events), b, v);
    ByteIs(b);
    ByteIs(v);
  }

  lemma OpenWrite(own: Address, events: seq<PanelEvent>, i: nat, b: nat)
    requires i < |events| && Accepts(NextAll(own, events[..i]), events[i]) && ButtonOf(events[i]) == b
    requires forall j :: i < j < |events| ==> !Acks(events[j], b)
    ensures forall k :: i < k <= |events| ==> Open(own, events, i, k)
  {
    hide Accepts, Acks, NextAll, ButtonOf;
  }

  lemma AcceptedRelay(p: Panel, e: PanelEvent)
    requires Accepts(p, e)
    ensures Atoi(e.value).Parsed? && 1 <= Atoi(e.value).n <= 15
  {}

  // ----- what is received and assigned -----

  // A response about button b.
  ghost predicate Reports(e: PanelEvent, b: nat) {
    e.QueryResponse? && e.functionNo == 1 && e.buttonNo as int == b
  }

  // What such a response says: the relay, if it is one of the driver's own.
  function Reported(own: Address, e: PanelEvent): int
    requires e.QueryResponse?
  {
    if e.command == 0x59 && e.subnetID == own.subnetID && e.deviceID == own.deviceID then e.channelNo as int else -1
  }

  // Event k sets the assignment of button b.
  ghost predicate Sets(own: Address, events: seq<PanelEvent>, k: nat, b: nat)
    requires k < |events|
  {
    || Reports(events[k], b)
    || (Accepts(NextAll(own, events[..k]), events[k]) && ParseName(events[k].name).b == b)
  }

  function SetTo(own: Address, e: PanelEvent): int
    requires e.QueryResponse? || (e.UserSet? && Atoi(e.value).Parsed?)
  {
    if e.QueryResponse? then Reported(own, e) else Atoi(e.value).n
  }

  lemma SetsOne(own: Address, p: Panel, e: PanelEvent, b: nat)
    requires Sized(p) && 1 <= b <= BUTTON_COUNT
    ensures var p' := Next(own, p, e);
      && p'.received[b - 1] == (p.received[b - 1] || Reports(e, b))
      && p'.assignment[b - 1] ==
           if Reports(e, b) then Reported(own, e)
           else if Accepts(p, e) && ParseName(e.name).b == b then Atoi(e.value).n
           else p.assignment[b - 1]
  {
    hide ParseName, Atoi;
  }

  lemma {:induction false} ReceivedIff(own: Address, events: seq<PanelEvent>, b: nat)
    requires 1 <= b <= BUTTON_COUNT
    ensures NextAll(own, events).received[b - 1] <==> exists k :: 0 <= k < |events| && Reports(events[k], b)
  {
    hide Reports, Next;
    if |events| > 0 {
      var n := |events| - 1;
      ReceivedIff(own, events[..n], b);
      SetsOne(own, NextAll(own, events[..n]), events[n], b);
      assert forall k :: 0 <= k < n ==> events[..n][k] == events[k];
      if k :| 0 <= k < n && Reports(events[k], b) {
        assert Reports(events[..n][k], b);
      }
    } else {
      NoneReceived(b);
    }
  }

  lemma NoneReceived(b: nat)
    requires 1 <= b <= BUTTON_COUNT
    ensures !NEW_PANEL.received[b - 1] && NEW_PANEL.assignment[b - 1] == 0
  {}

  ghost predicate LastSets(own: Address, events: seq<PanelEvent>, k: nat, b: nat) {
    k < |events| && Sets(own, events, k, b) && forall j :: k < j < |events| ==> !Sets(own, events, j, b)
  }

  lemma SetsPrefix(own: Address, events: seq<PanelEvent>, n: nat, k: nat, b: nat)
    requires k < n <= |events|
    ensures Sets(own, events[..n], k, b) <==> Sets(own, events, k, b)
  {
    hide Reports, Accepts, NextAll, ParseName;
    assert events[..n][..k] == events[..k];
  }

  // A button is assigned what the last response about it or accepted write to it said;
  // nothing before any of these.
  lemma {:induction false} AssignmentIs(own: Address, events: seq<PanelEvent>, b: nat) returns (k: nat)
    requires 1 <= b <= BUTTON_COUNT
    ensures
      || (LastSets(own, events, k, b) && (events[k].QueryResponse? || (events[k].UserSet?
          && Atoi(events[k].value).Parsed?))
            && NextAll(own, events).assignment[b - 1] == SetTo(own, events[k]))
      || ((forall j :: 0 <= j < |events| ==> !Sets(own, events, j, b)) && NextAll(own, events).assignment[b - 1] == 0)
  {
    hide Reports, Accepts, ParseName, Atoi, Next, Sets, Reported;
    k := 0;
    if |events| == 0 {
      NoneReceived(b);
      return;
    }
    var n := |events| - 1;
    var p, e := NextAll(own, events[..n]), events[n];
    k := AssignmentIs(own, events[..n], b);
    SetsOne(own, p, e, b);
    SetsNow(own, events, b);
    forall j | 0 <= j < n ensures Sets(own, events[..n], j, b) <==> Sets(own, events, j, b) {
      SetsPrefix(own, events, n, j, b);
    }
    if Sets(own, events, n, b) {
      k := n;
    }
  }

  lemma SetsNow(own: Address, events: seq<PanelEvent>, b: nat)
    requires |events| > 0
    ensures var n := |events| - 1;
      && (Sets(own, events, n, b) <==>
           Reports(events[n], b) || (Accepts(NextAll(own, events[..n]), events[n]) && ParseName(events[n].name).b == b))
      && (Reports(events[n], b) ==> events[n].QueryResponse?)
      && (Accepts(NextAll(own, events[..n]), events[n]) ==> events[n].UserSet? && Atoi(events[n].value).Parsed?)
  {
    hide ParseName, Atoi, NextAll;
  }

  ghost predicate Answered(events: seq<PanelEvent>, k: nat, b: nat)
    requires k <= |events|
  {
    exists j :: 0 <= j < k && Reports(events[j], b)
  }

  lemma AnsweredIff(own: Address, events: seq<PanelEvent>, k: nat, b: nat)
    requires k <= |events| && 1 <= b <= BUTTON_COUNT
    ensures NextAll(own, events[..k]).received[b - 1] <==> Answered(events, k, b)
  {
    hide Reports, NextAll;
    var before := events[..k];
    ReceivedIff(own, before, b);
    assert forall j :: 0 <= j < k ==> before[j] == events[j];
    if j :| 0 <= j < k && Reports(events[j], b) {
      assert Reports(before[j], b);
    }
  }

  // A write to a published button is accepted exactly when no other is open, all sixteen
  // buttons have been received, and the value is a number of a relay.
  lemma AcceptedIff(own: Address, events: seq<PanelEvent>, k: nat, b: nat)
    requires NamesPublished(events) && k < |events| && 1 <= b <= BUTTON_COUNT
    requires events[k].UserSet? && events[k].name == ButtonName(b)
    ensures Accepts(NextAll(own, events[..k]), events[k]) <==>
      && !(exists i :: 0 <= i < k && Open(own, events, i, k))
      && (forall c :: 1 <= c <= BUTTON_COUNT ==> Answered(events, k, c))
      && Atoi(events[k].value).Parsed? && 1 <= Atoi(events[k].value).n <= 15
  {
    hide NextAll, Open, ParseName, ButtonName, Atoi, Answered;
    var p := NextAll(own, events[..k]);
    ButtonNameRoundTrip(b);
    OpenPending(own, events[..k]);
    forall i: nat | i < k ensures Open(own, events[..k], i, k) <==> Open(own, events, i, k) {
      OpenPrefix(own, events, i, k);
    }
    forall c | 1 <= c <= BUTTON_COUNT ensures p.received[c - 1] <==> Answered(events, k, c) {
      AnsweredIff(own, events, k, c);
    }
    if forall c :: 1 <= c <= BUTTON_COUNT ==> Answered(events, k, c) {
      forall i | 0 <= i < BUTTON_COUNT ensures p.received[i] {
        assert Answered(events, k, i + 1);
      }
    }
    AcceptsIs(p, events[k]);
  }

  lemma AcceptsIs(p: Panel, e: PanelEvent)
    requires Sized(p) && e.UserSet?
    ensures Accepts(p, e) <==>
      && p.pendingButton <= 0 && ParseName(e.name).Button?
      && Atoi(e.value).Parsed? && 1 <= Atoi(e.value).n <= 15
      && forall i :: 0 <= i < BUTTON_COUNT ==> p.received[i]
  {
    hide ParseName, Atoi;
  }

  // ----- what kind of control a button is -----

  // Over any run, whatever is announced is a text that can be written, for one of the
  // sixteen buttons.
  lemma {:induction false} AllAnnouncedAs(own: Address, events: seq<PanelEvent>)
    ensures forall call <- AllPanelCalls(own, events) ::
      call.OnNewControl? ==> call.paramType == "text" && !call.readonly && IsButton(call.name)
  {
    hide NextAll, IsButton, PanelCalls;
    if |events| > 0 {
      var n := |events| - 1;
      AllAnnouncedAs(own, events[..n]);
      AnnouncedOnce(own, NextAll(own, events[..n]), events[n]);
    }
  }

  ghost predicate IsButton(name: string) {
    exists b: nat {:trigger ButtonName(b)} :: 1 <= b <= BUTTON_COUNT && name == ButtonName(b)
  }

  lemma AnnouncedOnce(own: Address, p: Panel, e: PanelEvent)
    requires Sized(p)
    ensures forall call <- PanelCalls(own, p, e) ::
      call.OnNewControl? ==> call.paramType == "text" && !call.readonly && IsButton(call.name)
  {
    hide ControlName, ButtonName, Itoa;
    if ValidResponse(e) {
      ControlNameIs(e.buttonNo);
      assert IsButton(ButtonName(e.buttonNo as int));
    }
  }
}
