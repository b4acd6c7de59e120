/**
 The DDP panel model of smartbus/smartbus_model.go: the chain of button queries and the
 handshake that assigns a virtual relay to a button.
 */
module Ddp {
  import opened Strconv
  import opened Observer
  import opened Messages
  import MessageFormat
  import Relays

  const BUTTON_COUNT := 16
  const LIGHTING_CONTROL: bv8 := 0x59

  // ----- control names -----

  // The control of a button: pages of four, both counted from 1.
  function ButtonName(b: nat): string
    requires 1 <= b <= BUTTON_COUNT
  {
    "Page" + Itoa((b - 1) / 4 + 1) + "Button" + Itoa((b - 1) % 4 + 1)
  }

  // The position of the first occurrence, or -1.
  function Index(s: string, sub: string): (i: int)
    ensures -1 <= i
    ensures i >= 0 ==> i + |sub| <= |s| && s[i..i + |sub|] == sub
  {
    if sub <= s then 0
    else if |s| == 0 then -1
    else
      var i := Index(s[1..], sub);
      if i < 0 then -1 else assert s[1..][i..i + |sub|] == s[i + 1..i + 1 + |sub|]; i + 1
  }

  // There is none before it.
  lemma {:induction false} IndexIsFirst(s: string, sub: string, j: nat)
    requires j <= |s| && (Index(s, sub) < 0 || j < Index(s, sub))
    ensures !(sub <= s[j..])
  {
    if j == 0 {
      assert s[0..] == s;
    } else {
      assert s[j..] == s[1..][j - 1..];
      IndexIsFirst(s[1..], sub, j - 1);
    }
  }

  datatype ParsedName = Button(b: int) | BadName | Crash

  // What AcceptOnValue makes of a control name; a name without "Button" makes it panic.
  function ParseName(name: string): ParsedName {
    var s := TrimPrefix(name, "Page");
    var idx := Index(s, "Button");
    if idx < 0 then Crash else ParseNumbers(s[..idx], s[idx + 6..])
  }

  function ParseNumbers(page: string, button: string): ParsedName {
    match Atoi(page)
    case NotANumber => BadName
    case Parsed(m) =>
      match Atoi(button)
      case NotANumber => BadName
      case Parsed(n) => Button((m - 1) * 4 + n)
  }

  // A name makes the parsing panic exactly when nothing in it, behind a leading "Page",
  // is "Button".
  lemma CrashName(name: string)
    ensures ParseName(name).Crash? <==>
      forall j :: 0 <= j <= |TrimPrefix(name, "Page")| ==> !("Button" <= TrimPrefix(name, "Page")[j..])
  {
    hide Atoi, Index, TrimPrefix;
    var s := TrimPrefix(name, "Page");
    var i := Index(s, "Button");
    if i >= 0 {
      assert s[i..][..6] == "Button";
    } else {
      forall j | 0 <= j <= |s| ensures !("Button" <= s[j..]) {
        IndexIsFirst(s, "Button", j);
      }
    }
  }

  lemma {:induction false} IndexAfterDigits(digits: string, rest: string)
    requires AllDigits(digits)
    ensures Index(digits + ("Button" + rest), "Button") == |digits|
  {
    var s := digits + ("Button" + rest);
    if |digits| == 0 {
      assert s == "Button" + rest;
    } else {
      assert IsDigit(digits[0]) && s[0] == digits[0] && "Button"[0] == 'B';
      assert s[1..] == digits[1..] + ("Button" + rest);
      IndexAfterDigits(digits[1..], rest);
    }
  }

  // The name of a button leads back to it.
  lemma ButtonNameRoundTrip(b: nat)
    requires 1 <= b <= BUTTON_COUNT
    ensures ParseName(ButtonName(b)) == Button(b)
  {
    hide Itoa, ParseName, ParseNumbers;
    var page, button := (b - 1) / 4 + 1, (b - 1) % 4 + 1;
    SplitName(Itoa(page), Itoa(button)) by { assert AllDigits(Itoa(page)) by { DigitsOfItoa(page); } }
    assert ButtonName(b) == "Page" + (Itoa(page) + ("Button" + Itoa(button)));
    NumbersRoundTrip(page, button);
  }

  // Four pages of four buttons.
  lemma ButtonNameIs(page: nat, button: nat)
    requires 1 <= page <= 4 && 1 <= button <= 4
    ensures ButtonName(4 * (page - 1) + button) == "Page" + [DIGITS[page]] + "Button" + [DIGITS[button]]
  {
    assert Itoa(page) == [DIGITS[page]] && Itoa(button) == [DIGITS[button]];
  }

  lemma DigitsOfItoa(n: nat)
    ensures AllDigits(Itoa(n))
  {
    ValueOfDigits(n);
  }

  lemma SplitName(page: string, button: string)
    requires AllDigits(page)
    ensures ParseName("Page" + (page + ("Button" + button))) == ParseNumbers(page, button)
  {
    hide Index, ParseNumbers;
    var s := page + ("Button" + button);
    assert TrimPrefix("Page" + s, "Page") == s;
    IndexAfterDigits(page, button);
    assert s[..|page|] == page && s[|page| + 6..] == button;
  }

  lemma NumbersRoundTrip(page: nat, button: nat)
    requires page < 100 && button < 100
    ensures ParseNumbers(Itoa(page), Itoa(button)) == Button((page - 1) * 4 + button)
  {
    hide Itoa, Atoi;
    AtoiItoa(page);
    AtoiItoa(button);
  }

  lemma ButtonNamesDiffer(a: nat, b: nat)
    requires 1 <= a <= BUTTON_COUNT && 1 <= b <= BUTTON_COUNT && ButtonName(a) == ButtonName(b)
    ensures a == b
  {
    ButtonNameRoundTrip(a);
    ButtonNameRoundTrip(b);
  }

  // ----- the panel as a value -----

  datatype Panel = Panel(
    received: seq<bool>,
    assignment: seq<int>,
    isNew: bool,
    pendingButton: int,
    pendingAssignment: int)

  // The address the driver itself answers to.
  datatype Address = Address(subnetID: bv8, deviceID: bv8)

  const NONE_RECEIVED: seq<bool> := [
    false, false, false, false, false, false, false, false, false, false, false, false, false, false, false, false
  ]
  const NONE_ASSIGNED: seq<int> := [0, 0, 0, 0, 0, 0, 0, 0, 0, 0, 0, 0, 0, 0, 0, 0]
  const NEW_PANEL := Panel(NONE_RECEIVED, NONE_ASSIGNED, true, -1, -1)

  // What reaches the model: Discovered is the answer to ReadMACAddress or a QueryModules;
  // UserSet is a value written to a control.
  datatype PanelEvent =
    | Discovered
    | QueryResponse(buttonNo: bv8, functionNo: bv8, command: bv8, subnetID: bv8, deviceID: bv8, channelNo: bv8)
    | ModesResponse
    | AssignResponse(buttonNo: bv8, functionNo: bv8)
    | UserSet(name: string, value: string)

  // What the model puts into the request queue.
  datatype Request =
    | QueryButton(n: nat)
    | SetModes(modes: seq<string>)
    | Assign

  predicate ValidResponse(e: PanelEvent) {
    e.QueryResponse? && 1 <= e.buttonNo as int <= BUTTON_COUNT && e.functionNo == 1
  }

  // The relay a button is assigned to, or -1 when it does something else.
  function QueriedValue(own: Address, e: PanelEvent): int
    requires e.QueryResponse?
  {
    if e.command == LIGHTING_CONTROL && e.subnetID == own.subnetID && e.deviceID == own.deviceID
    then e.channelNo as int else -1
  }

  predicate Acknowledges(p: Panel, e: PanelEvent) {
    e.AssignResponse? && p.pendingButton >= 0 && e.buttonNo as int == p.pendingButton && e.functionNo == 1
  }

  predicate IsRelay(v: int) { 1 <= v <= Relays.NUM_VIRTUAL_RELAYS }

  // Whether a write by the user starts an assignment.
  predicate Accepts(p: Panel, e: PanelEvent) {
    && e.UserSet?
    && p.pendingButton <= 0
    && ParseName(e.name).Button?
    && Atoi(e.value).Parsed? && IsRelay(Atoi(e.value).n)
    && forall i :: 0 <= i < |p.received| ==> p.received[i]
  }

  function Assigned(assignment: seq<int>, button: int, v: int): (r: seq<int>)
    ensures |r| == |assignment|
  {
    if 1 <= button <= |assignment| then assignment[button - 1 := v] else assignment
  }

  function ModeFor(v: int): string { if IsRelay(v) then "SingleOnOff" else "Invalid" }

  function ModesFor(assignment: seq<int>): (modes: seq<string>)
    ensures |modes| == |assignment|
  {
    seq(|assignment|, i requires 0 <= i < |assignment| => ModeFor(assignment[i]))
  }

  predicate Sized(p: Panel) { |p.received| == |p.assignment| == BUTTON_COUNT }

  function Next(own: Address, p: Panel, e: PanelEvent): (p': Panel)
    requires Sized(p)
    ensures Sized(p')
  {
    match e
    case Discovered => p.(isNew := false)
    case QueryResponse(buttonNo, _, _, _, _, _) =>
      if ValidResponse(e) then
        var i := buttonNo as int - 1;
        p.(received := p.received[i := true], assignment := p.assignment[i := QueriedValue(own, e)])
      else p
    case ModesResponse => p
    case AssignResponse(_, _) =>
      if Acknowledges(p, e) then p.(pendingButton := -1, pendingAssignment := -1) else p
    case UserSet(name, value) =>
      if Accepts(p, e) then
        var b, v := ParseName(name).b, Atoi(value).n;
        p.(assignment := Assigned(p.assignment, b, v), pendingButton := b, pendingAssignment := v)
      else p
  }

  function Requests(own: Address, p: Panel, e: PanelEvent): seq<Request>
    requires Sized(p)
  {
    match e
    case Discovered => if p.isNew then [QueryButton(1)] else []
    case QueryResponse(buttonNo, _, _, _, _, _) =>
      if ValidResponse(e) && (buttonNo as int) < BUTTON_COUNT then [QueryButton(buttonNo as int + 1)] else []
    case ModesResponse => if p.pendingButton > 0 then [Assign] else []
    case AssignResponse(_, _) => []
    case UserSet(_, _) => if Accepts(p, e) then [SetModes(ModesFor(Next(own, p, e).assignment))] else []
  }

  // ddpControlName, with the wrap-around of its byte arithmetic.
  function ControlName(buttonNo: bv8): string {
    "Page" + Itoa(((buttonNo - 1) / 4 + 1) as int) + "Button" + Itoa(((buttonNo - 1) % 4 + 1) as int)
  }

  lemma ControlNameIs(buttonNo: bv8)
    requires 1 <= buttonNo as int <= BUTTON_COUNT
    ensures ControlName(buttonNo) == ButtonName(buttonNo as int)
  {
    ByteArithmetic(buttonNo);
  }

  lemma ByteArithmetic(b: bv8)
    requires 1 <= b as int <= 16
    ensures ((b - 1) / 4 + 1) as int == (b as int - 1) / 4 + 1
    ensures ((b - 1) % 4 + 1) as int == (b as int - 1) % 4 + 1
  {}

  function PanelCalls(own: Address, p: Panel, e: PanelEvent): seq<Call>
    requires Sized(p)
  {
    match e
    case QueryResponse(buttonNo, _, _, _, _, _) =>
      if !ValidResponse(e) then []
      else
        var value := Itoa(QueriedValue(own, e));
        [if p.received[buttonNo as int - 1] then OnValue(ControlName(buttonNo), value)
         else OnNewControl(ControlName(buttonNo), "text", value, false)]
    case AssignResponse(buttonNo, _) =>
      if Acknowledges(p, e) then [OnValue(ControlName(buttonNo), Itoa(p.pendingAssignment))] else []
    case _ => []
  }

  // ----- invariants -----

  ghost predicate NoPending(p: Panel) { p.pendingButton == -1 && p.pendingAssignment == -1 }

  // No assignment is pending, or one of a relay to a button.
  ghost predicate PendingOk(p: Panel) {
    NoPending(p) || (1 <= p.pendingButton <= BUTTON_COUNT && IsRelay(p.pendingAssignment))
  }

  // The observer shows a text for each button that has been received, and nothing else.
  ghost predicate ShowsButtons(view: View, received: seq<bool>)
    requires |received| == BUTTON_COUNT
  {
    && (forall b: nat {:trigger ButtonName(b)} ::
          1 <= b <= BUTTON_COUNT ==> (ButtonName(b) in view <==> received[b - 1]))
    && (forall name <- view ::
          exists b: nat {:trigger ButtonName(b)} :: 1 <= b <= BUTTON_COUNT && name == ButtonName(b))
  }

  ghost predicate PanelOk(p: Panel, log: seq<Call>) {
    && Sized(p)
    && PendingOk(p)
    && (p.pendingButton > 0 ==> p.received[p.pendingButton - 1])
    && Consistent(log)
    && ShowsButtons(Replay(log), p.received)
  }

  // The names that the model itself has published.
  ghost predicate PublishedName(e: PanelEvent) {
    e.UserSet? ==> exists b: nat {:trigger ButtonName(b)} :: 1 <= b <= BUTTON_COUNT && e.name == ButtonName(b)
  }

  lemma AllButtonNamesDiffer()
    ensures forall a: nat, b: nat {:trigger ButtonName(a), ButtonName(b)} ::
      1 <= a <= BUTTON_COUNT && 1 <= b <= BUTTON_COUNT && ButtonName(a) == ButtonName(b) ==> a == b
  {
    hide ButtonName;
    forall a: nat, b: nat | 1 <= a <= BUTTON_COUNT && 1 <= b <= BUTTON_COUNT && ButtonName(a) == ButtonName(b)
      ensures a == b
    {
      ButtonNamesDiffer(a, b);
    }
  }

  lemma ShowButton(view: View, received: seq<bool>, b: nat, value: string)
    requires |received| == BUTTON_COUNT && ShowsButtons(view, received) && 1 <= b <= BUTTON_COUNT
    ensures ShowsButtons(view[ButtonName(b) := value], received[b - 1 := true])
  {
    hide ButtonName;
    AllButtonNamesDiffer();
  }

  lemma ResponseKeeps(own: Address, p: Panel, log: seq<Call>, e: PanelEvent)
    requires PanelOk(p, log) && ValidResponse(e)
    ensures PanelOk(Next(own, p, e), log + PanelCalls(own, p, e))
  {
    hide ButtonName, ControlName, Itoa, Replay, Consistent, QueriedValue, ShowsButtons;
    var b := e.buttonNo as int;
    ControlNameIs(e.buttonNo);
    ShowsButtonIff(Replay(log), p.received, b);
    ReplayOne(log, PanelCalls(own, p, e)[0]);
    ShowButton(Replay(log), p.received, b, Itoa(QueriedValue(own, e)));
  }

  lemma ShowsButtonIff(view: View, received: seq<bool>, b: nat)
    requires |received| == BUTTON_COUNT && ShowsButtons(view, received) && 1 <= b <= BUTTON_COUNT
    ensures ButtonName(b) in view <==> received[b - 1]
  {
    hide ButtonName;
  }

  lemma AckKeeps(own: Address, p: Panel, log: seq<Call>, e: PanelEvent)
    requires PanelOk(p, log) && Acknowledges(p, e)
    ensures PanelOk(Next(own, p, e), log + PanelCalls(own, p, e))
    ensures PanelCalls(own, p, e) == [OnValue(ButtonName(p.pendingButton), Itoa(p.pendingAssignment))]
    ensures NoPending(Next(own, p, e))
  {
    hide ButtonName, ControlName, Itoa, Replay, Consistent, ShowsButtons;
    var b := p.pendingButton;
    ControlNameIs(e.buttonNo);
    ShowsButtonIff(Replay(log), p.received, b);
    ReplayOne(log, PanelCalls(own, p, e)[0]);
    ShowButton(Replay(log), p.received, b, Itoa(p.pendingAssignment));
    assert p.received[b - 1 := true] == p.received;
  }

  lemma UserSetKeeps(own: Address, p: Panel, log: seq<Call>, e: PanelEvent)
    requires PanelOk(p, log) && e.UserSet? && PublishedName(e)
    ensures PanelOk(Next(own, p, e), log)
  {
    hide ButtonName, ParseName, Atoi, Replay, Consistent, ShowsButtons;
    var b: nat :| 1 <= b <= BUTTON_COUNT && e.name == ButtonName(b);
    ButtonNameRoundTrip(b);
  }

  // Every event keeps the invariant: names are announced once and before their values,
  // and what is pending is always a relay for a button.
  lemma EventKeeps(own: Address, p: Panel, log: seq<Call>, e: PanelEvent)
    requires PanelOk(p, log) && PublishedName(e)
    ensures PanelOk(Next(own, p, e), log + PanelCalls(own, p, e))
  {
    hide Replay, Consistent, ShowsButtons, Accepts, ControlName;
    assert log + [] == log;
    if ValidResponse(e) {
      ResponseKeeps(own, p, log, e);
    } else if Acknowledges(p, e) {
      AckKeeps(own, p, log, e);
    } else if e.UserSet? {
      UserSetKeeps(own, p, log, e);
    }
  }

  function NextFrom(own: Address, p: Panel, events: seq<PanelEvent>): (p': Panel)
    requires Sized(p)
    ensures Sized(p')
  {
    if |events| == 0 then p else Next(own, NextFrom(own, p, events[..|events| - 1]), events[|events| - 1])
  }

  function NextAll(own: Address, events: seq<PanelEvent>): (p: Panel)
    ensures Sized(p)
  {
    NextFrom(own, NEW_PANEL, events)
  }

  function AllPanelCalls(own: Address, events: seq<PanelEvent>): seq<Call> {
    if |events| == 0 then []
    else
      var before := events[..|events| - 1];
      AllPanelCalls(own, before) + PanelCalls(own, NextAll(own, before), events[|events| - 1])
  }

  lemma NewPanelOk()
    ensures PanelOk(NEW_PANEL, [])
  {}

  lemma {:induction false} PanelRun(own: Address, events: seq<PanelEvent>)
    requires forall i :: 0 <= i < |events| ==> PublishedName(events[i])
    ensures PanelOk(NextAll(own, events), AllPanelCalls(own, events))
  {
    hide PanelOk, Next, PanelCalls, PublishedName;
    if |events| == 0 {
      NewPanelOk();
    } else {
      var n := |events| - 1;
      PanelRun(own, events[..n]);
      EventKeeps(own, NextAll(own, events[..n]), AllPanelCalls(own, events[..n]), events[n]);
    }
  }

  // ----- the handshake -----

  datatype Assignment = Assignment(button: int, relay: int)

  function PendingPair(p: Panel): seq<Assignment> {
    if p.pendingButton > 0 then [Assignment(p.pendingButton, p.pendingAssignment)] else []
  }

  // What an event asks for: the button its name parses to, and the relay in its value.
  function AcceptedPair(p: Panel, e: PanelEvent): seq<Assignment> {
    if Accepts(p, e) then [Assignment(ParseName(e.name).b, Atoi(e.value).n)] else []
  }

  function AcceptedPairs(own: Address, events: seq<PanelEvent>): seq<Assignment> {
    if |events| == 0 then []
    else
      var before := events[..|events| - 1];
      AcceptedPairs(own, before) + AcceptedPair(NextAll(own, before), events[|events| - 1])
  }

  // The calls that the responses to assignments lead to.
  function AckCalls(own: Address, events: seq<PanelEvent>): seq<Call> {
    if |events| == 0 then []
    else
      var before, e := events[..|events| - 1], events[|events| - 1];
      AckCalls(own, before) + if e.AssignResponse? then PanelCalls(own, NextAll(own, before), e) else []
  }

  function AckCall(a: Assignment): Call
    requires 1 <= a.button <= BUTTON_COUNT
  {
    OnValue(ButtonName(a.button), Itoa(a.relay))
  }

  // What is published when these assignments, and no others, are acknowledged.
  ghost predicate AreAcks(calls: seq<Call>, done: seq<Assignment>) {
    |calls| == |done| &&
    forall i :: 0 <= i < |done| ==> 1 <= done[i].button <= BUTTON_COUNT && calls[i] == AckCall(done[i])
  }

  lemma PendingChanges(own: Address, p: Panel, e: PanelEvent)
    requires Sized(p) && PendingOk(p) && PublishedName(e)
    ensures var p' := Next(own, p, e);
      if Accepts(p, e) then NoPending(p) && p'.pendingButton > 0 && !Acknowledges(p, e)
      else if Acknowledges(p, e) then p.pendingButton > 0 && NoPending(p')
      else p'.pendingButton == p.pendingButton && p'.pendingAssignment == p.pendingAssignment
  {
    hide ButtonName, ParseName, Atoi;
    if e.UserSet? {
      var b: nat :| 1 <= b <= BUTTON_COUNT && e.name == ButtonName(b);
      ButtonNameRoundTrip(b);
    }
  }

  lemma OkPending(p: Panel, log: seq<Call>)
    requires PanelOk(p, log)
    ensures Sized(p) && PendingOk(p)
  {}

  // How one event moves an assignment from the user's wish to the pending pair, and from
  // there to the observer.
  lemma PairStep(own: Address, p: Panel, e: PanelEvent)
    requires Sized(p) && PendingOk(p) && PublishedName(e)
    ensures var calls := if e.AssignResponse? then PanelCalls(own, p, e) else [];
      if Acknowledges(p, e) then
        |PendingPair(p)| == 1 && AreAcks(calls, PendingPair(p)) && PendingPair(Next(own, p, e)) == []
            && AcceptedPair(p, e) == []
      else
        calls == [] && PendingPair(Next(own, p, e)) == PendingPair(p) + AcceptedPair(p, e)
  {
    hide ButtonName, ControlName, ParseName, Atoi, Itoa;
    PendingChanges(own, p, e);
    if Acknowledges(p, e) {
      ControlNameIs(e.buttonNo);
    }
  }

  // Over every run the assignments accepted are, in order and with the values asked for,
  // those acknowledged and then the one that is pending; and an acknowledgement
  // publishes the value that was asked for.
  lemma {:induction false} AcknowledgedOnce(own: Address, events: seq<PanelEvent>) returns (done: seq<Assignment>)
    requires forall i :: 0 <= i < |events| ==> PublishedName(events[i])
    ensures AcceptedPairs(own, events) == done + PendingPair(NextAll(own, events))
    ensures AreAcks(AckCalls(own, events), done)
  {
    hide PanelOk, Next, PanelCalls, PublishedName, Acknowledges, AcceptedPair, AckCall, PendingPair;
    if |events| == 0 {
      NonePending();
      return [];
    }
    var n := |events| - 1;
    var p, e := NextAll(own, events[..n]), events[n];
    done := AcknowledgedOnce(own, events[..n]);
    PanelRun(own, events[..n]);
    OkPending(p, AllPanelCalls(own, events[..n]));
    PairStep(own, p, e);
    if Acknowledges(p, e) {
      done := done + PendingPair(p);
    } else {
      assert done + PendingPair(p) + AcceptedPair(p, e) == done + (PendingPair(p) + AcceptedPair(p, e));
    }
  }

  lemma NonePending()
    ensures PendingPair(NEW_PANEL) == []
  {}

  ghost predicate SamePending(p: Panel, p': Panel) {
    p'.pendingButton == p.pendingButton && p'.pendingAssignment == p.pendingAssignment
  }

  // Without the acknowledgement the pending assignment stays, whatever else happens, and
  // every write is refused.
  lemma {:induction false} PendingForEver(own: Address, p: Panel, events: seq<PanelEvent>)
    requires Sized(p) && p.pendingButton > 0
    requires forall i :: 0 <= i < |events| ==> !Acknowledges(p, events[i])
    ensures var p' := NextFrom(own, p, events);
      && SamePending(p, p')
      && forall name, value :: Next(own, p', UserSet(name, value)) == p'
          && Requests(own, p', UserSet(name, value)) == []
    decreases |events|
  {
    hide ParseName, Atoi;
    if |events| > 0 {
      PendingForEver(own, p, events[..|events| - 1]);
    }
  }

  // The pending assignment is given up at some point of a run exactly when an event of
  // the run acknowledges it. Nothing else ends it, not even a failed request.
  lemma PendingUntilAcknowledged(own: Address, p: Panel, events: seq<PanelEvent>)
    requires Sized(p) && p.pendingButton > 0
    ensures (exists i :: 0 <= i <= |events| && !SamePending(p, NextFrom(own, p, events[..i])))
       <==> (exists i :: 0 <= i < |events| && Acknowledges(p, events[i]))
  {
    hide Acknowledges, NextFrom, Next;
    var n := 0;
    while n < |events| && !Acknowledges(p, events[n])
      invariant 0 <= n <= |events| && forall i :: 0 <= i < n ==> !Acknowledges(p, events[i])
    {
      n := n + 1;
    }
    forall i | 0 <= i <= n ensures SamePending(p, NextFrom(own, p, events[..i])) {
      PendingForEver(own, p, events[..i]);
    }
    if n < |events| {
      Acknowledgement(own, p, events[..n], events[n]);
      assert events[..n + 1] == events[..n] + [events[n]];
    }
  }

  lemma Acknowledgement(own: Address, p: Panel, before: seq<PanelEvent>, e: PanelEvent)
    requires Sized(p) && p.pendingButton > 0 && SamePending(p, NextFrom(own, p, before)) && Acknowledges(p, e)
    ensures !SamePending(p, NextFrom(own, p, before + [e]))
  {
    assert (before + [e])[..|before|] == before;
  }

  // ----- what is sent -----

  // The modes sent switch exactly the buttons whose updated assignment is a relay, and
  // the message can be sent.
  lemma ModesAreRight(own: Address, p: Panel, e: PanelEvent)
    requires Sized(p) && Accepts(p, e)
    ensures var p' := Next(own, p, e);
      exists modes :: Requests(own, p, e) == [SetModes(modes)] && |modes| == BUTTON_COUNT
        && (forall i :: 0 <= i < BUTTON_COUNT ==>
            modes[i] == if IsRelay(p'.assignment[i]) then "SingleOnOff" else "Invalid")
        && InDomain(SetPanelButtonModes(modes))
  {
    hide ParseName, Atoi;
    var modes := ModesFor(Next(own, p, e).assignment);
    KnownModes();
    assert Requests(own, p, e) == [SetModes(modes)];
  }

  lemma KnownModes()
    ensures "SingleOnOff" in MessageFormat.PANEL_MODES && "Invalid" in MessageFormat.PANEL_MODES
  {
    assert MessageFormat.PANEL_MODES[0] == "Invalid" && MessageFormat.PANEL_MODES[1] == "SingleOnOff";
  }

  function AsByte(n: int): bv8 { (n % 256) as bv8 }

  // What the request for the assignment sends when it runs: the pending pair of that
  // moment, not of the moment when it was put into the queue.
  function AssignMessage(own: Address, p: Panel): Message {
    AssignPanelButton(AsByte(p.pendingButton), 1, LIGHTING_CONTROL, own.subnetID, own.deviceID,
                      AsByte(p.pendingAssignment), 100, 0, 0)
  }

  // It sends an assignment exactly while that one is pending; once it is acknowledged, a
  // late or repeated run sends button 255 and relay 255.
  lemma AssignSendsPending(own: Address, p: Panel, b: nat, v: nat)
    requires PendingOk(p) && 1 <= b <= BUTTON_COUNT && IsRelay(v)
    ensures AssignMessage(own, p) == AssignPanelButton(AsByte(b), 1, LIGHTING_CONTROL, own.subnetID, own.deviceID,
        AsByte(v), 100, 0, 0)
            <==> p.pendingButton == b && p.pendingAssignment == v
    ensures NoPending(p) ==> AssignMessage(own, p).buttonNo == 255 && AssignMessage(own, p).channelNo == 255
  {
    ByteIs(p.pendingButton); ByteIs(p.pendingAssignment); ByteIs(b); ByteIs(v);
  }

  lemma ByteIs(n: int)
    requires -1 <= n <= 16
    ensures AsByte(n) as int == if n == -1 then 255 else n
    ensures n == -1 ==> AsByte(n) == 255
  {
    var m := n % 256;
    assert m == if n == -1 then 255 else n;
    MessageFormat.ByteOfInt(m);
  }

  // ----- what is shown against what is assigned -----

  // Every button shows its assignment, except one whose change is pending; and the
  // pending change is the assignment.
  ghost predicate Settled(p: Panel, view: View)
    requires Sized(p)
  {
    && (forall b: nat {:trigger ButtonName(b)} ::
          1 <= b <= BUTTON_COUNT && p.received[b - 1] && b != p.pendingButton ==>
            ButtonName(b) in view && view[ButtonName(b)] == Itoa(p.assignment[b - 1]))
    && (1 <= p.pendingButton <= BUTTON_COUNT ==> p.assignment[p.pendingButton - 1] == p.pendingAssignment)
  }

  // A query response for the very button whose change is pending, that says otherwise.
  predicate Contradicts(own: Address, p: Panel, e: PanelEvent) {
    ValidResponse(e) && e.buttonNo as int == p.pendingButton && QueriedValue(own, e) != p.pendingAssignment
  }

  lemma SettledResponse(own: Address, p: Panel, log: seq<Call>, e: PanelEvent)
    requires PanelOk(p, log) && Settled(p, Replay(log)) && ValidResponse(e)
    ensures Settled(Next(own, p, e), Replay(log + PanelCalls(own, p, e))) <==> !Contradicts(own, p, e)
  {
    hide ButtonName, ControlName, Itoa, Replay, Consistent, QueriedValue, ShowsButtons;
    AllButtonNamesDiffer();
    ControlNameIs(e.buttonNo);
    ReplayOne(log, PanelCalls(own, p, e)[0]);
  }

  lemma SettledAck(own: Address, p: Panel, log: seq<Call>, e: PanelEvent)
    requires PanelOk(p, log) && Settled(p, Replay(log)) && Acknowledges(p, e)
    ensures Settled(Next(own, p, e), Replay(log + PanelCalls(own, p, e)))
  {
    hide ButtonName, ControlName, Itoa, Replay, Consistent, ShowsButtons;
    AllButtonNamesDiffer();
    ControlNameIs(e.buttonNo);
    ReplayOne(log, PanelCalls(own, p, e)[0]);
  }

  lemma SettledUserSet(own: Address, p: Panel, view: View, e: PanelEvent)
    requires Sized(p) && PendingOk(p) && Settled(p, view) && e.UserSet? && PublishedName(e)
    ensures Settled(Next(own, p, e), view)
  {
    hide ButtonName, ParseName, Atoi, Itoa;
    var b: nat :| 1 <= b <= BUTTON_COUNT && e.name == ButtonName(b);
    ButtonNameRoundTrip(b);
  }

  // What is shown stays in agreement with what is assigned, except exactly when a query
  // response contradicts the pending assignment.
  lemma SettledIff(own: Address, p: Panel, log: seq<Call>, e: PanelEvent)
    requires PanelOk(p, log) && Settled(p, Replay(log)) && PublishedName(e)
    ensures Settled(Next(own, p, e), Replay(log + PanelCalls(own, p, e))) <==> !Contradicts(own, p, e)
  {
    hide Replay, Consistent, ShowsButtons, Accepts, ControlName, ButtonName;
    assert log + [] == log;
    if ValidResponse(e) {
      SettledResponse(own, p, log, e);
    } else if Acknowledges(p, e) {
      SettledAck(own, p, log, e);
    } else if e.UserSet? {
      SettledUserSet(own, p, Replay(log), e);
    }
  }

  lemma {:induction false} SettledRun(own: Address, events: seq<PanelEvent>)
    requires forall i :: 0 <= i < |events| ==>
        PublishedName(events[i]) && !Contradicts(own, NextAll(own, events[..i]), events[i])
    ensures Settled(NextAll(own, events), Replay(AllPanelCalls(own, events)))
  {
    hide PanelOk, Next, PanelCalls, PublishedName, Settled, Contradicts, Replay;
    if |events| == 0 {
      NewPanelSettled();
    } else {
      var n := |events| - 1;
      forall i | 0 <= i < n ensures PublishedName(events[..n][i])
          && !Contradicts(own, NextAll(own, events[..n][..i]), events[..n][i]) {
        assert events[..n][..i] == events[..i];
      }
      SettledRun(own, events[..n]);
      PanelRun(own, events[..n]);
      SettledIff(own, NextAll(own, events[..n]), AllPanelCalls(own, events[..n]), events[n]);
    }
  }

  // Answers of a panel with no relay assigned to its first k buttons.
  function Answers(k: nat): (events: seq<PanelEvent>)
    requires k <= BUTTON_COUNT
    ensures |events| == k
  {
    seq(k, i => QueryResponse(AsByte(i + 1), 1, 0, 0, 0, 0))
  }

  lemma {:induction false} AllAnswered(own: Address, k: nat)
    requires k <= BUTTON_COUNT
    ensures var p := NextAll(own, Answers(k));
      NoPending(p) && forall i :: 0 <= i < k ==> p.received[i]
  {
    hide AsByte, QueriedValue;
    if k > 0 {
      AllAnswered(own, k - 1);
      ByteIs(k);
      assert Answers(k)[..k - 1] == Answers(k - 1);
      assert ValidResponse(Answers(k)[k - 1]);
    }
  }

  // A run that ends with another value on display than is assigned: all buttons answer,
  // the user assigns relay 5 to the first, and the panel reports the old assignment.
  lemma UnsettledExample(own: Address) returns (events: seq<PanelEvent>)
    ensures forall i :: 0 <= i < |events| ==> PublishedName(events[i])
    ensures !Settled(NextAll(own, events), Replay(AllPanelCalls(own, events)))
  {
    hide ParseName, ButtonName, Atoi, Itoa, AsByte, Next, PanelOk, Settled, Replay, PanelCalls;
    var answers := Answers(BUTTON_COUNT);
    var wish, late := UserSet(ButtonName(1), Itoa(5)), QueryResponse(1, 1, 0, 0, 0, 0);
    var before := answers + [wish];
    events := before + [late];
    assert before[..BUTTON_COUNT] == answers && events[..BUTTON_COUNT + 1] == before;
    AllAnswered(own, BUTTON_COUNT);
    WishIsAccepted(own, NextAll(own, answers));
    forall i | 0 <= i < |before| ensures PublishedName(before[i])
        && !Contradicts(own, NextAll(own, before[..i]), before[i]) {
      if i < BUTTON_COUNT {
        assert before[..i] == Answers(i);
        AllAnswered(own, i);
        ByteIs(i + 1);
      }
    }
    SettledRun(own, before);
    PanelRun(own, before);
    SettledIff(own, NextAll(own, before), AllPanelCalls(own, before), late);
  }

  lemma WishIsAccepted(own: Address, p: Panel)
    requires Sized(p) && NoPending(p) && forall i :: 0 <= i < BUTTON_COUNT ==> p.received[i]
    ensures var p' := Next(own, p, UserSet(ButtonName(1), Itoa(5)));
      p'.pendingButton == 1 && p'.pendingAssignment == 5
  {
    hide ParseName, ButtonName, Atoi, Itoa;
    ButtonNameRoundTrip(1);
    AtoiItoa(5);
  }

  lemma NewPanelSettled()
    ensures Settled(NEW_PANEL, Replay([]))
  {}

  // ----- the object -----

  class DDPDeviceModel {
    const own: Address
    var buttonAssignmentReceived: array<bool>
    var buttonAssignment: array<int>
    var isNew: bool
    var pendingAssignmentButtonNo: int
    var pendingAssignment: int
    ghost var log: seq<Call>          // what the observer was told
    ghost var requests: seq<Request>  // what was offered to the request queue
    ghost var passed: seq<bv16>       // the opcodes handed to the request queue as answers

    ghost predicate Valid()
      reads this
    {
      && buttonAssignmentReceived.Length == buttonAssignment.Length == BUTTON_COUNT
      && buttonAssignmentReceived as object != buttonAssignment as object
    }

    ghost function Contents(): (p: Panel)
      requires Valid()
      reads this, buttonAssignmentReceived, buttonAssignment
      ensures Sized(p)
    {
      Panel(buttonAssignmentReceived[..], buttonAssignment[..], isNew, pendingAssignmentButtonNo, pendingAssignment)
    }

    constructor (own: Address)
      ensures Valid() && fresh(buttonAssignmentReceived) && fresh(buttonAssignment)
      ensures this.own == own && Contents() == NEW_PANEL && log == [] && requests == [] && passed == []
    {
      this.own := own;
      buttonAssignmentReceived := new bool[BUTTON_COUNT](_ => false);
      buttonAssignment := new int[BUTTON_COUNT](_ => 0);
      isNew, pendingAssignmentButtonNo, pendingAssignment := true, -1, -1;
      log, requests, passed := [], [], [];
      new;
      assert buttonAssignmentReceived[..] == NONE_RECEIVED;
      assert buttonAssignment[..] == NONE_ASSIGNED;
    }

    method QueryButtons()
      requires Valid()
      modifies this`isNew, this`requests
      ensures Valid() && Contents() == Next(own, old(Contents()), Discovered)
      ensures requests == old(requests) + Requests(own, old(Contents()), Discovered)
    {
      if isNew {
        isNew := false;
        requests := requests + [QueryButton(1)];
      }
    }

    // The part of the handler that records and publishes an assignment.
    method Record(buttonNo: bv8, v: int)
      requires Valid() && 1 <= buttonNo as int <= BUTTON_COUNT
      modifies this`log, buttonAssignmentReceived, buttonAssignment
      ensures var i, p := buttonNo as int - 1, old(Contents());
        && Contents() == p.(received := p.received[i := true], assignment := p.assignment[i := v])
        && log == old(log) +
             [if p.received[i] then OnValue(ControlName(buttonNo), Itoa(v))
              else OnNewControl(ControlName(buttonNo), "text", Itoa(v), false)]
    {
      hide ControlName, Itoa;
      IndexOfButton(buttonNo);
      var i := (buttonNo - 1) as int;
      buttonAssignment[i] := v;
      if buttonAssignmentReceived[i] {
        log := log + [OnValue(ControlName(buttonNo), Itoa(v))];
      } else {
        buttonAssignmentReceived[i] := true;
        log := log + [OnNewControl(ControlName(buttonNo), "text", Itoa(v), false)];
      }
    }

    method OnQueryPanelButtonAssignmentResponse(buttonNo: bv8, functionNo: bv8, command: bv8, subnetID: bv8,
        deviceID: bv8, channelNo: bv8)
      requires Valid()
      modifies this`log, this`requests, this`passed, buttonAssignmentReceived, buttonAssignment
      ensures Valid() && passed == old(passed) + [0xe001]
      ensures var e := QueryResponse(buttonNo, functionNo, command, subnetID, deviceID, channelNo);
        && Contents() == Next(own, old(Contents()), e)
        && log == old(log) + PanelCalls(own, old(Contents()), e)
        && requests == old(requests) + Requests(own, old(Contents()), e)
    {
      hide ControlName, Itoa, Next, PanelCalls, Requests, ValidResponse, QueriedValue;
      ResponseIs(own, Contents(), QueryResponse(buttonNo, functionNo, command, subnetID, deviceID, channelNo));
      passed := passed + [0xe001];
      if buttonNo == 0 || buttonNo as int > BUTTON_COUNT || functionNo != 1 {
        return;
      }
      var v := -1;
      if command == LIGHTING_CONTROL && subnetID == own.subnetID && deviceID == own.deviceID {
        v := channelNo as int;
      }
      Record(buttonNo, v);
      if (buttonNo as int) < BUTTON_COUNT {
        requests := requests + [QueryButton(buttonNo as int + 1)];
      }
    }

    method OnSetPanelButtonModesResponse()
      requires Valid()
      modifies this`requests, this`passed
      ensures Valid() && passed == old(passed) + [0xe00b]
      ensures Contents() == old(Contents())
      ensures requests == old(requests) + Requests(own, old(Contents()), ModesResponse)
    {
      passed := passed + [0xe00b];
      if pendingAssignmentButtonNo <= 0 {
        return;
      }
      requests := requests + [Assign];
    }

    method OnAssignPanelButtonResponse(buttonNo: bv8, functionNo: bv8)
      requires Valid()
      modifies this`log, this`passed, this`pendingAssignmentButtonNo, this`pendingAssignment
      ensures Valid() && passed == old(passed) + [0xe003]
      ensures Contents() == Next(own, old(Contents()), AssignResponse(buttonNo, functionNo))
      ensures log == old(log) + PanelCalls(own, old(Contents()), AssignResponse(buttonNo, functionNo))
    {
      passed := passed + [0xe003];
      if pendingAssignmentButtonNo >= 0 && buttonNo as int == pendingAssignmentButtonNo && functionNo == 1 {
        log := log + [OnValue(ControlName(buttonNo), Itoa(pendingAssignment))];
      } else {
        return;
      }
      pendingAssignmentButtonNo := -1;
      pendingAssignment := -1;
    }

    method AllReceived() returns (all: bool)
      requires Valid()
      ensures all == forall i :: 0 <= i < BUTTON_COUNT ==> buttonAssignmentReceived[i]
    {
      for i := 0 to BUTTON_COUNT
        invariant forall k :: 0 <= k < i ==> buttonAssignmentReceived[k]
      {
        if !buttonAssignmentReceived[i] {
          return false;
        }
      }
      return true;
    }

    // The loop that takes the new assignment over and works out the modes.
    method Reassign(buttonNo: int, newAssignment: int) returns (modes: seq<string>)
      requires Valid()
      modifies buttonAssignment
      ensures buttonAssignment[..] == Assigned(old(buttonAssignment[..]), buttonNo, newAssignment)
      ensures modes == ModesFor(buttonAssignment[..])
    {
      hide ModeFor;
      modes := [];
      for i := 0 to BUTTON_COUNT
        invariant forall k :: 0 <= k < i && k + 1 == buttonNo ==> buttonAssignment[k] == newAssignment
        invariant forall k :: 0 <= k < BUTTON_COUNT && (i <= k || k + 1 != buttonNo) ==>
            buttonAssignment[k] == old(buttonAssignment[k])
        invariant |modes| == i && forall k :: 0 <= k < i ==> modes[k] == ModeFor(buttonAssignment[k])
      {
        var assignment := buttonAssignment[i];
        if buttonNo == i + 1 {
          assignment := newAssignment;
          buttonAssignment[i] := newAssignment;
        }
        modes := modes + [ModeFor(assignment)];
      }
    }

    // A name without "Button" is a panic, unless an assignment is pending.
    method AcceptOnValue(name: string, value: string) returns (panics: bool)
      requires Valid()
      modifies this`requests, this`pendingAssignmentButtonNo, this`pendingAssignment, buttonAssignment
      ensures panics <==> old(pendingAssignmentButtonNo) <= 0 && ParseName(name).Crash?
      ensures Valid() && Contents() == Next(own, old(Contents()), UserSet(name, value))
      ensures requests == old(requests) + Requests(own, old(Contents()), UserSet(name, value))
    {
      hide ParseName, Atoi, ModesFor, Assigned;
      if pendingAssignmentButtonNo > 0 {
        return false;
      }
      var parsed := ParseName(name);
      if !parsed.Button? {
        return parsed.Crash?;
      }
      var number := Atoi(value);
      if number.NotANumber? || number.n <= 0 || number.n > Relays.NUM_VIRTUAL_RELAYS {
        return false;
      }
      var ready := AllReceived();
      if !ready {
        return false;
      }
      var modes := Reassign(parsed.b, number.n);
      requests := requests + [SetModes(modes)];
      pendingAssignmentButtonNo := parsed.b;
      pendingAssignment := number.n;
      return false;
    }
  }

  lemma ResponseIs(own: Address, p: Panel, e: PanelEvent)
    requires Sized(p) && e.QueryResponse?
    ensures ValidResponse(e) <==> !(e.buttonNo == 0 || e.buttonNo as int > BUTTON_COUNT || e.functionNo != 1)
    ensures QueriedValue(own, e) ==
      if e.command == LIGHTING_CONTROL && e.subnetID == own.subnetID
          && e.deviceID == own.deviceID then e.channelNo as int else -1
    ensures ValidResponse(e) ==> 1 <= e.buttonNo as int <= BUTTON_COUNT
    ensures !ValidResponse(e) ==> Next(own, p, e) == p && PanelCalls(own, p, e) == [] && Requests(own, p, e) == []
    ensures ValidResponse(e) ==>
      var i, v := e.buttonNo as int - 1, QueriedValue(own, e);
      && Next(own, p, e) == p.(received := p.received[i := true], assignment := p.assignment[i := v])
      && PanelCalls(own, p, e) ==
           [if p.received[i] then OnValue(ControlName(e.buttonNo), Itoa(v))
            else OnNewControl(ControlName(e.buttonNo), "text", Itoa(v), false)]
      && Requests(own, p, e) == if i + 1 < BUTTON_COUNT then [QueryButton(i + 2)] else []
  {
    hide ControlName, Itoa;
  }

  lemma IndexOfButton(buttonNo: bv8)
    requires buttonNo != 0
    ensures (buttonNo - 1) as int == buttonNo as int - 1 >= 0
  {}
}
