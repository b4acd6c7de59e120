/**
 The ZoneBeast mirror in terms of what was reported: which broadcasts count, what every
 channel and every temperature holds after any run, and that a channel is published only
 when it changes.
 */
module ZoneBeastHistory {
  import opened Strconv
  import opened Observer
  import opened MessageFormat
  import opened ZoneBeast

  // ----- which broadcasts are skipped -----

  predicate Confirms(r: Report) { r.Single? && r.success }

  // A command was confirmed since the last broadcast before k.
  ghost predicate SkipDue(reports: seq<Report>, k: nat)
    requires k <= |reports|
  {
    exists i :: 0 <= i < k && Confirms(reports[i]) && forall j :: i < j < k ==> !reports[j].Broadcast?
  }

  lemma SkipDuePrefix(reports: seq<Report>, n: nat, k: nat)
    requires k <= n <= |reports|
    ensures SkipDue(reports[..n], k) <==> SkipDue(reports, k)
  {
    hide Confirms;
    var before := reports[..n];
    assert forall i :: 0 <= i < n ==> before[i] == reports[i];
    if SkipDue(before, k) {
      var i :| 0 <= i < k && Confirms(before[i]) && forall j :: i < j < k ==> !before[j].Broadcast?;
      assert Confirms(reports[i]);
    }
    if SkipDue(reports, k) {
      var i :| 0 <= i < k && Confirms(reports[i]) && forall j :: i < j < k ==> !reports[j].Broadcast?;
      assert Confirms(before[i]);
    }
  }

  lemma SkipDueNext(reports: seq<Report>, n: nat)
    requires n < |reports|
    ensures SkipDue(reports, n + 1) <==> Confirms(reports[n]) || (SkipDue(reports, n) && !reports[n].Broadcast?)
  {
    if Confirms(reports[n]) {
      assert 0 <= n < n + 1 && Confirms(reports[n]);
    }
    if SkipDue(reports, n) && !reports[n].Broadcast? {
      var i :| 0 <= i < n && Confirms(reports[i]) && forall j :: i < j < n ==> !reports[j].Broadcast?;
      assert forall j :: i < j < n + 1 ==> !reports[j].Broadcast?;
    }
  }

  // The next broadcast is skipped exactly when a command was confirmed after the last one.
  lemma {:induction false} SkipIff(reports: seq<Report>)
    ensures AfterAll(NEW_MIRROR, reports).skipBroadcast <==> SkipDue(reports, |reports|)
  {
    hide SkipDue;
    if |reports| == 0 {
      NoSkipYet();
    } else {
      var n := |reports| - 1;
      SkipIff(reports[..n]);
      SkipDuePrefix(reports, n, n);
      SkipDueNext(reports, n);
    }
  }

  lemma NoSkipYet()
    ensures !SkipDue([], 0)
  {}

  // ----- what every channel holds -----

  // Report k is a list that was taken and reaches channel i.
  ghost predicate ListCovers(reports: seq<Report>, k: nat, i: nat)
    requires k < |reports|
  {
    match reports[k]
    case Broadcast(status) => !SkipDue(reports, k) && i < |status|
    case Levels(levels) => i < |levels|
    case _ => false
  }

  // Report k says something about channel i: such a list, or the confirmation of a
  // command to a channel that is known by then.
  ghost predicate Covers(reports: seq<Report>, k: nat, i: nat)
    requires k < |reports|
  {
    || ListCovers(reports, k, i)
    || (Confirms(reports[k]) && reports[k].channelNo as int == i + 1 &&
        exists j :: 0 <= j < k && ListCovers(reports, j, i))
  }

  function Said(r: Report, i: nat): bool {
    match r
    case Broadcast(status) => i < |status| && status[i]
    case Levels(levels) => i < |levels| && levels[i] != 0
    case Single(_, _, level) => level != 0
    case Temperatures(_, _) => false
  }

  ghost predicate LastCover(reports: seq<Report>, k: nat, i: nat) {
    k < |reports| && Covers(reports, k, i) && forall j :: k < j < |reports| ==> !Covers(reports, j, i)
  }

  lemma ListCoversPrefix(reports: seq<Report>, n: nat, k: nat, i: nat)
    requires k < n <= |reports|
    ensures ListCovers(reports[..n], k, i) <==> ListCovers(reports, k, i)
  {
    hide SkipDue;
    SkipDuePrefix(reports, n, k);
  }

  lemma CoversPrefix(reports: seq<Report>, n: nat, k: nat, i: nat)
    requires k < n <= |reports|
    ensures Covers(reports[..n], k, i) <==> Covers(reports, k, i)
  {
    hide ListCovers, Confirms;
    forall j: nat | j <= k ensures ListCovers(reports[..n], j, i) <==> ListCovers(reports, j, i) {
      ListCoversPrefix(reports, n, j, i);
    }
    assert reports[..n][k] == reports[k];
  }

  // The channels after one report, given whether the next broadcast is skipped.
  predicate Takes(m: Mirror, r: Report, i: nat) {
    match r
    case Broadcast(status) => !m.skipBroadcast && i < |status|
    case Levels(levels) => i < |levels|
    case Single(channelNo, success, _) => success && channelNo as int == i + 1 && i < |m.channels|
    case Temperatures(_, _) => false
  }

  lemma IndexOf(channelNo: bv8)
    ensures ChannelIndex(channelNo) == if channelNo as int == 0 then 255 else channelNo as int - 1
  {}

  lemma TakesOne(m: Mirror, r: Report, i: nat)
    requires |m.channels| <= 255
    ensures var m' := After(m, r);
      if Takes(m, r, i) then i < |m'.channels| && m'.channels[i] == Said(r, i)
      else (i < |m'.channels| <==> i < |m.channels|) && (i < |m.channels| ==> m'.channels[i] == m.channels[i])
  {
    hide ChannelIndex;
    match r
    case Single(channelNo, _, _) => IndexOf(channelNo);
    case Levels(levels) => assert forall k :: 0 <= k < |levels| ==>
        AreOn(levels)[k] == (levels[k] != 0) by { OnIffNonzero(levels); }
    case _ =>
  }

  lemma OnIffNonzero(levels: seq<bv8>)
    ensures forall k :: 0 <= k < |levels| ==> AreOn(levels)[k] == (levels[k] != 0)
  {}

  ghost predicate ChannelKnown(reports: seq<Report>, i: nat) {
    exists k :: 0 <= k < |reports| && ListCovers(reports, k, i)
  }

  lemma KnownNext(reports: seq<Report>, i: nat)
    requires |reports| > 0
    ensures var n := |reports| - 1;
      && (ChannelKnown(reports, i) <==> ChannelKnown(reports[..n], i) || ListCovers(reports, n, i))
      && (Covers(reports, n, i) <==>
            (ListCovers(reports, n, i) ||
              (Confirms(reports[n]) && reports[n].channelNo as int == i + 1 && ChannelKnown(reports[..n], i))))
  {
    hide ListCovers, Confirms;
    var n := |reports| - 1;
    forall j: nat | j < n ensures ListCovers(reports[..n], j, i) <==> ListCovers(reports, j, i) {
      ListCoversPrefix(reports, n, j, i);
    }
  }

  // A channel exists exactly if a list that was taken has reached it, and holds what the
  // last report about it said.
  lemma {:induction false} ChannelIs(reports: seq<Report>, i: nat) returns (k: nat)
    requires forall j :: 0 <= j < |reports| ==> FromWire(reports[j])
    ensures var m := AfterAll(NEW_MIRROR, reports);
      && (i < |m.channels| <==> ChannelKnown(reports, i))
      && (i < |m.channels| ==> k < |reports| && LastCover(reports, k, i) && m.channels[i] == Said(reports[k], i))
  {
    hide After, SkipDue, FromWire, Said, LastCover, Covers, ChannelKnown, Takes;
    if |reports| == 0 {
      NothingKnown(i);
      return 0;
    }
    var n := |reports| - 1;
    var before, r := reports[..n], reports[n];
    var m := AfterAll(NEW_MIRROR, before);
    k := ChannelIs(before, i);
    ViewIsMirror(before);
    SkipIff(before);
    SkipDuePrefix(reports, n, n);
    TakesOne(m, r, i);
    TakesIffCovers(reports, m, i);
    if Takes(m, r, i) {
      k := n;
      CoverNow(reports, i);
    } else if i < |m.channels| {
      CoverKept(reports, k, i);
    }
  }

  lemma CoverNow(reports: seq<Report>, i: nat)
    requires |reports| > 0 && Covers(reports, |reports| - 1, i)
    ensures LastCover(reports, |reports| - 1, i)
  {
    hide Covers;
  }

  lemma CoverKept(reports: seq<Report>, k: nat, i: nat)
    requires |reports| > 0 && LastCover(reports[..|reports| - 1], k, i) && !Covers(reports, |reports| - 1, i)
    ensures LastCover(reports, k, i) && reports[..|reports| - 1][k] == reports[k]
  {
    hide Covers;
    var n := |reports| - 1;
    CoversPrefix(reports, n, k, i);
    forall j | k < j < |reports| ensures !Covers(reports, j, i) {
      if j < n { CoversPrefix(reports, n, j, i); }
    }
  }

  lemma TakesIffCovers(reports: seq<Report>, m: Mirror, i: nat)
    requires |reports| > 0 && m.skipBroadcast == SkipDue(reports, |reports| - 1)
    requires i < |m.channels| <==> ChannelKnown(reports[..|reports| - 1], i)
    ensures Takes(m, reports[|reports| - 1], i) <==> Covers(reports, |reports| - 1, i)
    ensures Takes(m, reports[|reports| - 1], i) || i < |m.channels| <==> ChannelKnown(reports, i)
  {
    hide SkipDue, ChannelKnown, Covers;
    KnownNext(reports, i);
  }

  lemma NothingKnown(i: nat)
    ensures !ChannelKnown([], i)
  {}

  // ----- what every temperature is -----

  predicate TempCovers(r: Report, i: nat) { r.Temperatures? && r.useCelsius && i < |r.values| }

  // A temperature exists exactly if a list in Celsius has reached it, and is what the
  // last such list said.
  lemma {:induction false} TempIs(reports: seq<Report>, i: nat) returns (k: nat)
    ensures var m := AfterAll(NEW_MIRROR, reports);
      && (i < |m.temps| <==> exists j :: 0 <= j < |reports| && TempCovers(reports[j], i))
      && (i < |m.temps| ==>
            && k < |reports| && TempCovers(reports[k], i) && m.temps[i] == reports[k].values[i]
            && forall j :: k < j < |reports| ==> !TempCovers(reports[j], i))
  {
    k := 0;
    if |reports| > 0 {
      var n := |reports| - 1;
      var before := reports[..n];
      k := TempIs(before, i);
      assert forall j :: 0 <= j < n ==> before[j] == reports[j];
      if TempCovers(reports[n], i) {
        k := n;
      }
    }
  }

  // ----- a channel is published when it changes, and only then -----

  ghost predicate IsChannel(name: string) { exists i: nat :: name == ChannelName(i) }

  // The value of a channel is never published while it is already shown.
  ghost predicate NoEcho(calls: seq<Call>) {
    |calls| == 0 ||
    (var last, shown := calls[|calls| - 1], Replay(calls[..|calls| - 1]);
     && NoEcho(calls[..|calls| - 1])
     && (last.OnValue? && IsChannel(last.name) && last.name in shown ==> shown[last.name] != last.value))
  }

  lemma NoEchoOne(calls: seq<Call>, call: Call)
    requires NoEcho(calls)
    requires call.OnValue? && IsChannel(call.name) && call.name in Replay(calls) ==>
        Replay(calls)[call.name] != call.value
    ensures NoEcho(calls + [call])
  {
    assert (calls + [call])[..|calls|] == calls;
  }

  lemma ShownChannel(view: View, channels: seq<bool>, temps: seq<int8>, i: nat)
    requires Shows(view, channels, temps) && i < |channels|
    ensures ChannelName(i) in view && view[ChannelName(i)] == Switch(channels[i])
  {}

  lemma {:induction false} ChannelCallsNoEcho(log: seq<Call>, channels: seq<bool>, temps: seq<int8>,
      status: seq<bool>, n: nat)
    requires Consistent(log) && Shows(Replay(log), channels, temps) && n <= |status| && NoEcho(log)
    ensures NoEcho(log + ChannelCalls(channels, status, n))
  {
    hide Shows, ChannelName, Switch, Consistent, Replay, NoEcho;
    if n == 0 {
      assert log + [] == log;
    } else {
      var i := n - 1;
      ChannelCallsNoEcho(log, channels, temps, status, i);
      ChannelCallsShow(log, channels, temps, status, i);
      OverlayNext(channels, status, i);
      var before, call := log + ChannelCalls(channels, status, i), ChannelCall(channels, status, i);
      assert log + ChannelCalls(channels, status, n) == before + call;
      if |call| == 0 {
        assert before + [] == before;
      } else {
        assert call == [call[0]];
        if call[0].OnValue? {
          ShownChannel(Replay(before), Overlay(channels, status[..i]), temps, i);
          SwitchDiffers(channels[i], status[i]);
        }
        NoEchoOne(before, call[0]);
      }
    }
  }

  lemma SwitchDiffers(a: bool, b: bool)
    requires a != b
    ensures Switch(a) != Switch(b)
  {}

  lemma {:induction false} TempCallsNoEcho(log: seq<Call>, known: nat, values: seq<int8>, n: nat)
    requires n <= |values| && NoEcho(log)
    ensures NoEcho(log + TempCalls(known, values, n))
  {
    hide ChannelName, TempName, Itoa, Replay, NoEcho;
    if n == 0 {
      assert log + [] == log;
    } else {
      TempCallsNoEcho(log, known, values, n - 1);
      AllNamesDiffer();
      var before, call := log + TempCalls(known, values, n - 1), TempCall(known, values, n - 1);
      assert log + TempCalls(known, values, n) == before + [call];
      NoEchoOne(before, call);
    }
  }

  // Over any run of reports, no channel is published with the value it already shows.
  lemma {:induction false} PublishedOnChange(reports: seq<Report>)
    requires forall i :: 0 <= i < |reports| ==> FromWire(reports[i])
    ensures NoEcho(AllCalls(NEW_MIRROR, reports))
  {
    hide After, Replay, Consistent, Shows, NoEcho, InOrder, FromWire, ChannelCalls, TempCalls, ChannelName, Switch;
    if |reports| == 0 {
      NoEchoYet();
    } else {
      var n := |reports| - 1;
      var m, log, r := AfterAll(NEW_MIRROR, reports[..n]), AllCalls(NEW_MIRROR, reports[..n]), reports[n];
      PublishedOnChange(reports[..n]);
      ViewIsMirror(reports[..n]);
      assert log + [] == log;
      match r
      case Broadcast(status) => ChannelCallsNoEcho(log, m.channels, m.temps, status, |status|);
      case Levels(levels) => ChannelCallsNoEcho(log, m.channels, m.temps, AreOn(levels), |levels|);
      case Single(channelNo, _, level) =>
        var i := ChannelIndex(channelNo);
        if Calls(m, r) != [] {
          ShownChannel(Replay(log), m.channels, m.temps, i);
          SwitchDiffers(m.channels[i], level != 0);
          NoEchoOne(log, OnValue(ChannelName(i), Switch(level != 0)));
        }
      case Temperatures(_, values) => TempCallsNoEcho(log, |m.temps|, values, |values|);
    }
  }

  lemma NoEchoYet()
    ensures NoEcho([])
  {}

  // ----- what kind of control everything is -----

  // A channel is a switch that can be written, a temperature cannot be.
  ghost predicate AnnouncedAs(call: Call) {
    call.OnNewControl? ==>
      exists i: nat {:trigger Itoa(i)} :: i > 0 &&
        ((call.name == "Channel " + Itoa(i) && call.paramType == "switch" && !call.readonly) ||
         (call.name == "Temp " + Itoa(i) && call.paramType == "temperature" && call.readonly))
  }

  lemma ChannelAnnounced(channels: seq<bool>, status: seq<bool>, i: nat)
    requires i < |status|
    ensures forall call <- ChannelCall(channels, status, i) :: AnnouncedAs(call)
  {
    hide Switch, Itoa;
    assert ChannelName(i) == "Channel " + Itoa(i + 1);
  }

  lemma TempAnnounced(known: nat, values: seq<int8>, i: nat)
    requires i < |values|
    ensures AnnouncedAs(TempCall(known, values, i))
  {
    hide Itoa;
    assert TempName(i) == "Temp " + Itoa(i + 1);
  }

  lemma {:induction false} ChannelsAnnounced(channels: seq<bool>, status: seq<bool>, n: nat)
    requires n <= |status|
    ensures forall call <- ChannelCalls(channels, status, n) :: AnnouncedAs(call)
  {
    hide AnnouncedAs, ChannelCall;
    if n > 0 {
      ChannelsAnnounced(channels, status, n - 1);
      ChannelAnnounced(channels, status, n - 1);
    }
  }

  lemma {:induction false} TempsAnnounced(known: nat, values: seq<int8>, n: nat)
    requires n <= |values|
    ensures forall call <- TempCalls(known, values, n) :: AnnouncedAs(call)
  {
    hide AnnouncedAs, TempCall;
    if n > 0 {
      TempsAnnounced(known, values, n - 1);
      TempAnnounced(known, values, n - 1);
    }
  }

  // Over any run, whatever is announced is a switch or a temperature, under its name.
  lemma {:induction false} AllAnnouncedAs(reports: seq<Report>)
    ensures forall call <- AllCalls(NEW_MIRROR, reports) :: AnnouncedAs(call)
  {
    hide AnnouncedAs, After, ChannelCalls, TempCalls, ChannelName, Switch;
    if |reports| > 0 {
      var n := |reports| - 1;
      var m, r := AfterAll(NEW_MIRROR, reports[..n]), reports[n];
      AllAnnouncedAs(reports[..n]);
      match r
      case Broadcast(status) => ChannelsAnnounced(m.channels, status, |status|);
      case Levels(levels) => ChannelsAnnounced(m.channels, AreOn(levels), |levels|);
      case Single(channelNo, _, level) => ValueAnnounced(ChannelName(ChannelIndex(channelNo)), Switch(level != 0));
      case Temperatures(_, values) => TempsAnnounced(|m.temps|, values, |values|);
    }
  }

  lemma ValueAnnounced(name: string, value: string)
    ensures AnnouncedAs(OnValue(name, value))
  {}
}
