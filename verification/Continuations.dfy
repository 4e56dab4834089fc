/**
 What a run of the whole firmware can still turn into: conditions that can be checked at one event, and that hold
 exactly if every continuation behaves.
 */
module Continuations {
  import opened Bytes
  import opened Events
  import opened DeviceState
  import opened KeyStore
  import opened PivModel
  import opened Machine
  import opened Objects
  import opened SafetyOfFirmware
  import opened Progress
  import opened Journeys
  import opened Signing
  import D = Debounce
  import Button

  // ---- the next press ----

  /** After a pin sample the poll is over; what the interrupt has latched is still there. */
  lemma AfterSample(w: World, e: Event)
    requires w.WellFormed() && w.Enabled(e) && e.act.PollPin?
    ensures var w' := w.Step(e);
            && w'.WellFormed() && w'.phase == Ticking && w'.clock == e.at && w'.button.poller.Outside?
            && w'.button.edgeSeen == w.button.edgeSeen && w'.button.edgeTime == w.button.edgeTime
  {
    StepKeepsWellFormed(w, e);
  }

  /** From the tick on, a latched edge that has settled is confirmed in the next round. */
  lemma NextRoundPresses(s: Spot, at: nat) returns (es: seq<Event>, s': Spot)
    requires s.w.WellFormed() && s.w.phase == Ticking && s.w.clock <= at == s.tick
    requires s.w.button.poller.Outside? && s.w.button.edgeSeen && s.w.button.edgeTime + D.DEBOUNCE_US <= at
    ensures Trip(s, es, s', 0) && es != [] && es[|es| - 1] == Event(at, PollPin(0))
  {
    var es1 := TickEndsRound(s, at, 0);
    var s1 := s.(w := s.w.(phase := Usb, clock := at, card := s.w.card.(fsm := s.w.card.fsm.Tick(at))));
    var es2, s2 := RoundPresses(s1, at);
    es, s' := es1 + es2, s2;
    Onward(s, es1, s1, es2, s', 0);
  }

  lemma RoundPresses(s: Spot, at: nat) returns (es: seq<Event>, s': Spot)
    requires s.w.WellFormed() && s.w.phase == Usb && s.w.clock <= at == s.tick
    requires s.w.button.poller.Outside? && s.w.button.edgeSeen && s.w.button.edgeTime + D.DEBOUNCE_US <= at
    ensures Trip(s, es, s', 0) && es != [] && es[|es| - 1] == Event(at, PollPin(0))
    ensures s' == s.(w := s.w.(phase := Ticking, clock := at,
                               button := s.w.button.(edgeSeen := false, pressConfirmed := true),
                               card := s.w.card.(fsm := s.w.card.fsm.ButtonPressed(at))))
  {
    var es1 := NothingToSend(s, at, 0);
    var s1 := s.(w := s.w.(phase := Poll, clock := at));
    var es2 := PollPresses(s1, at, 0);
    s' := s1.(w := s1.w.(phase := Ticking,
                         button := s.w.button.(edgeSeen := false, pressConfirmed := true),
                         card := s.w.card.(fsm := s.w.card.fsm.ButtonPressed(at))));
    es := es1 + es2;
    Onward(s, es1, s1, es2, s', 0);
  }

  // ---- exactly when later samples keep their distance ----

  /** The run ends in a pin sample; the samples that follow it in this continuation come at least 30 ms later. */
  ghost predicate SamplesSpaced(ws: seq<World>, es: seq<Event>, ws': seq<World>, es': seq<Event>) {
    Extends(ws, es, ws', es') && IsRun(ws', es') && 0 < |es| ==>
      forall k :: |es| <= k < |es'| && es'[k].act.PollPin? ==> es[|es| - 1].at + D.DEBOUNCE_US <= es'[k].at
  }

  /** The same of the confirmed presses alone. */
  ghost predicate PressesSpaced(ws: seq<World>, es: seq<Event>, ws': seq<World>, es': seq<Event>) {
    Extends(ws, es, ws', es') && IsRun(ws', es') && 0 < |es| ==>
      forall k :: |es| <= k < |es'| && D.Confirms(es', k) ==> es[|es| - 1].at + D.DEBOUNCE_US <= es'[k].at
  }

  lemma WaitingEdgeIsTooClose(ws: seq<World>, es: seq<Event>) returns (ws': seq<World>, es': seq<Event>)
    requires IsRun(ws, es) && 0 < |es| && es[|es| - 1].act.PollPin?
    requires D.EdgeWaits(ws[|es| - 1].button, es[|es| - 1])
    ensures IsRun(ws', es') && Extends(ws, es, ws', es') && |es| < |es'| && D.Confirms(es', |es'| - 1)
    ensures es'[|es'| - 1].at < es[|es| - 1].at + D.DEBOUNCE_US
  {
    assert Steps(ws, es, |es| - 1);
    AfterSample(ws[|es| - 1], es[|es| - 1]);
    var at, settled := es[|es| - 1].at, ws[|es|].button.edgeTime + D.DEBOUNCE_US;
    var now := if settled <= at then at else settled;
    var s := Spot(ws[|es|], now, false, 0, 0);
    var trip, s' := NextRoundPresses(s, now);
    ws', es' := AnyRunFollowsTrip(ws, es, s, trip, s', 0);
    assert es'[|es'| - 1] == trip[|trip| - 1];
  }

  lemma LaterSamplesAreSpaced(ws: seq<World>, es: seq<Event>, ws': seq<World>, es': seq<Event>)
    requires IsRun(ws, es) && 0 < |es| && es[|es| - 1].act.PollPin?
    requires !D.EdgeWaits(ws[|es| - 1].button, es[|es| - 1])
    ensures SamplesSpaced(ws, es, ws', es') && PressesSpaced(ws, es, ws', es')
  {
    if Extends(ws, es, ws', es') && IsRun(ws', es') {
      var j := |es| - 1;
      assert es'[j] == es[j] && ws'[j] == ws[j];
      ProjectsToButtonRun(ws', es');
      D.LaterSamplesAreSpaced(Buttons(ws'), es', j);
    }
  }

  /**
   In every continuation of a run of the firmware all later pin samples, and all later confirmed presses, come at least
   30 ms after the sample it ends in, exactly if no edge of an earlier time is latched when that sample is taken.
   */
  lemma SamplesStaySpacedIff(ws: seq<World>, es: seq<Event>)
    requires IsRun(ws, es) && 0 < |es| && es[|es| - 1].act.PollPin?
    ensures (forall ws', es' :: SamplesSpaced(ws, es, ws', es')) <==>
              !D.EdgeWaits(ws[|es| - 1].button, es[|es| - 1])
    ensures (forall ws', es' :: PressesSpaced(ws, es, ws', es')) <==>
              !D.EdgeWaits(ws[|es| - 1].button, es[|es| - 1])
  {
    if D.EdgeWaits(ws[|es| - 1].button, es[|es| - 1]) {
      var ws', es' := WaitingEdgeIsTooClose(ws, es);
      assert !SamplesSpaced(ws, es, ws', es') && !PressesSpaced(ws, es, ws', es');
    } else {
      forall ws', es'
        ensures SamplesSpaced(ws, es, ws', es') && PressesSpaced(ws, es, ws', es')
      {
        LaterSamplesAreSpaced(ws, es, ws', es');
      }
    }
  }

  /** From boot, an edge comes, and a poll begins when it has settled. */
  lemma EdgeAndPoll(v: Vault, d: nat) returns (es: seq<Event>, s: Spot)
    requires IsBootVault(v) && 30_000 <= d
    ensures Trip(BootSpot(v), es, s, d) && s.w.WellFormed() && s.w.phase == Poll && s.w.clock == 30_000 && s.tick == 0
    ensures s.w.button.poller.Outside? && s.w.button.edgeSeen && s.w.button.edgeTime == 0
  {
    var es1, s1 := EdgeComes(BootSpot(v), d);
    var es2 := NothingToSend(s1, 30_000, d);
    s := s1.(w := s1.w.(phase := Poll, clock := 30_000));
    es := es1 + es2;
    Onward(BootSpot(v), es1, s1, es2, s, d);
  }

  /** Between the clear and the sample of that poll comes another edge. */
  lemma EdgeBeforeSample(v: Vault) returns (es: seq<Event>, s: Spot, e: Event)
    requires IsBootVault(v)
    ensures Trip(BootSpot(v), es, s, 31_000) && s.Allows(e, 31_000) && e == Event(31_000, PollPin(0))
    ensures s.w.button.edgeSeen && s.w.button.edgeTime == 30_000
  {
    var d := 31_000;
    var es1, s1 := EdgeAndPoll(v, d);
    var es2, s2 := PollUpToClear(s1, 30_000, d);
    Onward(BootSpot(v), es1, s1, es2, s2, d);
    var edge := Event(30_000, Edge(Button.BUTTON_PIN));
    OneEvent(s2, edge, d);
    s := s2.Next(edge);
    es := es1 + es2 + [edge];
    Onward(BootSpot(v), es1 + es2, s2, [edge], s, d);
    e := Event(31_000, PollPin(0));
  }

  lemma PollUpToClear(s: Spot, at: nat, d: nat) returns (es: seq<Event>, s': Spot)
    requires s.w.WellFormed() && s.w.phase == Poll && s.w.clock <= at <= s.tick + d
    requires s.w.button.poller.Outside? && s.w.button.edgeSeen && s.w.button.edgeTime + D.DEBOUNCE_US <= at
    ensures Trip(s, es, s', d)
    ensures s' == s.(w := s.w.(clock := at, button := s.w.button.(edgeSeen := false, poller := Button.Confirming)))
  {
    var b := s.w.button;
    var read := Button.Measuring(Some(b.edgeTime % Button.WORD), Some(b.edgeTime / Button.WORD), Some(at));
    var s1 := s.(w := s.w.(button := b.(poller := read), clock := at));
    var es1 := PollReads(s, at, d);
    var es2, s2 := FlagCleared(s1, at, d);
    es, s' := es1 + es2, s2;
    Onward(s, es1, s1, es2, s', d);
  }

  /** From every boot, a run of the firmware with two confirmed presses less than 30 ms apart. */
  lemma PressesCanBeCloserThanDebounce(v: Vault) returns (ws: seq<World>, es: seq<Event>, j: nat, k: nat)
    requires IsBootVault(v)
    ensures IsRun(ws, es) && ws[0] == Boot(v) && j < k < |es| && D.Confirms(es, j) && D.Confirms(es, k)
    ensures es[k].at < es[j].at + D.DEBOUNCE_US
  {
    var trip, s, e := EdgeBeforeSample(v);
    var ws0, es0 := AnyRunFollowsTrip([Boot(v)], [], BootSpot(v), trip, s, 31_000);
    var ws1, es1 := RunGrows(ws0, es0, e);
    ws, es := WaitingEdgeIsTooClose(ws1, es1);
    j, k := |es0|, |es| - 1;
    assert es[j] == es1[j] && ws[0] == ws1[0] == ws0[0];
  }

  // ---- exactly when no press can use an edge from before the demand ----

  /** The run ends in a demand; a call on the wait that it opens has an edge behind it that is not older. */
  ghost predicate EdgeIsNewer(ws: seq<World>, es: seq<Event>, ws': seq<World>, es': seq<Event>, k: nat) {
    Extends(ws, es, ws', es') && IsRun(ws', es') && k < |es'| && CallsSigner(ws', k)
    && DemandBehind(ws', es', k) == |es| - 1 && 0 <= PressBehind(ws', es', k) ==>
      |es| <= EdgeBehind(ws', es', k)
  }

  lemma NewEdge(ws: seq<World>, es: seq<Event>, k: nat)
    requires IsRun(ws, es) && k < |es| && CallsSigner(ws, k)
    requires 0 <= DemandBehind(ws, es, k) && !ws[DemandBehind(ws, es, k)].button.edgeSeen
    ensures 0 <= PressBehind(ws, es, k) && DemandBehind(ws, es, k) < EdgeBehind(ws, es, k)
  {
    EdgePrecedesDemandIff(ws, es, k);
    SignerCallHasItsEdge(ws, es, k);
    DemandIsNoEdge(ws, es, k);
  }

  lemma DemandIsNoEdge(ws: seq<World>, es: seq<Event>, k: nat)
    requires IsRun(ws, es) && k < |es| && CallsSigner(ws, k)
    ensures 0 <= DemandBehind(ws, es, k) < k && es[DemandBehind(ws, es, k)].act.Receive?
  {
    SignerCallHasItsPress(ws, es, k);
    var o := DemandBehind(ws, es, k);
    DemandOutsidePoll(ws[o], es[o]);
  }

  lemma NewEdgeOnly(ws: seq<World>, es: seq<Event>, ws': seq<World>, es': seq<Event>, k: nat)
    requires IsRun(ws, es) && 0 < |es| && OpensWait(ws, es, |es| - 1) && !ws[|es| - 1].button.edgeSeen
    ensures EdgeIsNewer(ws, es, ws', es', k)
  {
    if Extends(ws, es, ws', es') && IsRun(ws', es') && k < |es'| && CallsSigner(ws', k) {
      assert ws'[|es| - 1] == ws[|es| - 1];
      if DemandBehind(ws', es', k) == |es| - 1 {
        NewEdge(ws', es', k);
      }
    }
  }

  /** After the demand: the latched edge is confirmed in this round, and the next demand is signed. */
  lemma OldEdgeSigns(s: Spot, at: nat, t: Template) returns (es: seq<Event>, s': Spot, e: Event)
    requires s.w.WellFormed() && s.w.phase == Usb && s.w.clock <= at == s.tick && s.w.ccid.powered
    requires s.w.button.poller.Outside? && s.w.button.edgeSeen && s.w.button.edgeTime + D.DEBOUNCE_US <= at
    requires s.w.card.piv.selected && s.w.card.piv.pinVerified && s.w.card.fsm.mode == WaitingButton
    requires t.WellFormed() && |Print(t)| <= 255
    ensures Trip(s, es, s', 0) && s'.edges == s.edges && s'.msgs == s.msgs
    ensures s'.w.WellFormed() && s'.w.Enabled(e) && e.act.Receive?
    ensures s'.w.Step(e).card.vault.signed != s'.w.card.vault.signed
  {
    var es1, s1 := RoundPresses(s, at);
    var es2 := TickEndsRound(s1, at, 0);
    s' := s1.(w := s1.w.(phase := Usb, card := s1.w.card.(fsm := s1.w.card.fsm.Tick(at))));
    es := es1 + es2;
    Onward(s, es1, s1, es2, s', 0);
    e := Event(at, Receive(DemandMessage(t), []));
    DemandGranted(s'.w, e, t);
  }

  /** After a demand the loop serves USB, the machine waits, and the flag is as it was. */
  predicate Awaits(w: World, edgeSeen: bool) {
    && w.WellFormed() && w.phase == Usb && w.ccid.powered && w.button.poller.Outside? && w.button.edgeSeen == edgeSeen
    && w.card.fsm.mode == WaitingButton && w.card.piv.selected && w.card.piv.pinVerified
  }

  lemma AfterDemand(ws: seq<World>, es: seq<Event>, o: nat)
    requires IsRun(ws, es) && o < |es| && OpensWait(ws, es, o)
    ensures Awaits(ws[o + 1], ws[o].button.edgeSeen)
  {
    PollerWorksInPoll(ws, es, o);
    DemandKeepsSession(ws[o], es[o]);
    assert ws[o + 1] == ws[o].Step(es[o]);
  }

  lemma DemandKeepsSession(w: World, e: Event)
    requires w.WellFormed() && w.Enabled(e) && IsDemand(w, e)
    ensures var w' := w.Step(e);
            && w.phase == Usb == w'.phase && w'.WellFormed() && w'.ccid.powered && w'.card.piv == w.card.piv
            && w'.button == w.button
  {
    DemandOutsidePoll(w, e);
    StepKeepsWellFormed(w, e);
    MessageDemands(w, e);
    DemandKeepsPiv(w.card, ApduOf(w, e).value);
  }

  lemma DemandKeepsPiv(card: Card, q: Request)
    requires card.WellFormed() && q.Legal() && DemandOf(card, q).Some?
    ensures ProcessApdu(card, q).card.piv == card.piv
  {
  }

  lemma LatchedEdgeServes(ws: seq<World>, es: seq<Event>) returns (ws': seq<World>, es': seq<Event>, k: nat)
    requires IsRun(ws, es) && 0 < |es| && OpensWait(ws, es, |es| - 1) && ws[|es| - 1].button.edgeSeen
    ensures IsRun(ws', es') && Extends(ws, es, ws', es') && k < |es'| && CallsSigner(ws', k)
    ensures DemandBehind(ws', es', k) == |es| - 1 && 0 <= PressBehind(ws', es', k)
    ensures 0 <= EdgeBehind(ws', es', k) < |es| - 1
  {
    AfterDemand(ws, es, |es| - 1);
    var w := ws[|es|];
    var settled := w.button.edgeTime + D.DEBOUNCE_US;
    var now := if settled <= w.clock then w.clock else settled;
    var s := Spot(w, now, false, 0, 0);
    var trip, s', e := OldEdgeSigns(s, now, Template([0x00], [0x00], []));
    NoEdgeOnTrip(s, trip, s', 0);
    NoMessageOnTrip(s, trip, s', 0);
    var ws1, es1 := AnyRunFollowsTrip(ws, es, s, trip, s', 0);
    ws', es' := RunGrows(ws1, es1, e);
    ExtendsOn(ws, es, ws1, es1, ws', es');
    k := |es1|;
    TripIsOwn(es, trip, e);
    OldEdgeBehind(ws, es, ws', es', k);
  }

  /** Neither edges nor messages from the demand to the call. */
  lemma TripIsOwn(es: seq<Event>, trip: seq<Event>, e: Event)
    requires 0 < |es| && es[|es| - 1].act.Receive? && e.act.Receive?
    requires forall m :: 0 <= m < |trip| ==> !trip[m].act.Edge? && !trip[m].act.Receive?
    ensures var es' := es + trip + [e];
            && (forall m :: |es| - 1 <= m < |es'| ==> !es'[m].act.Edge?)
            && (forall m :: |es| - 1 < m < |es'| - 1 ==> !es'[m].act.Receive?)
  {
    var es' := es + trip + [e];
    forall m | |es| <= m < |es'| - 1
      ensures !es'[m].act.Edge? && !es'[m].act.Receive?
    {
      assert es'[m] == trip[m - |es|];
    }
  }

  lemma OldEdgeBehind(ws: seq<World>, es: seq<Event>, ws': seq<World>, es': seq<Event>, k: nat)
    requires IsRun(ws, es) && 0 < |es| && OpensWait(ws, es, |es| - 1)
    requires IsRun(ws', es') && Extends(ws, es, ws', es') && |es| <= k == |es'| - 1 && CallsSigner(ws', k)
    requires forall m :: |es| - 1 <= m < |es'| ==> !es'[m].act.Edge?
    requires forall m :: |es| - 1 < m < |es'| - 1 ==> !es'[m].act.Receive?
    ensures DemandBehind(ws', es', k) == |es| - 1 && 0 <= PressBehind(ws', es', k)
    ensures 0 <= EdgeBehind(ws', es', k) < |es| - 1
  {
    assert ws'[|es| - 1] == ws[|es| - 1];
    SignerCallHasItsPress(ws', es', k);
    EdgeBeforeDemand(ws', es', k, |es| - 1);
    DemandIsThat(ws', es', k, |es| - 1, k);
  }

  /**
   In every continuation of a run that ends in an opening demand the signatures on its wait have an edge behind them
   that came after the demand, exactly if the flag was not set when the demand came.
   */
  lemma EdgesStayNewerIff(ws: seq<World>, es: seq<Event>)
    requires IsRun(ws, es) && 0 < |es| && OpensWait(ws, es, |es| - 1)
    ensures (forall ws', es', k :: EdgeIsNewer(ws, es, ws', es', k)) <==> !ws[|es| - 1].button.edgeSeen
  {
    if ws[|es| - 1].button.edgeSeen {
      var ws', es', k := LatchedEdgeServes(ws, es);
      assert !EdgeIsNewer(ws, es, ws', es', k);
    } else {
      forall ws', es', k
        ensures EdgeIsNewer(ws, es, ws', es', k)
      {
        NewEdgeOnly(ws, es, ws', es', k);
      }
    }
  }
}
