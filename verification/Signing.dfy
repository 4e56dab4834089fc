/**
 Runs that sign. From every boot a lock-step host, one press and a second demand lead to a call of the signer. The
 call can come as late after the press, and after the demand, as the bounds allow; its edge can be older than the
 demand; and the demand that the press answers can be of an earlier card session and for another challenge.
 */
module Signing {
  import opened Bytes
  import opened Events
  import opened Apdu
  import opened DeviceState
  import opened KeyStore
  import opened PivModel
  import opened CcidModel
  import opened Machine
  import opened Objects
  import opened Replies
  import opened Delivery
  import opened Transfers
  import opened SafetyOfFirmware
  import opened Progress
  import opened Journeys
  import A = Authorization
  import D = Debounce
  import S = Session
  import CardEdge

  // ---- up to the wait for the button ----

  function VerifyPin(): Short {
    Short(0x00, 0x20, 0x00, 0x80, [0x31, 0x32, 0x33, 0x34, 0x35, 0x36, 0xFF, 0xFF], None)
  }

  lemma VerifyWorks(card: Card, q: Request)
    requires card.WellFormed() && card.piv.selected && Carries(q, VerifyPin())
    ensures ProcessApdu(card, q).card == card.(piv := card.piv.(pinVerified := true))
  {
    var c := Parse(q.mem, q.rawLen).value;
    assert Data(c, q.mem) == View(q.mem, c).data == PIN;
  }

  lemma SelectSelects(card: Card, q: Request)
    requires card.WellFormed() && Carries(q, SelectPiv(None))
    ensures ProcessApdu(card, q).card == card.(piv := card.piv.(selected := true))
  {
    var c := Parse(q.mem, q.rawLen).value;
    assert Data(c, q.mem) == View(q.mem, c).data == AID;
    assert AID[..|AID|] == AID;
  }

  /** The card is open for demands. */
  predicate IsOpen(s: Spot) {
    && AtRest(s) && s.w.ccid.powered && s.w.card.piv.selected && s.w.card.piv.pinVerified
  }

  function PowerMessage(on: bool): (msg: seq<byte>)
    ensures IsFrame(msg) && |msg| <= BUF_SIZE && msg[0] == if on then 0x62 else 0x63
  {
    [if on then 0x62 else 0x63, 0x00, 0x00, 0x00, 0x00, 0x00, 0x00, 0x00, 0x00, 0x00]
  }

  lemma PowerStep(w: World, e: Event, on: bool)
    requires w.WellFormed() && w.Enabled(e) && e.act.Receive? && e.act.msg == PowerMessage(on)
    ensures var w' := w.Step(e);
            w'.ccid.powered == on && w'.card == if on then w.card.(piv := PivInit()) else w.card
  {
    assert Splice(w.rx, 0, e.act.msg)[0] == e.act.msg[0];
  }

  /** The host switches the slot on or off. */
  lemma PowerRound(s: Spot, on: bool, d: nat) returns (es: seq<Event>, s': Spot)
    requires AtRest(s) && Declines(s.w.button, s.w.clock) && Outlives(s.w.card.fsm, s.w.clock)
    ensures Trip(s, es, s', d) && AtRest(s') && s'.w.clock == s.w.clock && s'.w.button == s.w.button
    ensures s'.edges == s.edges && s'.w.ccid.powered == on
    ensures s'.w.card == if on then s.w.card.(piv := PivInit()) else s.w.card
    ensures es != [] && es[0] == Event(s.w.clock, Receive(PowerMessage(on), []))
  {
    var w;
    es, w := MessageRound(s, PowerMessage(on), [], d);
    s' := Answered(s, w);
    PowerStep(s.w, es[0], on);
  }

  /** SELECT and VERIFY open a card that is switched on. */
  lemma Opens(s: Spot, d: nat) returns (es: seq<Event>, s': Spot)
    requires AtRest(s) && s.w.ccid.powered && s.w.card.piv == PivInit()
    requires Declines(s.w.button, s.w.clock) && Outlives(s.w.card.fsm, s.w.clock)
    ensures Trip(s, es, s', d) && IsOpen(s') && s'.w.clock == s.w.clock && s'.w.button == s.w.button
    ensures s'.edges == s.edges && s'.w.card.fsm == s.w.card.fsm && s'.w.card.vault == s.w.card.vault
  {
    var es1, s1, q1, _ := CommandRound(s, SelectPiv(None), d);
    SelectSelects(s.w.card, q1);
    var es2, s2, q2, _ := CommandRound(s1, VerifyPin(), d);
    VerifyWorks(s1.w.card, q2);
    es, s' := es1 + es2, s2;
    Onward(s, es1, s1, es2, s', d);
  }

  function BootSpot(v: Vault): Spot {
    Spot(Boot(v), 0, false, 0, 0)
  }

  /** Open at time 0, with the machine idle and no edge so far. */
  predicate IsOpened(s: Spot, v: Vault) {
    && IsOpen(s) && s.w.clock == 0 && s.edges == 0 && !s.w.button.edgeSeen
    && s.w.card.fsm == BOOT_FSM && s.w.card.vault == v
  }

  lemma OpensCard(v: Vault, d: nat) returns (es: seq<Event>, s: Spot)
    requires IsBootVault(v)
    ensures Trip(BootSpot(v), es, s, d) && IsOpened(s, v)
  {
    var es1, s1 := PowerRound(BootSpot(v), true, d);
    var es2, s2 := Opens(s1, d);
    es, s := es1 + es2, s2;
    Onward(BootSpot(v), es1, s1, es2, s, d);
  }

  /** From boot to the open card. */
  lemma OpenFromBoot(v: Vault, d: nat) returns (ws: seq<World>, es: seq<Event>, s: Spot)
    requires IsBootVault(v)
    ensures ArrivesAt(ws, es, s, d) && IsOpened(s, v) && ws[0] == Boot(v)
  {
    var trip, s1 := OpensCard(v, d);
    s := s1;
    BootArrives(v, d);
    ws, es := RunFollowsTrip([Boot(v)], [], BootSpot(v), trip, s, d);
  }

  lemma BootArrives(v: Vault, d: nat)
    requires IsBootVault(v)
    ensures ArrivesAt([Boot(v)], [], BootSpot(v), d)
  {
  }

  function DemandMessage(t: Template): seq<byte>
    requires t.WellFormed() && |Print(t)| <= 255
  {
    XfrFrame(0, Encode(Authenticate(t, None)))
  }

  /** A demand of an idle machine opens the wait. */
  lemma DemandRound(s: Spot, t: Template, d: nat) returns (es: seq<Event>, s': Spot)
    requires IsOpen(s) && Declines(s.w.button, s.w.clock) && s.w.card.fsm.mode == Idle
    requires t.WellFormed() && |Print(t)| <= 255
    ensures Trip(s, es, s', d) && IsOpen(s') && s'.w.clock == s.w.clock && s'.w.button == s.w.button
    ensures s'.w.card == s.w.card.(fsm := s.w.card.fsm.RequestAuth(s.w.clock))
    ensures s'.edges == s.edges && s'.msgs == s.msgs + 1
    ensures es != [] && es[0] == Event(s.w.clock, Receive(DemandMessage(t), []))
  {
    var trip, s1, q, _ := CommandRound(s, Authenticate(t, None), d);
    es, s' := trip, s1;
    ChallengeIsSigned(s.w.card, q, t, None);
  }

  /** The machine waits for the button since time 0. */
  predicate IsWaiting(s: Spot, v: Vault) {
    && IsOpen(s) && s.w.clock == 0 && s.w.card.vault == v
    && s.w.card.fsm.mode == WaitingButton && s.w.card.fsm.deadline == A.WAIT_US
  }

  // ---- from the wait to the call ----

  /** An edge at time 0 is confirmed as soon as it has settled. */
  lemma EarlyPress(s: Spot, v: Vault, d: nat) returns (es: seq<Event>, s': Spot)
    requires IsWaiting(s, v) && s.w.button.edgeSeen && s.w.button.edgeTime == 0 && 1 <= d
    ensures Trip(s, es, s', d) && IsOpen(s') && s'.edges == s.edges && s'.msgs == s.msgs && !s'.w.button.edgeSeen
    ensures s'.w.clock == D.DEBOUNCE_US
    ensures s'.w.card == s.w.card.(fsm := Fsm(Authorized, D.DEBOUNCE_US + A.WINDOW_US, false))
  {
    var s1 := s.(w := s.w.(clock := D.DEBOUNCE_US - 1), tick := D.DEBOUNCE_US - 1);
    var es1 := TimePasses(s, D.DEBOUNCE_US - 1, d);
    var es2, s2 := PressRound(s1, D.DEBOUNCE_US, d);
    es, s' := es1 + es2, s2;
    Onward(s, es1, s1, es2, s', d);
  }

  /** An edge that settles just when the wait ends is confirmed `d` after the last tick that finds it open. */
  lemma LatePress(s: Spot, v: Vault, d: nat) returns (es: seq<Event>, s': Spot)
    requires IsWaiting(s, v) && !s.w.button.edgeSeen && 1 <= d
    ensures Trip(s, es, s', d) && IsOpen(s') && s'.msgs == s.msgs && !s'.w.button.edgeSeen
    ensures s'.w.clock == A.WAIT_US - 1 + d
    ensures s'.w.card == s.w.card.(fsm := Fsm(Authorized, A.WAIT_US - 1 + d + A.WINDOW_US, false))
  {
    var es1, s1 := LateEdge(s, v, d);
    var last := A.WAIT_US - 1;
    var s2 := s1.(w := s1.w.(clock := last), tick := last);
    var es2 := TimePasses(s1, last, d);
    Onward(s, es1, s1, es2, s2, d);
    var es3, s3 := PressRound(s2, last + d, d);
    es, s' := es1 + es2 + es3, s3;
    Onward(s, es1 + es2, s2, es3, s', d);
  }

  lemma LateEdge(s: Spot, v: Vault, d: nat) returns (es: seq<Event>, s': Spot)
    requires IsWaiting(s, v) && !s.w.button.edgeSeen && 1 <= d
    ensures Trip(s, es, s', d) && IsOpen(s') && s'.msgs == s.msgs && s'.w.card == s.w.card
    ensures s'.w.button.edgeSeen && s'.w.button.edgeTime == s'.w.clock == A.WAIT_US - D.DEBOUNCE_US
  {
    var at := A.WAIT_US - D.DEBOUNCE_US;
    var s1 := s.(w := s.w.(clock := at), tick := at);
    var es1 := TimePasses(s, at, d);
    var es2, s2 := EdgeComes(s1, d);
    es, s' := es1 + es2, s2;
    Onward(s, es1, s1, es2, s', d);
  }

  /** An authorization lasts to its last microsecond. */
  lemma WindowPasses(s: Spot, d: nat) returns (es: seq<Event>, s': Spot)
    requires IsOpen(s) && s.w.card.fsm.IsAuthorized() && s.w.clock < s.w.card.fsm.deadline
    requires !s.w.button.edgeSeen && 1 <= d
    ensures Trip(s, es, s', d) && IsOpen(s') && s'.edges == s.edges && s'.msgs == s.msgs
    ensures s'.w.card == s.w.card && s'.w.clock == s.w.card.fsm.deadline - 1
  {
    var last := s.w.card.fsm.deadline - 1;
    es := TimePasses(s, last, d);
    s' := s.(w := s.w.(clock := last), tick := last);
  }

  /** A demand, `d` after the latest tick, gets its signature while the machine is authorized. */
  lemma LateDemandSigns(s: Spot, d: nat, t: Template, pk: seq<byte>) returns (e: Event)
    requires IsOpen(s) && s.w.card.fsm.IsAuthorized() && |pk| <= MAX_SIGNATURE
    requires t.WellFormed() && |Print(t)| <= 255
    ensures s.Allows(e, d) && e == Event(s.w.clock + d, Receive(DemandMessage(t), pk))
    ensures s.Next(e).w.card.vault.signed == s.w.card.vault.signed + [t.challenge]
  {
    e := Event(s.w.clock + d, Receive(DemandMessage(t), pk));
    DemandGranted(s.w, e, t);
  }

  lemma DemandGranted(w: World, e: Event, t: Template)
    requires w.WellFormed() && w.Enabled(e) && w.ccid.powered && t.WellFormed() && |Print(t)| <= 255
    requires w.card.piv.selected && w.card.piv.pinVerified && w.card.fsm.IsAuthorized()
    requires e.act.Receive? && e.act.msg == DemandMessage(t)
    ensures w.Step(e).card.vault.signed == w.card.vault.signed + [t.challenge]
  {
    var q, o := CommandExecuted(w, e, w.Step(e), 0, Authenticate(t, None));
    ChallengeIsSigned(w.card, q, t, None);
    CardEdge.GateAnswers(w.card, t.challenge, q);
  }

  /** The signer has been called for that challenge alone. */
  predicate HasSigned(w: World, challenge: seq<byte>) {
    w.card.vault.signed == [challenge]
  }

  lemma DemandArrives(ws: seq<World>, es: seq<Event>, s: Spot, d: nat, t: Template, pk: seq<byte>)
    returns (ws': seq<World>, es': seq<Event>, k: nat)
    requires ArrivesAt(ws, es, s, d) && IsOpen(s) && s.w.card.fsm.IsAuthorized() && |pk| <= MAX_SIGNATURE
    requires t.WellFormed() && |Print(t)| <= 255 && s.w.card.vault.signed == []
    ensures Extends(ws, es, ws', es') && Lives(ws', es') && TicksWithin(es', d) && k == |es| == |es'| - 1
    ensures ws'[k] == s.w && es'[k] == Event(s.w.clock + d, Receive(DemandMessage(t), pk))
    ensures CallsSigner(ws', k) && HasSigned(ws'[k + 1], t.challenge)
  {
    k := |es|;
    var e := LateDemandSigns(s, d, t, pk);
    ws', es' := ArrivesNext(ws, es, s, e, d);
    assert [] + [t.challenge] == [t.challenge];
  }

  lemma NoEdgeFollows(es: seq<Event>, trip: seq<Event>, es': seq<Event>)
    requires |es'| == |es| + |trip| + 1 && es'[..|es| + |trip|] == es + trip && es'[|es| + |trip|].act.Receive?
    requires forall m :: 0 <= m < |trip| ==> !trip[m].act.Edge?
    ensures forall m :: |es| <= m < |es'| ==> !es'[m].act.Edge?
  {
    forall m | |es| <= m < |es'|
      ensures !es'[m].act.Edge?
    {
      assert m < |es| + |trip| ==> es'[m] == (es + trip)[m] == trip[m - |es|];
    }
  }

  lemma DemandAndEarlyPress(s: Spot, v: Vault, t: Template, d: nat) returns (es: seq<Event>, s': Spot)
    requires IsOpened(s, v) && t.WellFormed() && |Print(t)| <= 255 && 1 <= d
    ensures Trip(s, es, s', d) && IsOpen(s') && s'.msgs == s.msgs + 1 && !s'.w.button.edgeSeen
    ensures s'.w.clock == D.DEBOUNCE_US
    ensures s'.w.card == s.w.card.(fsm := Fsm(Authorized, D.DEBOUNCE_US + A.WINDOW_US, false))
    ensures es != [] && es[0] == Event(0, Receive(DemandMessage(t), []))
  {
    var es1, s1 := DemandRound(s, t, d);
    var es2, s2 := EdgeComes(s1, d);
    Onward(s, es1, s1, es2, s2, d);
    var es3, s3 := EarlyPress(s2, v, d);
    es, s' := es1 + es2 + es3, s3;
    Onward(s, es1 + es2, s2, es3, s', d);
  }

  lemma DemandAndLatePress(s: Spot, v: Vault, t: Template, d: nat) returns (es: seq<Event>, s': Spot)
    requires IsOpened(s, v) && t.WellFormed() && |Print(t)| <= 255 && 1 <= d
    ensures Trip(s, es, s', d) && IsOpen(s') && s'.msgs == s.msgs + 1 && !s'.w.button.edgeSeen
    ensures s'.w.clock == A.WAIT_US - 1 + d
    ensures s'.w.card == s.w.card.(fsm := Fsm(Authorized, A.WAIT_US - 1 + d + A.WINDOW_US, false))
    ensures es != [] && es[0] == Event(0, Receive(DemandMessage(t), []))
  {
    var es1, s1 := DemandRound(s, t, d);
    var es2, s2 := LatePress(s1, v, d);
    es, s' := es1 + es2, s2;
    Onward(s, es1, s1, es2, s', d);
  }

  /** From an authorized state to a call `d - 1` after its deadline. */
  lemma SignsAtLast(ws: seq<World>, es: seq<Event>, s: Spot, d: nat, t: Template, pk: seq<byte>)
    returns (ws': seq<World>, es': seq<Event>, k: nat)
    requires ArrivesAt(ws, es, s, d) && IsOpen(s) && s.w.card.fsm.IsAuthorized() && s.w.clock < s.w.card.fsm.deadline
    requires !s.w.button.edgeSeen && s.w.card.vault.signed == [] && 1 <= d
    requires t.WellFormed() && |Print(t)| <= 255 && |pk| <= MAX_SIGNATURE
    ensures Extends(ws, es, ws', es') && Lives(ws', es') && TicksWithin(es', d)
    ensures |es| <= k == |es'| - 1 && CallsSigner(ws', k) && HasSigned(ws'[k + 1], t.challenge)
    ensures es'[k].at == s.w.card.fsm.deadline + d - 1 && ws'[k].card.fsm.deadline == s.w.card.fsm.deadline
    ensures forall m :: |es| <= m < |es'| ==> !es'[m].act.Edge?
  {
    var trip, s1 := WindowPasses(s, d);
    NoEdgeOnTrip(s, trip, s1, d);
    var ws1, es1 := RunFollowsTrip(ws, es, s, trip, s1, d);
    ws', es', k := DemandArrives(ws1, es1, s1, d, t, pk);
    ExtendsOn(ws, es, ws1, es1, ws', es');
    NoEdgeFollows(es, trip, es');
  }

  // ---- which demand and which press are behind the call ----

  /** Of `trip` only the first event is a message. */
  lemma OneMessageOnTrip(s: Spot, trip: seq<Event>, s': Spot, d: nat)
    requires Trip(s, trip, s', d) && s'.msgs == s.msgs + 1 && trip != [] && trip[0].act.Receive?
    ensures forall m :: 0 < m < |trip| ==> !trip[m].act.Receive?
  {
    var ss :| IsTrip(ss, trip, d) && ss[0] == s && ss[|trip|] == s';
    assert Moves(ss, trip, d, 0);
    OutsideCounted(ss, trip, d, 1, |trip|);
  }

  /** Without an edge since state `n`, where none was latched, the press is older than that state. */
  lemma PressIsOlder(ws: seq<World>, es: seq<Event>, k: nat, n: nat)
    requires IsRun(ws, es) && n <= k < |es| && CallsSigner(ws, k)
    requires ws[n].button.poller.Outside? && !ws[n].button.edgeSeen
    requires forall m :: n <= m < k ==> !es[m].act.Edge?
    ensures 0 <= PressBehind(ws, es, k) < n
  {
    SignerCallHasItsPress(ws, es, k);
    ProjectsToButtonRun(ws, es);
    D.NoEdgeNoSample(Buttons(ws), es, n, PressBehind(ws, es, k));
  }

  /** If the machine is idle at event `o` and no message follows it before state `n`, then `o` is the demand. */
  lemma DemandIsThat(ws: seq<World>, es: seq<Event>, k: nat, o: nat, n: nat)
    requires IsRun(ws, es) && o < n <= k < |es| && CallsSigner(ws, k) && ws[o].card.fsm.mode == Idle
    requires forall m :: o < m < n ==> !es[m].act.Receive?
    requires 0 <= PressBehind(ws, es, k) < n
    ensures DemandBehind(ws, es, k) == o
  {
    SignerCallHasItsPress(ws, es, k);
    var o' := DemandBehind(ws, es, k);
    DemandOutsidePoll(ws[o'], es[o']);
  }

  /** A run that follows `trip`, whose first event is its only message, and then has no edge any more. */
  lemma BehindCall(ws0: seq<World>, es0: seq<Event>, trip: seq<Event>, ws: seq<World>, es: seq<Event>, k: nat)
    requires IsRun(ws0, es0) && ws0[|es0|].card.fsm.mode == Idle && trip != []
    requires forall m :: 0 < m < |trip| ==> !trip[m].act.Receive?
    requires Extends(ws0, es0, ws, es) && IsRun(ws, es) && |es0 + trip| <= |es| && es[..|es0 + trip|] == es0 + trip
    requires |es0 + trip| <= k < |es| && CallsSigner(ws, k)
    requires var b := ws[|es0 + trip|].button; b.poller.Outside? && !b.edgeSeen
    requires forall m :: |es0 + trip| <= m < k ==> !es[m].act.Edge?
    ensures DemandBehind(ws, es, k) == |es0| < PressBehind(ws, es, k) < |es0 + trip|
  {
    var o, n := |es0|, |es0 + trip|;
    PressIsOlder(ws, es, k, n);
    assert ws[o] == ws0[o];
    forall m | o < m < n
      ensures !es[m].act.Receive?
    {
      assert es[m] == (es0 + trip)[m] == trip[m - o];
    }
    DemandIsThat(ws, es, k, o, n);
    SignerCallHasItsPress(ws, es, k);
  }

  // ---- the theorems ----

  /**
   From every boot, for every challenge, every answer of the signer and every tick gap `d`: a run with a lock-step host
   in which the signer is called ten seconds and `d - 1` microseconds after the press, so that no smaller bound holds.
   From `d` = 2 on the call is later than the ten seconds the documentation speaks of.
   */
  lemma SignatureCanBeLate(v: Vault, d: nat, t: Template, pk: seq<byte>)
    returns (ws: seq<World>, es: seq<Event>, k: nat)
    requires IsBootVault(v) && 1 <= d && t.WellFormed() && |Print(t)| <= 255 && |pk| <= MAX_SIGNATURE
    ensures Lives(ws, es) && ws[0] == Boot(v) && TicksWithin(es, d)
    ensures k < |es| && CallsSigner(ws, k) && HasSigned(ws[k + 1], t.challenge)
    ensures 0 <= PressBehind(ws, es, k) < k
    ensures es[k].at == es[PressBehind(ws, es, k)].at + A.WINDOW_US + d - 1
  {
    var ws0, es0, s := OpenFromBoot(v, d);
    var trip, s1 := DemandAndEarlyPress(s, v, t, d);
    var ws1, es1 := RunFollowsTrip(ws0, es0, s, trip, s1, d);
    ws, es, k := SignsAtLast(ws1, es1, s1, d, t, pk);
    assert ws[0] == ws1[0] == ws0[0];
    WindowHoldsIff(ws, es, k);
  }

  /** A host that is owed nothing can go on from there. */
  lemma ArrivedRests(ws: seq<World>, es: seq<Event>, s: Spot, d: nat)
    requires ArrivesAt(ws, es, s, d) && AtRest(s)
    ensures Rests(ws, es)
  {
  }

  /**
   A signature reaches the host: from every boot with a store that is up, for every 32-octet challenge and every answer
   of the signer, a run with a lock-step host that gets exactly that answer.
   */
  lemma SignatureReachesHost(v: Vault, t: Template, pk: seq<byte>)
    returns (ws: seq<World>, es: seq<Event>, x: Transfer)
    requires IsBootVault(v) && v.initialized && t.WellFormed() && |Print(t)| <= 255 && |t.challenge| == 32
    requires 1 <= |pk| <= MAX_SIGNATURE
    ensures Lives(ws, es) && ws[0] == Boot(v) && IsTransfer(ws, es, x, Authenticate(t, None))
    ensures ReadSignature(ReplyGot(ws, x)) == Some(pk) && HasSigned(ws[x.sent + 1], t.challenge)
  {
    var ws0, es0, s := OpenFromBoot(v, 1);
    var trip, s1 := DemandAndEarlyPress(s, v, t, 1);
    var ws1, es1 := RunFollowsTrip(ws0, es0, s, trip, s1, 1);
    ArrivedRests(ws1, es1, s1, 1);
    ws, es, x := CommandCanBeSent(ws1, es1, Authenticate(t, None), 0, pk);
    assert ws[0] == ws1[0] == ws0[0] && ws[x.sent] == ws1[|es1|] == s1.w;
    TransferIsSigned(ws, es, x, t, pk);
  }

  lemma TransferIsSigned(ws: seq<World>, es: seq<Event>, x: Transfer, t: Template, pk: seq<byte>)
    requires t.WellFormed() && Lives(ws, es) && IsTransfer(ws, es, x, Authenticate(t, None))
    requires ws[x.sent].ccid.powered && ws[x.sent].card.piv.selected && ws[x.sent].card.piv.pinVerified
    requires ws[x.sent].card.fsm.IsAuthorized() && ws[x.sent].card.vault.signed == []
    requires ws[x.sent].card.vault.initialized && |t.challenge| == 32 && es[x.sent].act.pk == pk != []
    ensures ReadSignature(ReplyGot(ws, x)) == Some(pk) && HasSigned(ws[x.sent + 1], t.challenge)
  {
    SignatureIsDelivered(ws, es, x, t, None);
    assert [] + [t.challenge] == [t.challenge];
  }

  /** The stay outside IDLE begins with the demand and lasts to the call. */
  lemma StayOfCall(ws: seq<World>, es: seq<Event>, k: nat)
    requires IsRun(ws, es) && k < |es| && CallsSigner(ws, k)
    ensures var o := DemandBehind(ws, es, k);
            0 <= o < k && ws[o + 1].clock == es[o].at && forall m :: o < m <= k ==> ws[m].card.fsm.mode != Idle
  {
    SignerCallHasItsPress(ws, es, k);
    assert Steps(ws, es, DemandBehind(ws, es, k));
  }

  /**
   And the stay outside IDLE can be as long as the bound of `StayOutsideIdleIsBounded` allows: from every boot, a run
   in which a signature comes 40 s and `2 * d - 2` microseconds after its demand.
   */
  lemma StayCanBeLong(v: Vault, d: nat, t: Template, pk: seq<byte>)
    returns (ws: seq<World>, es: seq<Event>, k: nat)
    requires IsBootVault(v) && 1 <= d && t.WellFormed() && |Print(t)| <= 255 && |pk| <= MAX_SIGNATURE
    ensures Lives(ws, es) && ws[0] == Boot(v) && TicksWithin(es, d) && k < |es| && CallsSigner(ws, k)
    ensures var o := DemandBehind(ws, es, k);
            && 0 <= o < k && (forall m :: o < m <= k ==> ws[m].card.fsm.mode != Idle)
            && es[k].at + 2 == ws[o + 1].clock + A.WAIT_US + A.WINDOW_US + 2 * d
  {
    var ws0, es0, s := OpenFromBoot(v, d);
    var trip, s1 := DemandAndLatePress(s, v, t, d);
    OneMessageOnTrip(s, trip, s1, d);
    var ws1, es1 := RunFollowsTrip(ws0, es0, s, trip, s1, d);
    ws, es, k := SignsAtLast(ws1, es1, s1, d, t, pk);
    ExtendsOn(ws0, es0, ws1, es1, ws, es);
    assert ws[0] == ws0[0] && ws[|es1|] == ws1[|es1|];
    BehindCall(ws0, es0, trip, ws, es, k);
    StayOfCall(ws, es, k);
    assert es[|es0|] == es1[|es0|] == trip[0];
  }

  /** From boot to a press whose edge was latched before its demand, in state `n`. */
  lemma EdgeThenDemand(v: Vault, t: Template) returns (ws: seq<World>, es: seq<Event>, s: Spot, n: nat)
    requires IsBootVault(v) && t.WellFormed() && |Print(t)| <= 255
    ensures ArrivesAt(ws, es, s, 1) && IsOpen(s) && s.w.card.fsm.IsAuthorized() && s.w.clock < s.w.card.fsm.deadline
    ensures !s.w.button.edgeSeen && s.w.card.vault == v && ws[0] == Boot(v)
    ensures n <= |es| && ws[n].card.fsm.mode == Idle && forall m :: n <= m < |es| ==> !es[m].act.Edge?
  {
    var ws0, es0, s0 := OpenFromBoot(v, 1);
    var trip1, s1 := EdgeComes(s0, 1);
    var ws1, es1 := RunFollowsTrip(ws0, es0, s0, trip1, s1, 1);
    n := |es1|;
    var trip2, s2 := DemandRound(s1, t, 1);
    var trip3, s3 := EarlyPress(s2, v, 1);
    Onward(s1, trip2, s2, trip3, s3, 1);
    NoEdgeOnTrip(s1, trip2 + trip3, s3, 1);
    ws, es := RunFollowsTrip(ws1, es1, s1, trip2 + trip3, s3, 1);
    s := s3;
    assert ws[n] == ws1[n] && ws[0] == ws1[0] == ws0[0];
  }

  lemma EdgesStayAway(es: seq<Event>, es': seq<Event>, n: nat)
    requires n <= |es| <= |es'| && es'[..|es|] == es
    requires forall m :: n <= m < |es| ==> !es[m].act.Edge?
    requires forall m :: |es| <= m < |es'| ==> !es'[m].act.Edge?
    ensures forall m :: n <= m < |es'| ==> !es'[m].act.Edge?
  {
    forall m | n <= m < |es'|
      ensures !es'[m].act.Edge?
    {
      assert m < |es| ==> es'[m] == es[m];
    }
  }

  /** After state `n`, where the machine is idle, there is no edge any more. */
  lemma EdgeBeforeDemand(ws: seq<World>, es: seq<Event>, k: nat, n: nat)
    requires IsRun(ws, es) && n <= k < |es| && CallsSigner(ws, k) && ws[n].card.fsm.mode == Idle
    requires forall m :: n <= m < |es| ==> !es[m].act.Edge?
    ensures 0 <= PressBehind(ws, es, k) && 0 <= EdgeBehind(ws, es, k) < n <= DemandBehind(ws, es, k)
  {
    SignerCallHasItsPress(ws, es, k);
    SignerCallHasItsEdge(ws, es, k);
  }

  /** And a run in which the edge behind the call is older than the demand that the press grants. */
  lemma EdgeCanPrecedeDemand(v: Vault, t: Template) returns (ws: seq<World>, es: seq<Event>, k: nat)
    requires IsBootVault(v) && t.WellFormed() && |Print(t)| <= 255
    ensures Lives(ws, es) && ws[0] == Boot(v) && k < |es| && CallsSigner(ws, k)
    ensures 0 <= PressBehind(ws, es, k) && 0 <= EdgeBehind(ws, es, k) < DemandBehind(ws, es, k)
  {
    var ws0, es0, s, n := EdgeThenDemand(v, t);
    ws, es, k := SignsAtLast(ws0, es0, s, 1, t, []);
    EdgesStayAway(es0, es, n);
    assert ws[0] == ws0[0] && ws[n] == ws0[n];
    EdgeBeforeDemand(ws, es, k, n);
  }

  // ---- the demand that the press answers need not be the one that is signed ----

  /** The command of event `o` demands a signature over `challenge`. */
  ghost predicate DemandsFor(ws: seq<World>, es: seq<Event>, o: nat, challenge: seq<byte>)
    requires o < |es| && |ws| == |es| + 1
  {
    && Steps(ws, es, o) && ApduOf(ws[o], es[o]).Some?
    && DemandOf(ws[o].card, ApduOf(ws[o], es[o]).value) == Some(challenge)
  }

  lemma MessageDemandsFor(ws: seq<World>, es: seq<Event>, o: nat, t: Template, pk: seq<byte>)
    requires IsRun(ws, es) && o < |es| && ws[o].ccid.powered
    requires ws[o].card.piv.selected && ws[o].card.piv.pinVerified
    requires t.WellFormed() && |Print(t)| <= 255
    requires es[o].act == Receive(DemandMessage(t), pk)
    ensures DemandsFor(ws, es, o, t.challenge)
  {
    assert Steps(ws, es, o);
    FrameCarries(ws[o], es[o], 0, Authenticate(t, None));
    ChallengeIsSigned(ws[o].card, ApduOf(ws[o], es[o]).value, t, None);
  }

  /** Off, on, SELECT, VERIFY; an authorization survives. Event `on` of it switches on again. */
  lemma PowerCycle(s: Spot, d: nat) returns (es: seq<Event>, s': Spot, on: nat)
    requires IsOpen(s) && !s.w.button.edgeSeen && Outlives(s.w.card.fsm, s.w.clock)
    ensures Trip(s, es, s', d) && IsOpen(s') && s'.w.clock == s.w.clock && s'.w.button == s.w.button
    ensures s'.edges == s.edges && s'.w.card.fsm == s.w.card.fsm && s'.w.card.vault == s.w.card.vault
    ensures 0 < on < |es| && es[0] == Event(s.w.clock, Receive(PowerMessage(false), []))
    ensures es[on] == Event(s.w.clock, Receive(PowerMessage(true), []))
  {
    var es1, s1 := PowerRound(s, false, d);
    var es2, s2 := PowerRound(s1, true, d);
    var es3, s3 := Opens(s2, d);
    on := |es1|;
    es, s' := es1 + es2 + es3, s3;
    Onward(s, es1, s1, es2, s2, d);
    Onward(s, es1 + es2, s2, es3, s', d);
    assert es[on] == es2[0];
  }

  lemma PowerActs(ws: seq<World>, es: seq<Event>, m: nat, on: bool)
    requires IsRun(ws, es) && m < |es| && es[m].act == Receive(PowerMessage(on), [])
    ensures S.Acts(ws, es)[m] == if on then S.PowerOn else S.PowerOff
  {
    assert Steps(ws, es, m);
  }

  /** A run of three pieces - up to event `|es0|`, one demand and its press, a power cycle - and a call. */
  ghost predicate IsCycle(ws0: seq<World>, es0: seq<Event>, trip: seq<Event>, cycle: seq<Event>, on: nat,
                          ws: seq<World>, es: seq<Event>)
  {
    && IsRun(ws0, es0) && ws0[|es0|].card.fsm.mode == Idle && ws0[|es0|].ccid.powered
    && ws0[|es0|].card.piv.selected && ws0[|es0|].card.piv.pinVerified
    && trip != [] && (forall m :: 0 < m < |trip| ==> !trip[m].act.Receive?)
    && 0 < on < |cycle| && (forall m :: 0 <= m < |cycle| ==> !cycle[m].act.Edge?)
    && cycle[0].act == Receive(PowerMessage(false), []) && cycle[on].act == Receive(PowerMessage(true), [])
    && IsRun(ws, es) && Extends(ws0, es0, ws, es)
    && |es0 + trip + cycle| <= |es| && es[..|es0 + trip + cycle|] == es0 + trip + cycle
    && var b := ws[|es0 + trip|].button; b.poller.Outside? && !b.edgeSeen
  }

  /** From boot: a demand, its press and the power cycle. */
  lemma PressThenPowerCycle(v: Vault, d: nat, t: Template)
    returns (ws0: seq<World>, es0: seq<Event>, trip: seq<Event>, cycle: seq<Event>, on: nat,
             ws: seq<World>, es: seq<Event>, s: Spot)
    requires IsBootVault(v) && 1 <= d && t.WellFormed() && |Print(t)| <= 255
    ensures IsCycle(ws0, es0, trip, cycle, on, ws, es) && ArrivesAt(ws, es, s, d) && |es| == |es0 + trip + cycle|
    ensures trip[0].act == Receive(DemandMessage(t), []) && ws[0] == Boot(v)
    ensures IsOpen(s) && s.w.card.fsm.IsAuthorized() && s.w.card.vault.signed == []
  {
    var s0;
    ws0, es0, s0 := OpenFromBoot(v, d);
    var s1;
    trip, s1 := DemandAndEarlyPress(s0, v, t, d);
    OneMessageOnTrip(s0, trip, s1, d);
    var ws1, es1 := RunFollowsTrip(ws0, es0, s0, trip, s1, d);
    cycle, s, on := PowerCycle(s1, d);
    NoEdgeOnTrip(s1, cycle, s, d);
    ws, es := RunFollowsTrip(ws1, es1, s1, cycle, s, d);
    ExtendsOn(ws0, es0, ws1, es1, ws, es);
    assert ws[|es1|] == ws1[|es1|] && ws[0] == ws1[0] == ws0[0];
  }

  lemma CycleGoesOn(ws0: seq<World>, es0: seq<Event>, trip: seq<Event>, cycle: seq<Event>, on: nat,
                    ws: seq<World>, es: seq<Event>, ws': seq<World>, es': seq<Event>)
    requires IsCycle(ws0, es0, trip, cycle, on, ws, es) && Extends(ws, es, ws', es') && IsRun(ws', es')
    ensures IsCycle(ws0, es0, trip, cycle, on, ws', es')
  {
    ExtendsOn(ws0, es0, ws, es, ws', es');
    assert es'[..|es0 + trip + cycle|] == es'[..|es|][..|es0 + trip + cycle|];
    assert ws'[|es0 + trip|] == ws[|es0 + trip|];
  }

  /** Demand, press, power cycle, and the signature over another challenge. */
  lemma PressThenOtherDemand(v: Vault, d: nat, t1: Template, t2: Template, pk: seq<byte>)
    returns (ws0: seq<World>, es0: seq<Event>, trip: seq<Event>, cycle: seq<Event>, i: nat,
             ws: seq<World>, es: seq<Event>, k: nat)
    requires IsBootVault(v) && 1 <= d && t1.WellFormed() && |Print(t1)| <= 255
    requires t2.WellFormed() && |Print(t2)| <= 255 && |pk| <= MAX_SIGNATURE
    ensures IsCycle(ws0, es0, trip, cycle, i, ws, es) && trip[0].act == Receive(DemandMessage(t1), [])
    ensures Lives(ws, es) && ws[0] == Boot(v) && TicksWithin(es, d)
    ensures |es0 + trip + cycle| == k < |es| && CallsSigner(ws, k)
    ensures HasSigned(ws[k + 1], t2.challenge)
  {
    var ws1, es1, s;
    ws0, es0, trip, cycle, i, ws1, es1, s := PressThenPowerCycle(v, d, t1);
    ws, es, k := DemandArrives(ws1, es1, s, d, t2, pk);
    CycleGoesOn(ws0, es0, trip, cycle, i, ws1, es1, ws, es);
  }

  lemma EventOfPart(a: seq<Event>, b: seq<Event>, es: seq<Event>, m: nat)
    requires |a + b| <= |es| && es[..|a + b|] == a + b && m < |b|
    ensures |a| + m < |a + b| && es[|a| + m] == b[m] && es[..|a|] == a
  {
    assert es[|a| + m] == es[..|a + b|][|a| + m];
    assert es[..|a|] == es[..|a + b|][..|a|];
  }

  lemma NoEdgeInPart(a: seq<Event>, b: seq<Event>, es: seq<Event>)
    requires |a + b| <= |es| && es[..|a + b|] == a + b
    requires forall m :: 0 <= m < |b| ==> !b[m].act.Edge?
    ensures forall m :: |a| <= m < |a + b| ==> !es[m].act.Edge?
  {
    forall m | |a| <= m < |a + b|
      ensures !es[m].act.Edge?
    {
      EventOfPart(a, b, es, m - |a|);
    }
  }

  lemma CyclePowers(ws: seq<World>, es: seq<Event>, before: seq<Event>, cycle: seq<Event>, i: nat)
    returns (off: nat, on: nat)
    requires IsRun(ws, es) && |before + cycle| <= |es| && es[..|before + cycle|] == before + cycle && 0 < i < |cycle|
    requires cycle[0].act == Receive(PowerMessage(false), []) && cycle[i].act == Receive(PowerMessage(true), [])
    ensures |before| == off < on < |before + cycle| && es[..|before|] == before
    ensures S.Acts(ws, es)[off] == S.PowerOff && S.Acts(ws, es)[on] == S.PowerOn
  {
    off, on := |before|, |before| + i;
    EventOfPart(before, cycle, es, 0);
    EventOfPart(before, cycle, es, i);
    PowerActs(ws, es, off, false);
    PowerActs(ws, es, on, true);
  }

  lemma FirstDemand(ws0: seq<World>, es0: seq<Event>, ws: seq<World>, es: seq<Event>, t: Template)
    requires IsRun(ws, es) && |ws0| == |es0| + 1 && Extends(ws0, es0, ws, es) && |es0| < |es|
    requires ws0[|es0|].ccid.powered && ws0[|es0|].card.piv.selected && ws0[|es0|].card.piv.pinVerified
    requires t.WellFormed() && |Print(t)| <= 255 && es[|es0|].act == Receive(DemandMessage(t), [])
    ensures DemandsFor(ws, es, |es0|, t.challenge)
  {
    assert ws[|es0|] == ws0[|es0|];
    MessageDemandsFor(ws, es, |es0|, t, []);
  }

  lemma CallAfterCycle(ws0: seq<World>, es0: seq<Event>, trip: seq<Event>, cycle: seq<Event>, i: nat,
                       ws: seq<World>, es: seq<Event>, k: nat, t: Template)
    returns (off: nat, on: nat)
    requires IsCycle(ws0, es0, trip, cycle, i, ws, es) && |es0 + trip + cycle| == k < |es| && CallsSigner(ws, k)
    requires t.WellFormed() && |Print(t)| <= 255 && trip[0].act == Receive(DemandMessage(t), [])
    ensures 0 <= DemandBehind(ws, es, k) < PressBehind(ws, es, k) < off < on < k
    ensures DemandsFor(ws, es, DemandBehind(ws, es, k), t.challenge)
    ensures S.Acts(ws, es)[off] == S.PowerOff && S.Acts(ws, es)[on] == S.PowerOn
  {
    off, on := CyclePowers(ws, es, es0 + trip, cycle, i);
    NoEdgeInPart(es0 + trip, cycle, es);
    EventOfPart(es0, trip, es, 0);
    BehindCall(ws0, es0, trip, ws, es, k);
    FirstDemand(ws0, es0, ws, es, t);
  }

  /**
   The gate binds neither challenge nor card session: from every boot and for any two challenges, a run in which the
   press answers a demand for the first, the slot is switched off and on and the PIN presented anew, and then the
   second is signed with that press.
   */
  lemma PressCanServeOtherSession(v: Vault, d: nat, t1: Template, t2: Template, pk: seq<byte>)
    returns (ws: seq<World>, es: seq<Event>, off: nat, on: nat, k: nat)
    requires IsBootVault(v) && 1 <= d && t1.WellFormed() && |Print(t1)| <= 255
    requires t2.WellFormed() && |Print(t2)| <= 255 && |pk| <= MAX_SIGNATURE
    ensures Lives(ws, es) && ws[0] == Boot(v) && TicksWithin(es, d)
    ensures k < |es| && CallsSigner(ws, k) && HasSigned(ws[k + 1], t2.challenge)
    ensures 0 <= DemandBehind(ws, es, k) < PressBehind(ws, es, k) < off < on < k
    ensures DemandsFor(ws, es, DemandBehind(ws, es, k), t1.challenge)
    ensures S.Acts(ws, es)[off] == S.PowerOff && S.Acts(ws, es)[on] == S.PowerOn
  {
    var ws0, es0, trip, cycle, i;
    ws0, es0, trip, cycle, i, ws, es, k := PressThenOtherDemand(v, d, t1, t2, pk);
    off, on := CallAfterCycle(ws0, es0, trip, cycle, i, ws, es, k, t1);
  }
}
