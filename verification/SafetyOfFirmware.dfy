/** The button and authorization guarantees, carried over to every run of the whole firmware. */
module SafetyOfFirmware {
  import opened Bytes
  import opened Events
  import opened Apdu
  import opened DeviceState
  import opened PivModel
  import opened CcidModel
  import opened Machine
  import A = Authorization
  import C = Credit
  import Button
  import D = Debounce

  // ---- what a command asks of the authorization machine ----

  /** The APDU that a message makes the dispatcher execute. */
  function ApduOf(w: World, e: Event): (q: Option<Request>)
    requires w.WellFormed() && w.Enabled(e)
    ensures q.Some? ==> q.value.Legal()
  {
    match e.act
    case Receive(msg, pk) =>
      var rx := Splice(w.rx, 0, msg);
      if |msg| >= HEADER_LEN && rx[0] == 0x6F && w.ccid.powered
         && XfrLengthAccepted(DwLength(rx), |msg|)
      then Some(XfrRequest(rx, e.at, pk))
      else None
    case _ => None
  }

  /** The challenge of a GENERAL AUTHENTICATE that passes every check before the authorization gate. */
  function DemandOf(card: Card, q: Request): Option<seq<byte>>
    requires q.Legal()
  {
    match Parse(q.mem, q.rawLen)
    case None => None
    case Some(c) =>
      if [c.cla, c.ins, c.p1, c.p2] == [0x00, 0x87, 0x11, 0x9A] && card.piv.selected && card.piv.pinVerified
      then Challenge(Data(c, q.mem))
      else None
  }

  /** A demand is made only by a command that a verified PIN and the selected applet let through. */
  lemma DemandNeedsPin(card: Card, q: Request)
    requires q.Legal() && DemandOf(card, q).Some?
    ensures card.piv.selected && card.piv.pinVerified && 1 <= |DemandOf(card, q).value| <= 64
  {
  }

  predicate IsDemand(w: World, e: Event)
    requires w.WellFormed() && w.Enabled(e)
  {
    ApduOf(w, e).Some? && DemandOf(w.card, ApduOf(w, e).value).Some?
  }

  function StimulusOf(w: World, e: Event): A.Stimulus
    requires w.WellFormed() && w.Enabled(e)
  {
    match e.act
    case Receive(_, _) => if IsDemand(w, e) then A.Demand else A.Nothing
    case PollPin(level) => if level == 0 then A.Press else A.Nothing
    case Tick => A.TickPoll
    case Unmount => A.Reset
    case _ => A.Nothing
  }

  /** The only way a command reaches the machine and the signer. */
  lemma CommandDemands(card: Card, q: Request)
    requires card.WellFormed() && q.Legal()
    ensures var card' := ProcessApdu(card, q).card;
            var demand := DemandOf(card, q);
            && card'.fsm == A.React(card.fsm, A.Timed(q.now, if demand.Some? then A.Demand else A.Nothing))
            && card'.vault == (if demand.Some? && card.fsm.IsAuthorized()
                               then card.vault.(signed := card.vault.signed + [demand.value])
                               else card.vault)
  {
  }

  /** A message reaches the machine and the signer only as the command it carries. */
  lemma MessageDemands(w: World, e: Event)
    requires w.WellFormed() && w.Enabled(e) && e.act.Receive?
    ensures var card' := w.Step(e).card;
            match ApduOf(w, e)
            case None => card'.fsm == w.card.fsm && card'.vault == w.card.vault
            case Some(q) => card' == ProcessApdu(w.card, q).card
  {
  }

  /** Every step moves the machine as its stimulus says, and calls the signer for a demand while authorized. */
  lemma StepStimulates(w: World, e: Event)
    requires w.WellFormed() && w.Enabled(e)
    ensures var w' := w.Step(e);
            && w'.card.fsm == A.React(w.card.fsm, A.Timed(e.at, StimulusOf(w, e)))
            && (if IsDemand(w, e) && w.card.fsm.IsAuthorized()
                then w'.card.vault.signed
                     == w.card.vault.signed + [DemandOf(w.card, ApduOf(w, e).value).value]
                else w'.card.vault == w.card.vault)
  {
    if e.act.Receive? {
      ReceiveStimulates(w, e);
    }
  }

  lemma ReceiveStimulates(w: World, e: Event)
    requires w.WellFormed() && w.Enabled(e) && e.act.Receive?
    ensures var card, card', q := w.card, w.Step(e).card, ApduOf(w, e);
            var demand := if q.Some? then DemandOf(card, q.value) else None;
            && card'.fsm == A.React(card.fsm, A.Timed(e.at, if demand.Some? then A.Demand else A.Nothing))
            && card'.vault == (if demand.Some? && card.fsm.IsAuthorized()
                               then card.vault.(signed := card.vault.signed + [demand.value])
                               else card.vault)
  {
    var card' := w.Step(e).card;
    MessageDemands(w, e);
    match ApduOf(w, e)
    case None =>
    case Some(q) => CommandDemands(w.card, q);
  }

  lemma StepMovesButton(w: World, e: Event)
    requires w.WellFormed() && w.Enabled(e)
    ensures w.button.Enabled(e.act) && w.Step(e).button == w.button.Step(e)
  {
  }

  // ---- projections of a run ----

  ghost function Stimuli(ws: seq<World>, es: seq<Event>): (ts: seq<A.Timed>)
    requires IsRun(ws, es)
    ensures |ts| == |es|
  {
    seq(|es|, k requires 0 <= k < |es| =>
      assert Steps(ws, es, k); A.Timed(es[k].at, StimulusOf(ws[k], es[k])))
  }

  function Fsms(ws: seq<World>): (fs: seq<Fsm>)
    ensures |fs| == |ws| && forall k :: 0 <= k < |ws| ==> fs[k] == ws[k].card.fsm
  {
    seq(|ws|, k requires 0 <= k < |ws| => ws[k].card.fsm)
  }

  function Buttons(ws: seq<World>): (bs: seq<Button.State>)
    ensures |bs| == |ws| && forall k :: 0 <= k < |ws| ==> bs[k] == ws[k].button
  {
    seq(|ws|, k requires 0 <= k < |ws| => ws[k].button)
  }

  lemma ProjectsToFsmRun(ws: seq<World>, es: seq<Event>)
    requires IsRun(ws, es)
    ensures A.IsFsmRun(Fsms(ws), Stimuli(ws, es))
  {
    var fs, ts := Fsms(ws), Stimuli(ws, es);
    forall i, j | 0 <= i < j < |ts|
      ensures ts[i].at <= ts[j].at
    {
      ClockIsMonotone(ws, es, i, j);
    }
    forall k | 0 <= k < |ts|
      ensures A.Reacts(fs, ts, k)
    {
      assert Steps(ws, es, k);
      StepStimulates(ws[k], es[k]);
    }
  }

  lemma ProjectsToButtonRun(ws: seq<World>, es: seq<Event>)
    requires IsRun(ws, es)
    ensures D.IsButtonRun(Buttons(ws), es)
  {
    var bs := Buttons(ws);
    forall i, j | 0 <= i < j < |es|
      ensures es[i].at <= es[j].at
    {
      ClockIsMonotone(ws, es, i, j);
    }
    forall k | 0 <= k < |es|
      ensures bs[k].Enabled(es[k].act) && bs[k + 1] == bs[k].Step(es[k])
    {
      assert Steps(ws, es, k);
      StepMovesButton(ws[k], es[k]);
    }
  }

  // ---- one press per signature ----

  /** Event `k` passes a challenge to `crypto_sign`. */
  predicate CallsSigner(ws: seq<World>, k: nat)
    requires k + 1 < |ws|
  {
    ws[k + 1].card.vault.signed != ws[k].card.vault.signed
  }

  lemma CallsSignerIff(ws: seq<World>, es: seq<Event>, k: nat)
    requires IsRun(ws, es) && k < |es|
    ensures CallsSigner(ws, k) <==> A.Signs(Fsms(ws), Stimuli(ws, es), k)
    ensures |ws[k + 1].card.vault.signed| == |ws[k].card.vault.signed| + (if CallsSigner(ws, k) then 1 else 0)
  {
    assert Steps(ws, es, k);
    StepStimulates(ws[k], es[k]);
  }

  /** The confirmed press, and the demand, behind the signer call of event `k`. */
  ghost function PressBehind(ws: seq<World>, es: seq<Event>, k: nat): int
    requires IsRun(ws, es) && k <= |es|
  {
    A.GrantOf(Fsms(ws), Stimuli(ws, es), k)
  }

  ghost function DemandBehind(ws: seq<World>, es: seq<Event>, k: nat): int
    requires IsRun(ws, es) && k <= |es|
  {
    A.OpenOf(Fsms(ws), Stimuli(ws, es), k)
  }

  /** Event `o` is a demand, let through by a verified PIN, that makes an idle machine wait for the button. */
  ghost predicate OpensWait(ws: seq<World>, es: seq<Event>, o: nat)
    requires o < |es| && |ws| == |es| + 1
  {
    && Steps(ws, es, o) && IsDemand(ws[o], es[o])
    && ws[o].card.piv.pinVerified && ws[o].card.piv.selected && ws[o].ccid.powered
    && ws[o].card.fsm.mode == Idle && ws[o + 1].card.fsm.mode == WaitingButton
  }

  /** Event `p` is a pin sample at low level that the waiting machine accepts. */
  ghost predicate GrantsPress(ws: seq<World>, es: seq<Event>, p: nat)
    requires p < |es| && |ws| == |es| + 1
  {
    es[p].act == PollPin(0) && ws[p].card.fsm.mode == WaitingButton && ws[p + 1].card.fsm.mode == Authorized
  }

  lemma OpensMeansDemand(ws: seq<World>, es: seq<Event>, o: nat)
    requires IsRun(ws, es) && o < |es| && A.Opens(Fsms(ws), Stimuli(ws, es), o)
    ensures OpensWait(ws, es, o)
  {
    assert Steps(ws, es, o);
    DemandNeedsPin(ws[o].card, ApduOf(ws[o], es[o]).value);
    StepStimulates(ws[o], es[o]);
  }

  lemma GrantsMeansPress(ws: seq<World>, es: seq<Event>, p: nat)
    requires IsRun(ws, es) && p < |es| && A.Grants(Fsms(ws), Stimuli(ws, es), p)
    ensures GrantsPress(ws, es, p)
  {
    assert Steps(ws, es, p);
    StepStimulates(ws[p], es[p]);
  }

  /**
   Every call of the signer has behind it an accepted press of the button, which in turn has behind it a demand that
   a verified PIN let through; the machine stays authorized from the press to the call, and waits from the demand to
   the press. Whatever the call returns, the machine is idle again after it.
   */
  lemma SignerCallHasItsPress(ws: seq<World>, es: seq<Event>, k: nat)
    requires IsRun(ws, es) && k < |es| && CallsSigner(ws, k)
    ensures var p, o := PressBehind(ws, es, k), DemandBehind(ws, es, k);
            && 0 <= o < p < k && GrantsPress(ws, es, p) && OpensWait(ws, es, o)
            && (forall m :: o < m <= p ==> ws[m].card.fsm.mode == WaitingButton)
            && (forall m :: p < m <= k ==> ws[m].card.fsm.mode == Authorized)
            && ws[k + 1].card.fsm.mode == Idle
  {
    var fs, ts := Fsms(ws), Stimuli(ws, es);
    ProjectsToFsmRun(ws, es);
    CallsSignerIff(ws, es, k);
    A.SignatureHasItsPress(fs, ts, k);
    var p, o := PressBehind(ws, es, k), DemandBehind(ws, es, k);
    OpensMeansDemand(ws, es, o);
    GrantsMeansPress(ws, es, p);
  }

  /** The map from signer calls to presses is injective, and so is the one to demands. */
  lemma PressesAreNotShared(ws: seq<World>, es: seq<Event>, j: nat, k: nat)
    requires IsRun(ws, es) && j < k < |es| && CallsSigner(ws, j) && CallsSigner(ws, k)
    ensures PressBehind(ws, es, j) < j < DemandBehind(ws, es, k) < PressBehind(ws, es, k) < k
  {
    ProjectsToFsmRun(ws, es);
    CallsSignerIff(ws, es, j);
    CallsSignerIff(ws, es, k);
    A.PressServesOnce(Fsms(ws), Stimuli(ws, es), j, k);
  }

  /** The accepted edge of the button pin behind the press of a signer call, and the flag clear of its poll. */
  ghost function EdgeBehind(ws: seq<World>, es: seq<Event>, k: nat): int
    requires IsRun(ws, es) && k <= |es| && 0 <= PressBehind(ws, es, k)
  {
    D.EdgeOf(Buttons(ws), es, PressBehind(ws, es, k))
  }

  ghost function ClearBehind(ws: seq<World>, es: seq<Event>, k: nat): int
    requires IsRun(ws, es) && k <= |es| && 0 <= PressBehind(ws, es, k)
  {
    D.ClearOf(Buttons(ws), es, PressBehind(ws, es, k))
  }

  /** The press behind a signer call has a settled edge of the button pin behind it. */
  lemma SignerCallHasItsEdge(ws: seq<World>, es: seq<Event>, k: nat)
    requires IsRun(ws, es) && k < |es| && CallsSigner(ws, k)
    ensures var p := PressBehind(ws, es, k);
            0 <= p < k &&
            var a, c := EdgeBehind(ws, es, k), ClearBehind(ws, es, k);
            && 0 <= a < c < p && es[a].act == Edge(9) && !ws[a].button.edgeSeen
            && es[a].at + D.DEBOUNCE_US <= es[c].at
  {
    SignerCallHasItsPress(ws, es, k);
    ProjectsToButtonRun(ws, es);
    D.SampledEdgeIsSettled(Buttons(ws), es, PressBehind(ws, es, k));
  }

  /** And it is its own: two signer calls have different edges behind them, in their order. */
  lemma EdgesAreNotShared(ws: seq<World>, es: seq<Event>, j: nat, k: nat)
    requires IsRun(ws, es) && j < k < |es| && CallsSigner(ws, j) && CallsSigner(ws, k)
    ensures 0 <= PressBehind(ws, es, j) < PressBehind(ws, es, k)
    ensures 0 <= EdgeBehind(ws, es, j) < EdgeBehind(ws, es, k)
  {
    SignerCallHasItsPress(ws, es, j);
    SignerCallHasItsPress(ws, es, k);
    PressesAreNotShared(ws, es, j, k);
    ProjectsToButtonRun(ws, es);
    D.SamplesUseDistinctEdges(Buttons(ws), es, PressBehind(ws, es, j), PressBehind(ws, es, k));
  }

  /** The poller is at work only while the loop polls. */
  lemma {:induction false} PollerWorksInPoll(ws: seq<World>, es: seq<Event>, k: nat)
    requires IsRun(ws, es) && k <= |es|
    ensures ws[k].button.poller.Outside? || ws[k].phase == Poll
  {
    if k == 0 {
    } else {
      PollerWorksInPoll(ws, es, k - 1);
      assert Steps(ws, es, k - 1);
      PollerPhaseStep(ws[k - 1], es[k - 1]);
    }
  }

  lemma PollerPhaseStep(w: World, e: Event)
    requires w.WellFormed() && w.Enabled(e) && (w.button.poller.Outside? || w.phase == Poll)
    ensures w.Step(e).button.poller.Outside? || w.Step(e).phase == Poll
  {
  }

  /**
   A press can use an edge from before the demand that it grants: exactly if the flag was set when the demand came and
   no sample was taken between the demand and the press.
   */
  lemma EdgePrecedesDemandIff(ws: seq<World>, es: seq<Event>, k: nat)
    requires IsRun(ws, es) && k < |es| && CallsSigner(ws, k)
    ensures var p, o := PressBehind(ws, es, k), DemandBehind(ws, es, k);
            && 0 <= o < p < k
            && (EdgeBehind(ws, es, k) < o <==>
                  ws[o].button.edgeSeen && forall m :: o < m < p ==> !es[m].act.PollPin?)
  {
    SignerCallHasItsPress(ws, es, k);
    ProjectsToButtonRun(ws, es);
    var p, o := PressBehind(ws, es, k), DemandBehind(ws, es, k);
    PollerWorksInPoll(ws, es, o);
    DemandOutsidePoll(ws[o], es[o]);
    D.EdgeIsOlderIff(Buttons(ws), es, o, p);
  }

  lemma DemandOutsidePoll(w: World, e: Event)
    requires w.WellFormed() && w.Enabled(e) && IsDemand(w, e)
    ensures w.phase == Usb && e.act.Receive?
  {
  }

  /**
   The firmware refines the one-credit machine: in every state of every run its authorization machine stands for the
   credit that the stimuli so far leave, and it calls the signer exactly for the demands made while one is held.
   */
  lemma FirmwareRefinesCredit(ws: seq<World>, es: seq<Event>, k: nat)
    requires IsRun(ws, es) && k <= |es|
    ensures C.CreditOf(ws[k].card.fsm) == Some(C.After(Stimuli(ws, es), k))
    ensures k < |es| ==>
              Steps(ws, es, k) &&
              (CallsSigner(ws, k) <==> IsDemand(ws[k], es[k]) && C.After(Stimuli(ws, es), k).Held?)
  {
    ProjectsToFsmRun(ws, es);
    C.MachineRefinesCredit(Fsms(ws), Stimuli(ws, es), k);
    if k < |es| {
      assert Steps(ws, es, k);
      CallsSignerIff(ws, es, k);
    }
  }

  // ---- timing ----

  /** The time of the latest tick before event `k`; the loop is entered at time 0. */
  function LastTick(es: seq<Event>, k: nat): nat
    requires k <= |es|
  {
    if k == 0 then 0
    else if es[k - 1].act == Tick then es[k - 1].at
    else LastTick(es, k - 1)
  }

  predicate TickWithin(es: seq<Event>, d: nat, k: nat)
    requires k < |es|
  {
    es[k].at <= LastTick(es, k) + d
  }

  /** Ticks, and the pending one, are at most `d` apart. */
  ghost predicate TicksWithin(es: seq<Event>, d: nat) {
    forall k :: 0 <= k < |es| ==> TickWithin(es, d, k)
  }

  /** The stimulus is a tick exactly if the event is one, at the same time. */
  predicate SameTick(ts: seq<A.Timed>, es: seq<Event>, k: nat)
    requires k < |ts| == |es|
  {
    ts[k].at == es[k].at && (ts[k].what == A.TickPoll <==> es[k].act == Tick)
  }

  lemma {:induction false} SameLastTick(fs: seq<Fsm>, ts: seq<A.Timed>, es: seq<Event>, k: nat)
    requires k <= |ts| == |es| && |ts| < |fs| && forall i :: 0 <= i < |es| ==> SameTick(ts, es, i)
    ensures A.LastTick(fs, ts, k) == LastTick(es, k)
  {
    if k == 0 {
    } else {
      SameLastTick(fs, ts, es, k - 1);
      assert SameTick(ts, es, k - 1);
      A.LastTickGrows(fs, ts, k - 1);
    }
  }

  lemma TickOfEvent(ws: seq<World>, es: seq<Event>, k: nat)
    requires IsRun(ws, es) && k < |es|
    ensures SameTick(Stimuli(ws, es), es, k)
  {
    assert Steps(ws, es, k);
  }

  lemma TicksProject(ws: seq<World>, es: seq<Event>, d: nat)
    requires IsRun(ws, es) && TicksWithin(es, d)
    ensures A.TicksWithin(Fsms(ws), Stimuli(ws, es), d)
  {
    forall k | 0 <= k < |es|
      ensures SameTick(Stimuli(ws, es), es, k)
    {
      TickOfEvent(ws, es, k);
    }
    forall k | 0 <= k < |es|
      ensures A.TickWithin(Fsms(ws), Stimuli(ws, es), d, k)
    {
      assert TickWithin(es, d, k);
      SameLastTick(Fsms(ws), Stimuli(ws, es), es, k);
    }
  }

  /** The signer is called less than ten seconds and one tick gap after the press. */
  lemma SignerCallIsTimely(ws: seq<World>, es: seq<Event>, k: nat, d: nat)
    requires IsRun(ws, es) && k < |es| && CallsSigner(ws, k) && TicksWithin(es, d)
    ensures 0 <= PressBehind(ws, es, k) < k
    ensures es[k].at < es[PressBehind(ws, es, k)].at + A.WINDOW_US + d
  {
    ProjectsToFsmRun(ws, es);
    TicksProject(ws, es, d);
    CallsSignerIff(ws, es, k);
    A.SignatureIsTimely(Fsms(ws), Stimuli(ws, es), k, d);
  }

  /**
   The documented ten seconds hold for exactly those signer calls that come before the deadline in memory, which the
   gate does not compare with the clock.
   */
  lemma WindowHoldsIff(ws: seq<World>, es: seq<Event>, k: nat)
    requires IsRun(ws, es) && k < |es| && CallsSigner(ws, k)
    ensures 0 <= PressBehind(ws, es, k) < k
    ensures ws[k].card.fsm.deadline == es[PressBehind(ws, es, k)].at + A.WINDOW_US
    ensures es[k].at < es[PressBehind(ws, es, k)].at + A.WINDOW_US <==> es[k].at < ws[k].card.fsm.deadline
  {
    SignerCallHasItsPress(ws, es, k);
    DeadlineStays(ws, es, PressBehind(ws, es, k), k);
  }

  /** In loop order a tick lies between any pin sample and any later message. */
  lemma {:induction false} TickSeparates(ws: seq<World>, es: seq<Event>, p: nat, k: nat) returns (t: nat)
    requires IsRun(ws, es) && p < k <= |es| && es[p].act.PollPin?
    ensures ws[k].phase == Ticking || (p < t < k && es[t].act == Tick)
    decreases k
  {
    assert Steps(ws, es, k - 1);
    t := k - 1;
    if p < k - 1 && es[k - 1].act != Tick {
      t := TickSeparates(ws, es, p, k - 1);
      if ws[k - 1].phase == Ticking {
        PhaseFollowsLoop(ws[k - 1], es[k - 1]);
      }
    }
  }

  /** The tick is the only way out of its phase. */
  lemma PhaseFollowsLoop(w: World, e: Event)
    requires w.WellFormed() && w.Enabled(e) && w.phase == Ticking && e.act != Tick
    ensures w.Step(e).phase == Ticking
  {
  }

  /** Some tick between press and signature finds the deadline still ahead. */
  lemma TickBeforeSignature(ws: seq<World>, es: seq<Event>, k: nat) returns (t: nat)
    requires IsRun(ws, es) && k < |es| && CallsSigner(ws, k)
    ensures 0 <= PressBehind(ws, es, k) < t < k
    ensures es[t].act == Tick && es[t].at < es[PressBehind(ws, es, k)].at + A.WINDOW_US
  {
    SignerCallHasItsPress(ws, es, k);
    MessageInUsbPhase(ws, es, k);
    t := TickSeparates(ws, es, PressBehind(ws, es, k), k);
    TickMeetsDeadline(ws, es, PressBehind(ws, es, k), t);
  }

  lemma MessageInUsbPhase(ws: seq<World>, es: seq<Event>, k: nat)
    requires IsRun(ws, es) && k < |es| && CallsSigner(ws, k)
    ensures ws[k].phase == Usb
  {
    assert Steps(ws, es, k);
    StepStimulates(ws[k], es[k]);
  }

  /** A tick that leaves an authorization in place comes before its deadline. */
  lemma TickMeetsDeadline(ws: seq<World>, es: seq<Event>, p: nat, t: nat)
    requires IsRun(ws, es) && p < t < |es| && GrantsPress(ws, es, p) && es[t].act == Tick
    requires forall m :: p < m <= t + 1 ==> ws[m].card.fsm.mode == Authorized
    ensures es[t].at < es[p].at + A.WINDOW_US
  {
    DeadlineStays(ws, es, p, t);
    assert Steps(ws, es, t);
    StepStimulates(ws[t], es[t]);
  }

  lemma {:induction false} DeadlineStays(ws: seq<World>, es: seq<Event>, p: nat, t: nat)
    requires IsRun(ws, es) && p < t <= |es| && GrantsPress(ws, es, p)
    requires forall m :: p < m <= t ==> ws[m].card.fsm.mode == Authorized
    ensures ws[t].card.fsm.deadline == es[p].at + A.WINDOW_US
  {
    if t == p + 1 {
      assert Steps(ws, es, p);
      StepStimulates(ws[p], es[p]);
    } else {
      DeadlineStays(ws, es, p, t - 1);
      ProjectsToFsmRun(ws, es);
      A.RunningDeadlineIsFixed(Fsms(ws), Stimuli(ws, es), t - 1);
      assert Fsms(ws)[t] == Fsms(ws)[t - 1];
    }
  }

  lemma ClockBeforeState(ws: seq<World>, es: seq<Event>, k: nat)
    requires IsRun(ws, es) && k <= |es|
    ensures A.ClockAt(Stimuli(ws, es), k) == ws[k].clock
  {
    if k > 0 {
      assert Steps(ws, es, k - 1);
    }
  }

  /** No uninterrupted stay outside IDLE comes nearer than 2 us to 40 s and two tick gaps. */
  lemma StayOutsideIdleIsBounded(ws: seq<World>, es: seq<Event>, a: nat, b: nat, d: nat)
    requires IsRun(ws, es) && a <= b < |es| && TicksWithin(es, d)
    requires forall m :: a <= m <= b ==> ws[m].card.fsm.mode != Idle
    ensures es[b].at + 2 <= ws[a].clock + A.WAIT_US + A.WINDOW_US + 2 * d
  {
    var fs, ts := Fsms(ws), Stimuli(ws, es);
    ProjectsToFsmRun(ws, es);
    TicksProject(ws, es, d);
    A.StayIsBounded(fs, ts, a, b, d);
    ClockBeforeState(ws, es, a);
  }

  // ---- rate ----

  /** An accepted press is a confirmed press. */
  lemma GrantIsConfirmed(ws: seq<World>, es: seq<Event>, k: nat)
    requires IsRun(ws, es) && k < |es|
    ensures A.Grants(Fsms(ws), Stimuli(ws, es), k) ==> D.Confirms(es, k)
  {
    assert Steps(ws, es, k);
  }

  lemma {:induction false} SignaturesAreCounted(ws: seq<World>, es: seq<Event>, k: nat)
    requires IsRun(ws, es) && k <= |es|
    ensures |ws[k].card.vault.signed| == A.HistoryAt(Fsms(ws), Stimuli(ws, es), k).signs
  {
    if k == 0 {
    } else {
      SignaturesAreCounted(ws, es, k - 1);
      CallsSignerIff(ws, es, k - 1);
    }
  }

  /** An accepted press among the stimuli is a confirmed press among the events. */
  predicate ConfirmsGrant(fs: seq<Fsm>, ts: seq<A.Timed>, es: seq<Event>, k: nat)
    requires k < |ts| == |es| < |fs|
  {
    A.Grants(fs, ts, k) ==> D.Confirms(es, k)
  }

  lemma {:induction false} GrantsBoundedByPresses(fs: seq<Fsm>, ts: seq<A.Timed>, bs: seq<Button.State>,
                                                  es: seq<Event>, k: nat)
    requires k <= |es| == |ts| && |ts| < |fs| && |es| < |bs|
    requires forall i :: 0 <= i < |es| ==> ConfirmsGrant(fs, ts, es, i)
    ensures A.HistoryAt(fs, ts, k).grants <= D.HistoryAt(bs, es, k).presses
  {
    if k == 0 {
    } else {
      GrantsBoundedByPresses(fs, ts, bs, es, k - 1);
      A.GrantsGrow(fs, ts, k - 1);
      D.PressesGrow(bs, es, k - 1);
      assert ConfirmsGrant(fs, ts, es, k - 1);
    }
  }

  lemma GrantsAreCounted(ws: seq<World>, es: seq<Event>, k: nat)
    requires IsRun(ws, es) && k <= |es|
    ensures A.HistoryAt(Fsms(ws), Stimuli(ws, es), k).grants <= D.HistoryAt(Buttons(ws), es, k).presses
  {
    forall i | 0 <= i < |es|
      ensures ConfirmsGrant(Fsms(ws), Stimuli(ws, es), es, i)
    {
      GrantIsConfirmed(ws, es, i);
    }
    GrantsBoundedByPresses(Fsms(ws), Stimuli(ws, es), Buttons(ws), es, k);
  }

  /** In any run there has been at most one signer call per 30 ms since boot. */
  lemma SignerRate(ws: seq<World>, es: seq<Event>, k: nat)
    requires IsRun(ws, es) && k <= |es|
    ensures D.DEBOUNCE_US * |ws[k].card.vault.signed| <= ws[k].clock
  {
    var n := |ws[k].card.vault.signed|;
    SignaturesAreCounted(ws, es, k);
    GrantsAreCounted(ws, es, k);
    ProjectsToFsmRun(ws, es);
    ProjectsToButtonRun(ws, es);
    A.SignaturesBoundedByPresses(Fsms(ws), Stimuli(ws, es), k);
    D.PressRate(Buttons(ws), es, k);
    if k > 0 {
      assert Steps(ws, es, k - 1);
    }
  }
}
