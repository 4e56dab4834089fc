/**
 The whole firmware as one transition system: the endless loop of main (USB, sender, button poll, tick), with the
 GPIO interrupt and the end of a bulk-IN transfer allowed before any step.
 */
module Machine {
  import opened Bytes
  import opened Events
  import opened DeviceState
  import opened KeyStore
  import opened PivModel
  import opened CcidModel
  import Button

  /** Which call of the loop body is running. */
  datatype Phase = Usb | Send | Poll | Ticking

  /** `inFlight` is the length of the bulk-IN transfer that the endpoint is busy with. */
  datatype World = World(clock: nat, phase: Phase, card: Card, ccid: Ccid, rx: seq<byte>, button: Button.State,
                         inFlight: Option<nat>)
  {
    predicate WellFormed() {
      && card.WellFormed() && ccid.WellFormed() && |rx| == BUF_SIZE
      && (inFlight.Some? ==> inFlight.value <= BUF_SIZE)
    }

    /** What the loop order, the endpoint and the clock allow next. */
    predicate Enabled(e: Event) {
      && clock <= e.at
      && match e.act
         case Receive(msg, pk) => phase == Usb && |msg| <= BUF_SIZE && |pk| <= MAX_SIGNATURE
         case BusReset => phase == Usb
         case Unmount => phase == Usb
         case UsbIdle => phase == Usb
         case SendTask(claimed) => phase == Send && (claimed ==> inFlight.None?)
         case Tick => phase == Ticking
         case Edge(_) => true
         case SendDone => inFlight.Some?
         case act => phase == Poll && button.Enabled(act)
    }

    function Receives(msg: seq<byte>, now: nat, pk: seq<byte>): Handled
      requires WellFormed() && |msg| <= BUF_SIZE && |pk| <= MAX_SIGNATURE
    {
      ProcessMessage(ccid, card, Splice(rx, 0, msg), |msg|, now, pk)
    }

    function Sends(claimed: bool): World {
      if ccid.pending && claimed
      then this.(phase := Poll, ccid := ccid.(pending := false), inFlight := Some(ccid.responseLen))
      else this.(phase := Poll)
    }

    function Polls(e: Event): World
      requires button.Enabled(e.act)
    {
      this.(button := button.Step(e),
            phase := if button.EndsPoll(e.act) then Ticking else Poll,
            card := if e.act == PollPin(0) then card.(fsm := card.fsm.ButtonPressed(e.at)) else card)
    }

    function Acts(e: Event): World
      requires WellFormed() && Enabled(e)
    {
      match e.act
      case Receive(msg, pk) =>
        var h := Receives(msg, e.at, pk);
        this.(rx := Splice(rx, 0, msg), ccid := h.ccid, card := h.card)
      case BusReset => this.(ccid := ccid.Reset(), inFlight := None)
      case Unmount => this.(card := card.(fsm := card.fsm.Init()))
      case UsbIdle => this.(phase := Send)
      case SendTask(claimed) => Sends(claimed)
      case Tick => this.(phase := Usb, card := card.(fsm := card.fsm.Tick(e.at)))
      case Edge(_) => this.(button := button.Step(e))
      case SendDone => this.(inFlight := None)
      case _ => Polls(e)
    }

    function Step(e: Event): World
      requires WellFormed() && Enabled(e)
    {
      Acts(e).(clock := e.at)
    }
  }

  /**
   The state in which `button_init` has just enabled the interrupt. Time is counted from there: an edge before `main`
   enters its loop is an `Edge` before the first other event.
   */
  function Boot(v: Vault): World {
    World(0, Usb, Card(PivInit(), BOOT_FSM, v), BOOT_CCID, seq(BUF_SIZE, _ => 0), Button.BOOT_BUTTON, None)
  }

  predicate IsBootVault(v: Vault) {
    |v.cert| <= MAX_CERT_LEN && v.signed == []
  }

  ghost predicate Steps(ws: seq<World>, es: seq<Event>, k: nat)
    requires k < |es| && |ws| == |es| + 1
  {
    ws[k].WellFormed() && ws[k].Enabled(es[k]) && ws[k + 1] == ws[k].Step(es[k])
  }

  /** `ws` are the states the firmware goes through, from boot, on the events `es`. */
  ghost predicate IsRun(ws: seq<World>, es: seq<Event>) {
    && |ws| == |es| + 1 && IsBootVault(ws[0].card.vault) && ws[0] == Boot(ws[0].card.vault)
    && forall k :: 0 <= k < |es| ==> Steps(ws, es, k)
  }

  /** Every step leads to a well-formed state again, so well-formedness never restricts a run. */
  lemma StepKeepsWellFormed(w: World, e: Event)
    requires w.WellFormed() && w.Enabled(e)
    ensures w.Step(e).WellFormed()
  {
  }

  lemma {:induction false} RunIsWellFormed(ws: seq<World>, es: seq<Event>, k: nat)
    requires IsRun(ws, es) && k <= |es|
    ensures ws[k].WellFormed()
  {
    if k == 0 {
    } else {
      assert Steps(ws, es, k - 1);
      StepKeepsWellFormed(ws[k - 1], es[k - 1]);
    }
  }

  lemma {:induction false} ClockIsMonotone(ws: seq<World>, es: seq<Event>, i: nat, j: nat)
    requires IsRun(ws, es) && i <= j < |es|
    ensures es[i].at <= es[j].at && ws[j].clock <= es[j].at
    ensures ws[j].clock == if j == 0 then 0 else es[j - 1].at
    decreases j
  {
    assert Steps(ws, es, j);
    if j > 0 {
      assert Steps(ws, es, j - 1);
      if i < j {
        ClockIsMonotone(ws, es, i, j - 1);
      }
    }
  }
}
