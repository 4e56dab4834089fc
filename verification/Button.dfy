/**
 The user-presence button: an interrupt that latches the first falling edge, and a poller that confirms it after the
 debounce time. The interrupt is atomic; the poller is cut into the memory accesses between which it can run.
 */
module Button {
  import opened Bytes
  import opened Events

  const BUTTON_PIN := 9
  const BUTTON_DEBOUNCE_MS := 30
  const WORD := 0x1_0000_0000

  /** Where the poller is. The operands of the time difference are read in any order, the 64-bit one in two halves. */
  datatype Poller =
    | Outside
    | Measuring(low: Option<nat>, high: Option<nat>, now: Option<nat>)
    | Clearing
    | Confirming

  /** C division truncates toward zero. */
  function TruncatedDiv(a: int, b: nat): int
    requires b != 0
  {
    if a >= 0 then a / b else -(-a / b)
  }

  datatype State = State(edgeSeen: bool, edgeTime: nat, pressConfirmed: bool, poller: Poller) {

    /** Which micro-steps the program order allows. */
    predicate Enabled(act: Action) {
      match act
      case PollTest => poller.Outside?
      case PollReadLow => poller.Measuring? && poller.low.None?
      case PollReadHigh => poller.Measuring? && poller.high.None?
      case PollReadNow => poller.Measuring? && poller.now.None?
      case PollDecide => poller.Measuring? && poller.low.Some? && poller.high.Some? && poller.now.Some?
      case PollClear => poller.Clearing?
      case PollPin(_) => poller.Confirming?
      case _ => true
    }

    function Interrupt(gpio: nat, now: nat): State {
      if gpio == BUTTON_PIN && !edgeSeen then this.(edgeSeen := true, edgeTime := now) else this
    }

    /** The debounce window, in the milliseconds the code computes from the values it read. */
    function Elapsed(): int
      requires Enabled(PollDecide)
    {
      TruncatedDiv(poller.now.value - (poller.high.value * WORD + poller.low.value), 1000)
    }

    function Step(e: Event): State
      requires Enabled(e.act)
    {
      match e.act
      case Edge(gpio) => Interrupt(gpio, e.at)
      case PollTest => if edgeSeen then this.(poller := Measuring(None, None, None)) else this
      case PollReadLow => this.(poller := poller.(low := Some(edgeTime % WORD)))
      case PollReadHigh => this.(poller := poller.(high := Some(edgeTime / WORD)))
      case PollReadNow => this.(poller := poller.(now := Some(e.at)))
      case PollDecide => this.(poller := if Elapsed() < BUTTON_DEBOUNCE_MS then Outside else Clearing)
      case PollClear => this.(edgeSeen := false, poller := Confirming)
      case PollPin(level) => this.(pressConfirmed := pressConfirmed || level == 0, poller := Outside)
      case _ => this
    }

    /** The poll is over for this round of the main loop once this step is done. */
    predicate EndsPoll(act: Action)
      requires Enabled(act)
    {
      match act
      case PollTest => !edgeSeen
      case PollDecide => Elapsed() < BUTTON_DEBOUNCE_MS
      case PollPin(_) => true
      case _ => false
    }
  }

  const BOOT_BUTTON := State(false, 0, false, Outside)

  class Driver {
    var edgeSeen: bool
    var edgeTime: nat
    var pressConfirmed: bool
    var poller: Poller  // program counter and local variables of button_was_pressed

    ghost function Model(): State
      reads this
    {
      State(edgeSeen, edgeTime, pressConfirmed, poller)
    }

    constructor ()
      ensures Model() == BOOT_BUTTON
    {
      edgeSeen, edgeTime, pressConfirmed, poller := false, 0, false, Outside;
    }

    method GpioIrq(gpio: nat, now: nat)
      modifies this
      ensures Model() == old(Model()).Step(Event(now, Edge(gpio)))
    {
      if gpio == BUTTON_PIN && !edgeSeen {
        edgeSeen := true;
        edgeTime := now;
      }
    }

    /** The poll is over at once if no edge is latched. */
    method PollTest(ghost at: nat) returns (over: bool)
      requires Model().Enabled(Action.PollTest)
      modifies this
      ensures Model() == old(Model()).Step(Event(at, Action.PollTest))
      ensures over == old(Model()).EndsPoll(Action.PollTest)
    {
      over := !edgeSeen;
      if !over {
        poller := Measuring(None, None, None);
      }
    }

    method PollReadLow(ghost at: nat)
      requires Model().Enabled(Action.PollReadLow)
      modifies this
      ensures Model() == old(Model()).Step(Event(at, Action.PollReadLow))
    {
      poller := poller.(low := Some(edgeTime % WORD));
    }

    method PollReadHigh(ghost at: nat)
      requires Model().Enabled(Action.PollReadHigh)
      modifies this
      ensures Model() == old(Model()).Step(Event(at, Action.PollReadHigh))
    {
      poller := poller.(high := Some(edgeTime / WORD));
    }

    method PollReadNow(at: nat)
      requires Model().Enabled(Action.PollReadNow)
      modifies this
      ensures Model() == old(Model()).Step(Event(at, Action.PollReadNow))
    {
      poller := poller.(now := Some(at));
    }

    /** The poll is over if the edge has not settled yet. */
    method PollDecide(ghost at: nat) returns (over: bool)
      requires Model().Enabled(Action.PollDecide)
      modifies this
      ensures Model() == old(Model()).Step(Event(at, Action.PollDecide))
      ensures over == old(Model()).EndsPoll(Action.PollDecide)
    {
      var elapsed := TruncatedDiv(poller.now.value - (poller.high.value * WORD + poller.low.value), 1000);
      over := elapsed < BUTTON_DEBOUNCE_MS;
      poller := if over then Outside else Clearing;
    }

    method PollClear(ghost at: nat)
      requires Model().Enabled(Action.PollClear)
      modifies this
      ensures Model() == old(Model()).Step(Event(at, Action.PollClear))
    {
      edgeSeen := false;
      poller := Confirming;
    }

    /** The pin is sampled; a low level is a confirmed press. */
    method PollPin(ghost at: nat, level: nat) returns (pressed: bool)
      requires Model().Enabled(Action.PollPin(level))
      modifies this
      ensures Model() == old(Model()).Step(Event(at, Action.PollPin(level)))
      ensures pressed == (level == 0)
    {
      pressed := level == 0;
      if pressed {
        pressConfirmed := true;
      }
      poller := Outside;
    }
  }
}
