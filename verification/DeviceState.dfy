/** The authorization state machine: one press permits one operation, within deadlines that only the tick enforces. */
module DeviceState {

  const AUTH_WINDOW_MS := 10_000
  const WAIT_BUTTON_TIMEOUT_MS := 30_000

  datatype Mode = Idle | WaitingButton | Authorized | Processing

  /** `make_timeout_time_ms` at microsecond `now`. */
  function TimeoutAt(now: nat, ms: nat): nat {
    now + 1000 * ms
  }

  /** The three static variables, and what each function of the file makes of them. */
  datatype Fsm = Fsm(mode: Mode, deadline: int, authConsumed: bool) {
    function Init(): Fsm {
      this.(mode := Idle, authConsumed := false)
    }

    function Tick(now: nat): Fsm {
      match mode
      case WaitingButton => if deadline - now <= 0 then this.(mode := Idle) else this
      case Authorized => if deadline - now <= 0 then this.(authConsumed := true, mode := Idle) else this
      case _ => this
    }

    function RequestAuth(now: nat): Fsm {
      if mode == Idle
      then this.(mode := WaitingButton, deadline := TimeoutAt(now, WAIT_BUTTON_TIMEOUT_MS))
      else this
    }

    function ButtonPressed(now: nat): Fsm {
      if mode == WaitingButton then Fsm(Authorized, TimeoutAt(now, AUTH_WINDOW_MS), false) else this
    }

    function BeginProcessing(): Fsm {
      if mode == Authorized then this.(mode := Processing) else this
    }

    function OpComplete(): Fsm {
      this.(mode := Idle)
    }

    predicate IsAuthorized() {
      mode == Authorized && !authConsumed
    }

    /** The machine after `dev_state_consume_auth`, which returns `IsAuthorized()`. */
    function ConsumeAuth(): Fsm {
      if IsAuthorized() then this.(authConsumed := true) else this
    }
  }

  const BOOT_FSM := Fsm(Idle, 0, false)

  class Device {
    var mode: Mode
    var deadline: int
    var authConsumed: bool

    ghost function Model(): Fsm
      reads this
    {
      Fsm(mode, deadline, authConsumed)
    }

    /** The values the C start-up code gives the static variables. */
    constructor ()
      ensures Model() == BOOT_FSM
    {
      mode, deadline, authConsumed := Idle, 0, false;
    }

    method Init()
      modifies this
      ensures Model() == old(Model()).Init()
    {
      mode := Idle;
      authConsumed := false;
    }

    method Tick(now: nat)
      modifies this
      ensures Model() == old(Model()).Tick(now)
    {
      if mode == WaitingButton {
        if deadline - now <= 0 {
          mode := Idle;
        }
      } else if mode == Authorized {
        if deadline - now <= 0 {
          authConsumed := true;
          mode := Idle;
        }
      }
    }

    method RequestAuth(now: nat)
      modifies this
      ensures Model() == old(Model()).RequestAuth(now)
    {
      if mode == Idle {
        mode := WaitingButton;
        deadline := TimeoutAt(now, WAIT_BUTTON_TIMEOUT_MS);
      }
    }

    method ButtonPressed(now: nat)
      modifies this
      ensures Model() == old(Model()).ButtonPressed(now)
    {
      if mode == WaitingButton {
        authConsumed := false;
        mode := Authorized;
        deadline := TimeoutAt(now, AUTH_WINDOW_MS);
      }
    }

    method BeginProcessing()
      modifies this
      ensures Model() == old(Model()).BeginProcessing()
    {
      if mode == Authorized {
        mode := Processing;
      }
    }

    method OpComplete()
      modifies this
      ensures Model() == old(Model()).OpComplete()
    {
      mode := Idle;
    }

    method ConsumeAuth() returns (granted: bool)
      modifies this
      ensures granted == old(Model()).IsAuthorized()
      ensures Model() == old(Model()).ConsumeAuth()
    {
      if mode == Authorized && !authConsumed {
        authConsumed := true;
        return true;
      }
      return false;
    }

    method IsAuthorized() returns (authorized: bool)
      ensures authorized == Model().IsAuthorized()
    {
      authorized := mode == Authorized && !authConsumed;
    }
  }
}
