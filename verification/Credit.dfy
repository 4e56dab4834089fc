/** The authorization machine refines a simpler one: at most one credit, asked for, then held, always with an expiry. */
module Credit {
  import opened Bytes
  import opened DeviceState
  import opened Authorization

  datatype Credit = NoCredit | Asked(until: int) | Held(until: int) {

    /** A demand spends a held credit, and otherwise asks for one unless that is under way. */
    function Demanded(now: nat): Credit {
      match this
      case NoCredit => Asked(now + WAIT_US)
      case Asked(_) => this
      case Held(_) => NoCredit
    }

    function Granted(now: nat): Credit {
      if Asked? then Held(now + WINDOW_US) else this
    }

    function Expired(now: nat): Credit {
      if !NoCredit? && until <= now then NoCredit else this
    }

    function Next(t: Timed): Credit {
      match t.what
      case Demand => Demanded(t.at)
      case Press => Granted(t.at)
      case TickPoll => Expired(t.at)
      case Reset => NoCredit
      case Nothing => this
    }
  }

  /** The credit after the first `k` stimuli, from the stimuli alone. */
  function After(ts: seq<Timed>, k: nat): Credit
    requires k <= |ts|
  {
    if k == 0 then NoCredit else After(ts, k - 1).Next(ts[k - 1])
  }

  /** The abstraction; PROCESSING and a consumed authorization have no counterpart. */
  function CreditOf(f: Fsm): Option<Credit> {
    match f.mode
    case Idle => Some(NoCredit)
    case WaitingButton => Some(Asked(f.deadline))
    case Authorized => if f.authConsumed then None else Some(Held(f.deadline))
    case Processing => None
  }

  /**
   Forward simulation over every run: the machine is never in a state without a counterpart, its credit is the one
   the abstract machine has, and the signer is called exactly when the abstract machine spends a credit.
   */
  lemma {:induction false} MachineRefinesCredit(fs: seq<Fsm>, ts: seq<Timed>, k: nat)
    requires IsFsmRun(fs, ts) && k <= |ts|
    ensures CreditOf(fs[k]) == Some(After(ts, k))
    ensures k < |ts| ==> (Signs(fs, ts, k) <==> ts[k].what == Demand && After(ts, k).Held?)
  {
    if k == 0 {
    } else {
      MachineRefinesCredit(fs, ts, k - 1);
      InvHolds(fs, ts, k);
      assert Reacts(fs, ts, k - 1);
    }
  }

  /** In every state between commands, the two questions the gate asks have the same answer: being AUTHORIZED. */
  lemma SecondRefusalUnreachable(fs: seq<Fsm>, ts: seq<Timed>, k: nat)
    requires IsFsmRun(fs, ts) && k <= |ts|
    ensures fs[k].mode != Processing
    ensures fs[k].mode == Authorized <==> fs[k].IsAuthorized()
    ensures fs[k].IsAuthorized() ==> fs[k].ConsumeAuth().BeginProcessing().mode == Processing
  {
    InvHolds(fs, ts, k);
  }
}
