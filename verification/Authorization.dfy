/**
 The authorization machine over whole runs, driven by everything the firmware does to it. The applet is seen here
 only through its demands: a demand is a command that has passed every check before the authorization gate.
 */
module Authorization {
  import opened DeviceState

  const WAIT_US := 30_000_000
  const WINDOW_US := 10_000_000

  datatype Stimulus = Demand | Press | TickPoll | Reset | Nothing

  datatype Timed = Timed(at: nat, what: Stimulus)

  /** What the applet, the poller, the main loop and the unmount callback do, in their own order of calls. */
  function React(f: Fsm, t: Timed): Fsm {
    match t.what
    case Demand =>
      if f.IsAuthorized() then f.ConsumeAuth().BeginProcessing().OpComplete() else f.RequestAuth(t.at)
    case Press => f.ButtonPressed(t.at)
    case TickPoll => f.Tick(t.at)
    case Reset => f.Init()
    case Nothing => f
  }

  ghost predicate Reacts(fs: seq<Fsm>, ts: seq<Timed>, k: nat)
    requires k < |ts| && |fs| == |ts| + 1
  {
    fs[k + 1] == React(fs[k], ts[k])
  }

  ghost predicate IsFsmRun(fs: seq<Fsm>, ts: seq<Timed>) {
    && |fs| == |ts| + 1 && fs[0] == BOOT_FSM
    && (forall i, j :: 0 <= i < j < |ts| ==> ts[i].at <= ts[j].at)
    && forall k :: 0 <= k < |ts| ==> Reacts(fs, ts, k)
  }

  // ---- the events that matter ----

  predicate Opens(fs: seq<Fsm>, ts: seq<Timed>, k: nat)
    requires k < |ts| < |fs|
  {
    ts[k].what == Demand && fs[k].mode == Idle
  }

  predicate Grants(fs: seq<Fsm>, ts: seq<Timed>, k: nat)
    requires k < |ts| < |fs|
  {
    ts[k].what == Press && fs[k].mode == WaitingButton
  }

  /** The signer is called, whether it then succeeds or not. */
  predicate Signs(fs: seq<Fsm>, ts: seq<Timed>, k: nat)
    requires k < |ts| < |fs|
  {
    ts[k].what == Demand && fs[k].IsAuthorized()
  }

  /** Positions of the latest opening demand, accepted press and tick, and counts. */
  datatype History = History(open: int, grant: int, tick: int, grants: nat, signs: nat)

  function HistoryAt(fs: seq<Fsm>, ts: seq<Timed>, k: nat): (h: History)
    requires k <= |ts| < |fs|
    ensures -1 <= h.open < k && -1 <= h.grant < k && -1 <= h.tick < k
  {
    if k == 0 then History(-1, -1, -1, 0, 0)
    else
      var h := HistoryAt(fs, ts, k - 1);
      if Opens(fs, ts, k - 1) then h.(open := k - 1)
      else if Grants(fs, ts, k - 1) then h.(grant := k - 1, grants := h.grants + 1)
      else if Signs(fs, ts, k - 1) then h.(signs := h.signs + 1)
      else if ts[k - 1].what == TickPoll then h.(tick := k - 1)
      else h
  }

  lemma GrantsGrow(fs: seq<Fsm>, ts: seq<Timed>, k: nat)
    requires k < |ts| < |fs|
    ensures HistoryAt(fs, ts, k + 1).grants == HistoryAt(fs, ts, k).grants + (if Grants(fs, ts, k) then 1 else 0)
  {
  }

  /** The time of the latest tick; the loop is entered at time 0. */
  function LastTick(fs: seq<Fsm>, ts: seq<Timed>, k: nat): nat
    requires k <= |ts| < |fs|
  {
    var h := HistoryAt(fs, ts, k);
    if h.tick < 0 then 0 else ts[h.tick].at
  }

  lemma LastTickGrows(fs: seq<Fsm>, ts: seq<Timed>, k: nat)
    requires k < |ts| < |fs|
    ensures LastTick(fs, ts, k + 1) == if ts[k].what == TickPoll then ts[k].at else LastTick(fs, ts, k)
  {
  }

  /** `mode` in every state from just after event `from` up to state `k`. */
  ghost predicate Stays(fs: seq<Fsm>, mode: Mode, from: int, k: int) {
    0 <= from < k < |fs| && forall m :: from < m <= k ==> fs[m].mode == mode
  }

  // ---- what holds between any two events ----

  ghost predicate WaitingInv(fs: seq<Fsm>, ts: seq<Timed>, k: nat)
    requires k <= |ts| < |fs|
  {
    var f, h := fs[k], HistoryAt(fs, ts, k);
    f.mode == WaitingButton ==>
      && Stays(fs, WaitingButton, h.open, k) && Opens(fs, ts, h.open)
      && f.deadline == ts[h.open].at + WAIT_US
  }

  ghost predicate AuthorizedInv(fs: seq<Fsm>, ts: seq<Timed>, k: nat)
    requires k <= |ts| < |fs|
  {
    var f, h := fs[k], HistoryAt(fs, ts, k);
    f.mode == Authorized ==>
      && !f.authConsumed
      && Stays(fs, Authorized, h.grant, k) && Grants(fs, ts, h.grant)
      && Stays(fs, WaitingButton, h.open, h.grant) && Opens(fs, ts, h.open)
      && f.deadline == ts[h.grant].at + WINDOW_US
  }

  ghost predicate ClockInv(fs: seq<Fsm>, ts: seq<Timed>, k: nat)
    requires k <= |ts| < |fs|
  {
    var f, h := fs[k], HistoryAt(fs, ts, k);
    && f.mode != Processing
    && (f.mode != Idle ==> LastTick(fs, ts, k) < f.deadline)
    && h.signs + (if f.mode == Authorized then 1 else 0) <= h.grants
  }

  ghost predicate Inv(fs: seq<Fsm>, ts: seq<Timed>, k: nat)
    requires k <= |ts| < |fs|
  {
    WaitingInv(fs, ts, k) && AuthorizedInv(fs, ts, k) && ClockInv(fs, ts, k)
  }

  lemma WaitingStep(fs: seq<Fsm>, ts: seq<Timed>, k: nat)
    requires IsFsmRun(fs, ts) && k < |ts| && Inv(fs, ts, k)
    ensures WaitingInv(fs, ts, k + 1)
  {
    assert Reacts(fs, ts, k);
  }

  lemma AuthorizedStep(fs: seq<Fsm>, ts: seq<Timed>, k: nat)
    requires IsFsmRun(fs, ts) && k < |ts| && Inv(fs, ts, k)
    ensures AuthorizedInv(fs, ts, k + 1)
  {
    assert Reacts(fs, ts, k);
  }

  lemma ClockStep(fs: seq<Fsm>, ts: seq<Timed>, k: nat)
    requires IsFsmRun(fs, ts) && k < |ts| && Inv(fs, ts, k)
    ensures ClockInv(fs, ts, k + 1)
  {
    assert Reacts(fs, ts, k);
    var h := HistoryAt(fs, ts, k);
    if h.tick >= 0 {
      assert ts[h.tick].at <= ts[k].at;
    }
  }

  lemma {:induction false} InvHolds(fs: seq<Fsm>, ts: seq<Timed>, k: nat)
    requires IsFsmRun(fs, ts) && k <= |ts|
    ensures Inv(fs, ts, k)
  {
    if k == 0 {
    } else {
      InvHolds(fs, ts, k - 1);
      WaitingStep(fs, ts, k - 1);
      AuthorizedStep(fs, ts, k - 1);
      ClockStep(fs, ts, k - 1);
    }
  }

  // ---- the guarantees ----

  /** The press and the opening demand behind the signature of event `k`. */
  function GrantOf(fs: seq<Fsm>, ts: seq<Timed>, k: nat): int
    requires k <= |ts| < |fs|
  {
    HistoryAt(fs, ts, k).grant
  }

  function OpenOf(fs: seq<Fsm>, ts: seq<Timed>, k: nat): int
    requires k <= |ts| < |fs|
  {
    HistoryAt(fs, ts, k).open
  }

  /**
   A signature is preceded by an accepted press, with the machine authorized all the way in between, and that press
   by the demand that opened the wait, with the machine waiting all the way in between.
   */
  lemma SignatureHasItsPress(fs: seq<Fsm>, ts: seq<Timed>, k: nat)
    requires IsFsmRun(fs, ts) && k < |ts| && Signs(fs, ts, k)
    ensures var p, o := GrantOf(fs, ts, k), OpenOf(fs, ts, k);
            && 0 <= o < p < k
            && Grants(fs, ts, p) && Stays(fs, Authorized, p, k)
            && Opens(fs, ts, o) && Stays(fs, WaitingButton, o, p)
            && fs[k + 1].mode == Idle
  {
    InvHolds(fs, ts, k);
    assert Reacts(fs, ts, k);
  }

  /** No press serves two signatures. */
  lemma PressServesOnce(fs: seq<Fsm>, ts: seq<Timed>, j: nat, k: nat)
    requires IsFsmRun(fs, ts) && j < k < |ts| && Signs(fs, ts, j) && Signs(fs, ts, k)
    ensures GrantOf(fs, ts, j) < j < OpenOf(fs, ts, k) < GrantOf(fs, ts, k) < k
  {
    SignatureHasItsPress(fs, ts, j);
    SignatureHasItsPress(fs, ts, k);
    var o, p := OpenOf(fs, ts, k), GrantOf(fs, ts, k);
    assert fs[j + 1].mode == Idle;
    assert !(p < j + 1 <= k);
    assert !(o < j + 1 <= p);
  }

  /** In every state: no more signatures than accepted presses, and one fewer while a press is still unused. */
  lemma SignaturesBoundedByPresses(fs: seq<Fsm>, ts: seq<Timed>, k: nat)
    requires IsFsmRun(fs, ts) && k <= |ts|
    ensures HistoryAt(fs, ts, k).signs + (if fs[k].mode == Authorized then 1 else 0) <= HistoryAt(fs, ts, k).grants
  {
    InvHolds(fs, ts, k);
  }

  /** A press has been accepted since the machine was last reset. */
  predicate GrantedSinceReset(fs: seq<Fsm>, ts: seq<Timed>, k: nat)
    requires k <= |ts| < |fs|
  {
    k > 0 && ts[k - 1].what != Reset && (Grants(fs, ts, k - 1) || GrantedSinceReset(fs, ts, k - 1))
  }

  /** The consumed flag is set exactly if the latest authorization since the reset is over, used or expired. */
  lemma {:induction false} ConsumedIff(fs: seq<Fsm>, ts: seq<Timed>, k: nat)
    requires IsFsmRun(fs, ts) && k <= |ts|
    ensures fs[k].authConsumed <==> fs[k].mode != Authorized && GrantedSinceReset(fs, ts, k)
    ensures fs[k].mode == Authorized ==> GrantedSinceReset(fs, ts, k)
  {
    if k == 0 {
    } else {
      ConsumedIff(fs, ts, k - 1);
      InvHolds(fs, ts, k - 1);
      assert Reacts(fs, ts, k - 1);
    }
  }

  /** In every mode the deadline is the one that the latest opening demand or accepted press has set. */
  lemma {:induction false} DeadlineIsLatest(fs: seq<Fsm>, ts: seq<Timed>, k: nat)
    requires IsFsmRun(fs, ts) && k <= |ts|
    ensures var h := HistoryAt(fs, ts, k);
            fs[k].deadline == if h.grant < h.open then ts[h.open].at + WAIT_US
                              else if 0 <= h.grant then ts[h.grant].at + WINDOW_US
                              else 0
  {
    if k == 0 {
    } else {
      DeadlineIsLatest(fs, ts, k - 1);
      InvHolds(fs, ts, k - 1);
      assert Reacts(fs, ts, k - 1);
    }
  }

  /** Every event comes at most `d` after the latest tick: ticks, and the pending one, are at most `d` apart. */
  ghost predicate TicksWithin(fs: seq<Fsm>, ts: seq<Timed>, d: nat)
    requires |fs| == |ts| + 1
  {
    forall k :: 0 <= k < |ts| ==> TickWithin(fs, ts, d, k)
  }

  ghost predicate TickWithin(fs: seq<Fsm>, ts: seq<Timed>, d: nat, k: nat)
    requires k < |ts| < |fs|
  {
    ts[k].at <= LastTick(fs, ts, k) + d
  }

  /** The press is less than ten seconds and one tick gap old, although the gate never reads the clock. */
  lemma SignatureIsTimely(fs: seq<Fsm>, ts: seq<Timed>, k: nat, d: nat)
    requires IsFsmRun(fs, ts) && k < |ts| && Signs(fs, ts, k) && TicksWithin(fs, ts, d)
    ensures 0 <= GrantOf(fs, ts, k) < k && ts[k].at < ts[GrantOf(fs, ts, k)].at + WINDOW_US + d
  {
    assert TickWithin(fs, ts, d, k);
    InvHolds(fs, ts, k);
  }

  /** Every accepted press comes less than thirty seconds and one tick gap after its demand. */
  lemma PressIsTimely(fs: seq<Fsm>, ts: seq<Timed>, k: nat, d: nat)
    requires IsFsmRun(fs, ts) && k < |ts| && Grants(fs, ts, k) && TicksWithin(fs, ts, d)
    ensures 0 <= OpenOf(fs, ts, k) < k && ts[k].at < ts[OpenOf(fs, ts, k)].at + WAIT_US + d
  {
    assert TickWithin(fs, ts, d, k);
    InvHolds(fs, ts, k);
  }

  /** Neither a repeated demand nor a repeated press moves a running deadline. */
  lemma RunningDeadlineIsFixed(fs: seq<Fsm>, ts: seq<Timed>, k: nat)
    requires IsFsmRun(fs, ts) && k < |ts| && fs[k].mode == fs[k + 1].mode != Idle
    ensures fs[k + 1] == fs[k]
  {
    InvHolds(fs, ts, k);
    assert Reacts(fs, ts, k);
  }

  function ClockAt(ts: seq<Timed>, k: nat): nat
    requires k <= |ts|
  {
    if k == 0 then 0 else ts[k - 1].at
  }

  /** A deadline was set from a clock reading no later than the present. */
  lemma DeadlineIsRecent(fs: seq<Fsm>, ts: seq<Timed>, k: nat)
    requires IsFsmRun(fs, ts) && k <= |ts|
    ensures fs[k].mode == WaitingButton ==> fs[k].deadline <= ClockAt(ts, k) + WAIT_US
    ensures fs[k].mode == Authorized ==> fs[k].deadline <= ClockAt(ts, k) + WINDOW_US
  {
    InvHolds(fs, ts, k);
    var h := HistoryAt(fs, ts, k);
    assert h.open >= 0 ==> ts[h.open].at <= ClockAt(ts, k);
    assert h.grant >= 0 ==> ts[h.grant].at <= ClockAt(ts, k);
  }

  /** How a state outside IDLE is reached from a state outside IDLE. */
  lemma NonIdleStep(fs: seq<Fsm>, ts: seq<Timed>, k: nat, d: nat)
    requires IsFsmRun(fs, ts) && k < |ts| && TicksWithin(fs, ts, d)
    requires fs[k].mode != Idle && fs[k + 1].mode != Idle
    ensures fs[k + 1] == fs[k]
         || (fs[k].mode == WaitingButton && fs[k + 1].mode == Authorized
             && fs[k + 1].deadline == ts[k].at + WINDOW_US && ts[k].at < fs[k].deadline + d)
  {
    assert TickWithin(fs, ts, d, k);
    InvHolds(fs, ts, k);
    assert Reacts(fs, ts, k);
  }

  /** The deadline in state `b` is bounded by the time of state `a` if the machine has not been idle since. */
  lemma {:induction false} StayDeadline(fs: seq<Fsm>, ts: seq<Timed>, a: nat, b: nat, d: nat)
    requires IsFsmRun(fs, ts) && a <= b <= |ts| && TicksWithin(fs, ts, d)
    requires forall m :: a <= m <= b ==> fs[m].mode != Idle
    ensures fs[b].mode == WaitingButton ==> fs[b].deadline <= ClockAt(ts, a) + WAIT_US
    ensures fs[b].mode == Authorized ==> fs[b].deadline < ClockAt(ts, a) + WAIT_US + WINDOW_US + d
  {
    if a == b {
      DeadlineIsRecent(fs, ts, a);
    } else {
      StayDeadline(fs, ts, a, b - 1, d);
      NonIdleStep(fs, ts, b - 1, d);
    }
  }

  /** No uninterrupted stay outside IDLE comes nearer than 2 us to 40 s and two tick gaps, whatever arrives. */
  lemma StayIsBounded(fs: seq<Fsm>, ts: seq<Timed>, a: nat, b: nat, d: nat)
    requires IsFsmRun(fs, ts) && a <= b < |ts| && TicksWithin(fs, ts, d)
    requires forall m :: a <= m <= b ==> fs[m].mode != Idle
    ensures ts[b].at + 2 <= ClockAt(ts, a) + WAIT_US + WINDOW_US + 2 * d
  {
    StayDeadline(fs, ts, a, b, d);
    assert TickWithin(fs, ts, d, b);
    InvHolds(fs, ts, b);
  }
}
