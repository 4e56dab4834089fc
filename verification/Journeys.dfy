/**
 Journeys: events with what they lead to, from any state. The rounds of the loop and of a waiting host as pieces that
 can be put together, and runs that go the way of such a journey.
 */
module Journeys {
  import opened Bytes
  import opened Events
  import opened Apdu
  import opened DeviceState
  import opened KeyStore
  import opened PivModel
  import opened CcidModel
  import opened Machine
  import opened Replies
  import opened Host
  import opened Transfers
  import opened SafetyOfFirmware
  import opened Progress
  import A = Authorization
  import D = Debounce
  import Button

  // ---- journeys: events with what they lead to, from any state ----

  /**
   A state with the time of the latest tick, whether the host is owed an answer, and how many edges and messages there
   have been so far.
   */
  datatype Spot = Spot(w: World, tick: nat, owed: bool, edges: nat, msgs: nat) {
    /** The event can happen, not later than `d` after the latest tick, and with a host that waits for its answers. */
    predicate Allows(e: Event, d: nat) {
      && w.WellFormed() && w.Enabled(e) && e.at <= tick + d
      && (e.act.Receive? && IsFrame(e.act.msg) ==> !owed)
    }

    function Next(e: Event): Spot
      requires w.WellFormed() && w.Enabled(e)
    {
      Spot(w.Step(e),
           if e.act == Tick then e.at else tick,
           match e.act
           case Receive(msg, _) => owed || IsFrame(msg)
           case SendDone => false
           case BusReset => false
           case _ => owed,
           if e.act.Edge? then edges + 1 else edges,
           if e.act.Receive? then msgs + 1 else msgs)
    }
  }

  /** `ss` are the states on the way. */
  ghost predicate IsTrip(ss: seq<Spot>, es: seq<Event>, d: nat) {
    |ss| == |es| + 1 && forall k :: 0 <= k < |es| ==> Moves(ss, es, d, k)
  }

  ghost predicate Moves(ss: seq<Spot>, es: seq<Event>, d: nat, k: nat)
    requires k < |es| < |ss|
  {
    ss[k].Allows(es[k], d) && ss[k + 1] == ss[k].Next(es[k])
  }

  ghost predicate Trip(s: Spot, es: seq<Event>, s': Spot, d: nat) {
    exists ss :: IsTrip(ss, es, d) && ss[0] == s && ss[|es|] == s'
  }

  lemma NoEvent(s: Spot, d: nat)
    ensures Trip(s, [], s, d)
  {
    assert IsTrip([s], [], d);
  }

  lemma OneEvent(s: Spot, e: Event, d: nat)
    requires s.Allows(e, d)
    ensures Trip(s, [e], s.Next(e), d)
  {
    var ss := [s, s.Next(e)];
    assert Moves(ss, [e], d, 0);
    assert IsTrip(ss, [e], d);
  }

  lemma Onward(s: Spot, a: seq<Event>, s1: Spot, b: seq<Event>, s2: Spot, d: nat)
    requires Trip(s, a, s1, d) && Trip(s1, b, s2, d)
    ensures Trip(s, a + b, s2, d)
  {
    var sa :| IsTrip(sa, a, d) && sa[0] == s && sa[|a|] == s1;
    var sb :| IsTrip(sb, b, d) && sb[0] == s1 && sb[|b|] == s2;
    var ss := sa + sb[1..];
    forall k | 0 <= k < |a + b|
      ensures Moves(ss, a + b, d, k)
    {
      if k < |a| {
        assert Moves(sa, a, d, k);
      } else {
        assert Moves(sb, b, d, k - |a|);
      }
    }
    assert IsTrip(ss, a + b, d);
  }

  /** The numbers of edges and messages tell whether there was one. */
  lemma {:induction false} OutsideCounted(ss: seq<Spot>, es: seq<Event>, d: nat, i: nat, j: nat)
    requires IsTrip(ss, es, d) && i <= j <= |es|
    ensures ss[i].edges <= ss[j].edges && ss[i].msgs <= ss[j].msgs
    ensures forall m :: i <= m < j && es[m].act.Edge? ==> ss[i].edges < ss[j].edges
    ensures forall m :: i <= m < j && es[m].act.Receive? ==> ss[i].msgs < ss[j].msgs
  {
    if i == j {
    } else {
      OutsideCounted(ss, es, d, i, j - 1);
      assert Moves(ss, es, d, j - 1);
    }
  }

  lemma NoEdgeOnTrip(s: Spot, trip: seq<Event>, s': Spot, d: nat)
    requires Trip(s, trip, s', d) && s'.edges == s.edges
    ensures forall m :: 0 <= m < |trip| ==> !trip[m].act.Edge?
  {
    var ss :| IsTrip(ss, trip, d) && ss[0] == s && ss[|trip|] == s';
    OutsideCounted(ss, trip, d, 0, |trip|);
  }

  lemma NoMessageOnTrip(s: Spot, trip: seq<Event>, s': Spot, d: nat)
    requires Trip(s, trip, s', d) && s'.msgs == s.msgs
    ensures forall m :: 0 <= m < |trip| ==> !trip[m].act.Receive?
  {
    var ss :| IsTrip(ss, trip, d) && ss[0] == s && ss[|trip|] == s';
    OutsideCounted(ss, trip, d, 0, |trip|);
  }

  /** The run with the events `es` has led to `s`. */
  ghost predicate ArrivesAt(ws: seq<World>, es: seq<Event>, s: Spot, d: nat) {
    && Lives(ws, es) && TicksWithin(es, d)
    && ws[|es|] == s.w && LastTick(es, |es|) == s.tick && Outstanding(Log(ws, es, |es|)) == s.owed
  }

  lemma ArrivesNext(ws: seq<World>, es: seq<Event>, s: Spot, e: Event, d: nat)
    returns (ws': seq<World>, es': seq<Event>)
    requires ArrivesAt(ws, es, s, d) && s.Allows(e, d)
    ensures es' == es + [e] && Extends(ws, es, ws', es') && ArrivesAt(ws', es', s.Next(e), d)
  {
    OwnedNext(s, e, Log(ws, es, |es|));
    TicksGrow(es, e, d);
    ws', es' := Extend(ws, es, e);
  }

  lemma OwnedNext(s: Spot, e: Event, log: seq<Seen>)
    requires s.w.WellFormed() && s.w.Enabled(e) && Outstanding(log) == s.owed
    ensures Outstanding(log + SeesOf(s.w, e)) == s.Next(e).owed
  {
    var seen := SeesOf(s.w, e);
    assert |seen| <= 1;
    if seen == [] {
      assert log + seen == log;
    } else {
      assert (log + seen)[|log|] == seen[0];
    }
  }

  lemma TicksGrow(es: seq<Event>, e: Event, d: nat)
    requires TicksWithin(es, d) && e.at <= LastTick(es, |es|) + d
    ensures TicksWithin(es + [e], d)
    ensures LastTick(es + [e], |es| + 1) == if e.act == Tick then e.at else LastTick(es, |es|)
  {
    forall k | 0 <= k < |es + [e]|
      ensures TickWithin(es + [e], d, k)
    {
      TickOfPrefix(es, e, k);
      assert k < |es| ==> TickWithin(es, d, k);
    }
    TickOfPrefix(es, e, |es|);
  }

  lemma {:induction false} TickOfPrefix(es: seq<Event>, e: Event, k: nat)
    requires k <= |es|
    ensures LastTick(es + [e], k) == LastTick(es, k)
  {
    if k == 0 {
    } else {
      TickOfPrefix(es, e, k - 1);
    }
  }

  lemma RunMoves(ws: seq<World>, es: seq<Event>, ws1: seq<World>, es1: seq<Event>,
                 ss: seq<Spot>, trip: seq<Event>, d: nat, k: nat)
    returns (ws': seq<World>, es': seq<Event>)
    requires k < |trip| && IsTrip(ss, trip, d) && ArrivesAt(ws1, es1, ss[k], d)
    requires es1 == es + trip[..k] && Extends(ws, es, ws1, es1)
    ensures es' == es + trip[..k + 1] && Extends(ws, es, ws', es') && ArrivesAt(ws', es', ss[k + 1], d)
  {
    assert Moves(ss, trip, d, k);
    ws', es' := ArrivesNext(ws1, es1, ss[k], trip[k], d);
    ExtendsOn(ws, es, ws1, es1, ws', es');
    TakeOneMore(es, trip, k);
  }

  lemma TakeOneMore(es: seq<Event>, trip: seq<Event>, k: nat)
    requires k < |trip|
    ensures es + trip[..k] + [trip[k]] == es + trip[..k + 1]
  {
    assert trip[..k + 1] == trip[..k] + [trip[k]];
  }

  /** A run goes on as a trip does. */
  lemma {:induction false} RunFollows(ws: seq<World>, es: seq<Event>, ss: seq<Spot>, trip: seq<Event>, d: nat, n: nat)
    returns (ws': seq<World>, es': seq<Event>)
    requires IsTrip(ss, trip, d) && ArrivesAt(ws, es, ss[0], d) && n <= |trip|
    ensures es' == es + trip[..n] && Extends(ws, es, ws', es') && ArrivesAt(ws', es', ss[n], d)
  {
    if n == 0 {
      ws', es' := ws, es;
    } else {
      var ws1, es1 := RunFollows(ws, es, ss, trip, d, n - 1);
      ws', es' := RunMoves(ws, es, ws1, es1, ss, trip, d, n - 1);
    }
  }

  lemma RunFollowsTrip(ws: seq<World>, es: seq<Event>, s: Spot, trip: seq<Event>, s': Spot, d: nat)
    returns (ws': seq<World>, es': seq<Event>)
    requires ArrivesAt(ws, es, s, d) && Trip(s, trip, s', d)
    ensures es' == es + trip && Extends(ws, es, ws', es') && ArrivesAt(ws', es', s', d)
  {
    var ss :| IsTrip(ss, trip, d) && ss[0] == s && ss[|trip|] == s';
    ws', es' := RunFollows(ws, es, ss, trip, d, |trip|);
    assert trip[..|trip|] == trip;
  }

  /** Any run goes on as a trip does, whatever its host and its ticks have done before. */
  lemma {:induction false} AnyRunFollows(ws: seq<World>, es: seq<Event>, ss: seq<Spot>, trip: seq<Event>, d: nat,
                                         n: nat)
    returns (ws': seq<World>, es': seq<Event>)
    requires IsTrip(ss, trip, d) && IsRun(ws, es) && ws[|es|] == ss[0].w && n <= |trip|
    ensures es' == es + trip[..n] && Extends(ws, es, ws', es') && IsRun(ws', es') && ws'[|es'|] == ss[n].w
  {
    if n == 0 {
      ws', es' := ws, es;
    } else {
      var ws1, es1 := AnyRunFollows(ws, es, ss, trip, d, n - 1);
      assert Moves(ss, trip, d, n - 1);
      ws', es' := RunGrows(ws1, es1, trip[n - 1]);
      ExtendsOn(ws, es, ws1, es1, ws', es');
      TakeOneMore(es, trip, n - 1);
    }
  }

  lemma AnyRunFollowsTrip(ws: seq<World>, es: seq<Event>, s: Spot, trip: seq<Event>, s': Spot, d: nat)
    returns (ws': seq<World>, es': seq<Event>)
    requires IsRun(ws, es) && ws[|es|] == s.w && Trip(s, trip, s', d)
    ensures es' == es + trip && Extends(ws, es, ws', es') && IsRun(ws', es') && ws'[|es'|] == s'.w
  {
    var ss :| IsTrip(ss, trip, d) && ss[0] == s && ss[|trip|] == s';
    ws', es' := AnyRunFollows(ws, es, ss, trip, d, |trip|);
    assert trip[..|trip|] == trip;
  }

  // ---- the pieces of a round ----

  /** Between rounds: nothing pending, nothing owed, and the tick has just run. */
  predicate AtRest(s: Spot) {
    && s.w.WellFormed() && s.w.phase == Usb && !s.w.ccid.pending && s.w.inFlight.None?
    && !s.owed && s.tick == s.w.clock && s.w.button.poller.Outside?
  }

  /** A poll at that time finds no edge, or one that has not settled. */
  predicate Declines(b: Button.State, at: nat) {
    b.edgeSeen ==> at < b.edgeTime + D.DEBOUNCE_US
  }

  /** The USB stack has nothing to do, and the sender does nothing. */
  lemma NothingToSend(s: Spot, at: nat, d: nat) returns (es: seq<Event>)
    requires s.w.WellFormed() && s.w.phase == Usb && s.w.clock <= at <= s.tick + d
    ensures Trip(s, es, s.(w := s.w.(phase := Poll, clock := at)), d)
  {
    var idle, send := Event(at, UsbIdle), Event(at, SendTask(false));
    var s1 := s.Next(idle);
    OneEvent(s, idle, d);
    assert s1 == s.(w := s.w.(phase := Send, clock := at));
    OneEvent(s1, send, d);
    es := [idle] + [send];
    Onward(s, [idle], s1, [send], s1.Next(send), d);
  }

  /** The poller reads the time of a latched edge. */
  lemma PollReads(s: Spot, at: nat, d: nat) returns (es: seq<Event>)
    requires s.w.WellFormed() && s.w.phase == Poll && s.w.clock <= at <= s.tick + d
    requires s.w.button.poller.Outside? && s.w.button.edgeSeen
    ensures var b := s.w.button;
            var read := Button.Measuring(Some(b.edgeTime % Button.WORD), Some(b.edgeTime / Button.WORD), Some(at));
            Trip(s, es, s.(w := s.w.(button := b.(poller := read), clock := at)), d)
  {
    var es1, s1 := PollReadsTime(s, at, d);
    var e := Event(at, PollReadNow);
    OneEvent(s1, e, d);
    es := es1 + [e];
    Onward(s, es1, s1, [e], s1.Next(e), d);
  }

  lemma PollReadsTime(s: Spot, at: nat, d: nat) returns (es: seq<Event>, s': Spot)
    requires s.w.WellFormed() && s.w.phase == Poll && s.w.clock <= at <= s.tick + d
    requires s.w.button.poller.Outside? && s.w.button.edgeSeen
    ensures var b := s.w.button;
            var read := Button.Measuring(Some(b.edgeTime % Button.WORD), Some(b.edgeTime / Button.WORD), None);
            s' == s.(w := s.w.(button := b.(poller := read), clock := at))
    ensures Trip(s, es, s', d)
  {
    var e1, e2, e3 := Event(at, PollTest), Event(at, PollReadLow), Event(at, PollReadHigh);
    var s1 := s.Next(e1);
    OneEvent(s, e1, d);
    var s2 := s1.Next(e2);
    OneEvent(s1, e2, d);
    s' := s2.Next(e3);
    OneEvent(s2, e3, d);
    Onward(s, [e1], s1, [e2], s2, d);
    es := [e1] + [e2] + [e3];
    Onward(s, [e1] + [e2], s2, [e3], s', d);
  }

  /** A poll that declines leaves everything as it was. */
  lemma PollDeclines(s: Spot, at: nat, d: nat) returns (es: seq<Event>)
    requires s.w.WellFormed() && s.w.phase == Poll && s.w.clock <= at <= s.tick + d
    requires s.w.button.poller.Outside? && Declines(s.w.button, at)
    ensures Trip(s, es, s.(w := s.w.(phase := Ticking, clock := at)), d)
  {
    if s.w.button.edgeSeen {
      var b := s.w.button;
      var read := Button.Measuring(Some(b.edgeTime % Button.WORD), Some(b.edgeTime / Button.WORD), Some(at));
      var s1 := s.(w := s.w.(button := b.(poller := read), clock := at));
      var es1 := PollReads(s, at, d);
      var e := Event(at, PollDecide);
      OneEvent(s1, e, d);
      es := es1 + [e];
      Onward(s, es1, s1, [e], s1.Next(e), d);
    } else {
      es := [Event(at, PollTest)];
      OneEvent(s, Event(at, PollTest), d);
    }
  }

  /** A poll that finds a settled edge, and the pin low, is a press. */
  lemma PollPresses(s: Spot, at: nat, d: nat) returns (es: seq<Event>)
    requires s.w.WellFormed() && s.w.phase == Poll && s.w.clock <= at <= s.tick + d
    requires s.w.button.poller.Outside? && s.w.button.edgeSeen && s.w.button.edgeTime + D.DEBOUNCE_US <= at
    ensures var button := s.w.button.(edgeSeen := false, pressConfirmed := true);
            var card := s.w.card.(fsm := s.w.card.fsm.ButtonPressed(at));
            Trip(s, es, s.(w := s.w.(phase := Ticking, clock := at, button := button, card := card)), d)
    ensures es != [] && es[|es| - 1] == Event(at, PollPin(0))
  {
    var b := s.w.button;
    var read := Button.Measuring(Some(b.edgeTime % Button.WORD), Some(b.edgeTime / Button.WORD), Some(at));
    var s1 := s.(w := s.w.(button := b.(poller := read), clock := at));
    var es1 := PollReads(s, at, d);
    var es2 := SettledEdgePresses(s1, at, d);
    es := es1 + es2;
    Onward(s, es1, s1, es2,
           s.(w := s.w.(phase := Ticking, clock := at,
                        button := b.(edgeSeen := false, pressConfirmed := true),
                        card := s.w.card.(fsm := s.w.card.fsm.ButtonPressed(at)))), d);
  }

  lemma SettledEdgePresses(s: Spot, at: nat, d: nat) returns (es: seq<Event>)
    requires s.w.WellFormed() && s.w.phase == Poll && s.w.clock <= at <= s.tick + d
    requires var b := s.w.button;
             b.edgeTime + D.DEBOUNCE_US <= at &&
             b.poller == Button.Measuring(Some(b.edgeTime % Button.WORD), Some(b.edgeTime / Button.WORD), Some(at))
    ensures var button := s.w.button.(edgeSeen := false, pressConfirmed := true, poller := Button.Outside);
            var card := s.w.card.(fsm := s.w.card.fsm.ButtonPressed(at));
            Trip(s, es, s.(w := s.w.(phase := Ticking, clock := at, button := button, card := card)), d)
    ensures es != [] && es[|es| - 1] == Event(at, PollPin(0))
  {
    var es1, s1 := FlagCleared(s, at, d);
    var e := Event(at, PollPin(0));
    OneEvent(s1, e, d);
    es := es1 + [e];
    Onward(s, es1, s1, [e], s1.Next(e), d);
  }

  lemma FlagCleared(s: Spot, at: nat, d: nat) returns (es: seq<Event>, s': Spot)
    requires s.w.WellFormed() && s.w.phase == Poll && s.w.clock <= at <= s.tick + d
    requires var b := s.w.button;
             b.edgeTime + D.DEBOUNCE_US <= at &&
             b.poller == Button.Measuring(Some(b.edgeTime % Button.WORD), Some(b.edgeTime / Button.WORD), Some(at))
    ensures s' == s.(w := s.w.(button := s.w.button.(edgeSeen := false, poller := Button.Confirming), clock := at))
    ensures Trip(s, es, s', d)
  {
    var e1, e2 := Event(at, PollDecide), Event(at, PollClear);
    var s1 := s.Next(e1);
    OneEvent(s, e1, d);
    assert s1.w == s.w.(button := s.w.button.(poller := Button.Clearing), clock := at);
    s' := s1.Next(e2);
    OneEvent(s1, e2, d);
    es := [e1] + [e2];
    Onward(s, [e1], s1, [e2], s', d);
  }

  /** The round is over. */
  lemma TickEndsRound(s: Spot, at: nat, d: nat) returns (es: seq<Event>)
    requires s.w.WellFormed() && s.w.phase == Ticking && s.w.clock <= at <= s.tick + d
    ensures var card := s.w.card.(fsm := s.w.card.fsm.Tick(at));
            Trip(s, es, s.(w := s.w.(phase := Usb, clock := at, card := card), tick := at), d)
  {
    es := [Event(at, Tick)];
    OneEvent(s, es[0], d);
  }

  // ---- rounds without a message ----

  /** An authorization or a wait outlives the time. */
  predicate Outlives(f: Fsm, at: nat) {
    (f.mode == WaitingButton || f.mode == Authorized) ==> at < f.deadline
  }

  lemma IdleRound(s: Spot, at: nat, d: nat) returns (es: seq<Event>)
    requires AtRest(s) && s.w.clock <= at <= s.tick + d
    requires Declines(s.w.button, at) && Outlives(s.w.card.fsm, at)
    ensures Trip(s, es, s.(w := s.w.(clock := at), tick := at), d)
  {
    var s1 := s.(w := s.w.(phase := Poll, clock := at));
    var s2 := s.(w := s.w.(phase := Ticking, clock := at));
    var es1 := NothingToSend(s, at, d);
    var es2 := PollDeclines(s1, at, d);
    var es3 := TickEndsRound(s2, at, d);
    Onward(s, es1, s1, es2, s2, d);
    es := es1 + es2 + es3;
    Onward(s, es1 + es2, s2, es3, s.(w := s.w.(clock := at), tick := at), d);
  }

  /** Time passes, in rounds at most `d` apart. */
  lemma {:induction false} TimePasses(s: Spot, until: nat, d: nat) returns (es: seq<Event>)
    requires AtRest(s) && s.w.clock <= until && 1 <= d
    requires Declines(s.w.button, until) && Outlives(s.w.card.fsm, until)
    ensures Trip(s, es, s.(w := s.w.(clock := until), tick := until), d)
    decreases until - s.w.clock
  {
    if s.w.clock == until {
      es := [];
      NoEvent(s, d);
    } else {
      var at := if until <= s.w.clock + d then until else s.w.clock + d;
      var s1 := s.(w := s.w.(clock := at), tick := at);
      var es1 := IdleRound(s, at, d);
      var es2 := TimePasses(s1, until, d);
      es := es1 + es2;
      Onward(s, es1, s1, es2, s.(w := s.w.(clock := until), tick := until), d);
    }
  }

  /** A round whose poll confirms a press that the machine waits for. */
  lemma PressRound(s: Spot, at: nat, d: nat) returns (es: seq<Event>, s': Spot)
    requires AtRest(s) && s.w.clock <= at <= s.tick + d && s.w.card.fsm.mode == WaitingButton
    requires s.w.button.edgeSeen && s.w.button.edgeTime + D.DEBOUNCE_US <= at
    ensures Trip(s, es, s', d) && AtRest(s') && s'.w.clock == at && s'.edges == s.edges && s'.msgs == s.msgs
    ensures s'.w.card == s.w.card.(fsm := Fsm(Authorized, at + A.WINDOW_US, false))
    ensures s'.w.ccid == s.w.ccid && !s'.w.button.edgeSeen
  {
    var es1, s1 := PollOfPress(s, at, d);
    s' := s1.(w := s1.w.(phase := Usb), tick := at);
    var es2 := TickEndsRound(s1, at, d);
    es := es1 + es2;
    Onward(s, es1, s1, es2, s', d);
  }

  lemma PollOfPress(s: Spot, at: nat, d: nat) returns (es: seq<Event>, s': Spot)
    requires AtRest(s) && s.w.clock <= at <= s.tick + d && s.w.card.fsm.mode == WaitingButton
    requires s.w.button.edgeSeen && s.w.button.edgeTime + D.DEBOUNCE_US <= at
    ensures Trip(s, es, s', d)
    ensures var button := s.w.button.(edgeSeen := false, pressConfirmed := true);
            var card := s.w.card.(fsm := Fsm(Authorized, at + A.WINDOW_US, false));
            s' == s.(w := s.w.(phase := Ticking, clock := at, button := button, card := card))
  {
    var s1 := s.(w := s.w.(phase := Poll, clock := at));
    var es1 := NothingToSend(s, at, d);
    var es2 := PollPresses(s1, at, d);
    es := es1 + es2;
    s' := s.(w := s.w.(phase := Ticking, clock := at,
                       button := s.w.button.(edgeSeen := false, pressConfirmed := true),
                       card := s.w.card.(fsm := Fsm(Authorized, at + A.WINDOW_US, false))));
    Onward(s, es1, s1, es2, s', d);
  }

  /** The button goes down. */
  lemma EdgeComes(s: Spot, d: nat) returns (es: seq<Event>, s': Spot)
    requires AtRest(s) && !s.w.button.edgeSeen
    ensures Trip(s, es, s', d) && AtRest(s') && s'.edges == s.edges + 1 && s'.msgs == s.msgs
    ensures s'.w == s.w.(button := s.w.button.(edgeSeen := true, edgeTime := s.w.clock))
  {
    var e := Event(s.w.clock, Edge(Button.BUTTON_PIN));
    es, s' := [e], s.Next(e);
    OneEvent(s, e, d);
  }

  // ---- rounds with a message ----

  /** The answer goes out. */
  lemma AnswerSent(s: Spot, d: nat) returns (es: seq<Event>)
    requires s.w.WellFormed() && s.w.phase == Usb && s.w.ccid.pending && s.w.inFlight.None? && s.w.clock <= s.tick + d
    ensures Trip(s, es, s.(w := s.w.(phase := Poll, ccid := s.w.ccid.(pending := false)), owed := false), d)
  {
    var at := s.w.clock;
    var e1, e2, e3 := Event(at, UsbIdle), Event(at, SendTask(true)), Event(at, SendDone);
    var s1 := s.Next(e1);
    OneEvent(s, e1, d);
    assert s1 == s.(w := s.w.(phase := Send));
    var s2 := s1.Next(e2);
    OneEvent(s1, e2, d);
    var s3 := s2.Next(e3);
    OneEvent(s2, e3, d);
    Onward(s, [e1], s1, [e2], s2, d);
    es := [e1] + [e2] + [e3];
    Onward(s, [e1] + [e2], s2, [e3], s3, d);
  }

  /** After the round in which a message led from `s` to `w`. */
  function Answered(s: Spot, w: World): Spot {
    s.(w := w.(ccid := w.ccid.(pending := false), card := w.card.(fsm := w.card.fsm.Tick(w.clock))),
       msgs := s.msgs + 1)
  }

  /** A message arrives at rest, is answered, and the round ends. */
  lemma MessageRound(s: Spot, msg: seq<byte>, pk: seq<byte>, d: nat) returns (es: seq<Event>, w: World)
    requires AtRest(s) && IsFrame(msg) && |msg| <= BUF_SIZE && |pk| <= MAX_SIGNATURE
    requires Declines(s.w.button, s.w.clock)
    ensures s.w.Enabled(Event(s.w.clock, Receive(msg, pk))) && w == s.w.Step(Event(s.w.clock, Receive(msg, pk)))
    ensures Trip(s, es, Answered(s, w), d) && AtRest(Answered(s, w))
    ensures es != [] && es[0] == Event(s.w.clock, Receive(msg, pk))
    ensures w.button == s.w.button && w.clock == s.w.clock
  {
    var e := Event(s.w.clock, Receive(msg, pk));
    w := s.w.Step(e);
    ReceiveFillsSlot(s.w, e);
    StepKeepsWellFormed(s.w, e);
    OneEvent(s, e, d);
    var s1 := s.(w := w, owed := true, msgs := s.msgs + 1);
    var s2 := s.(w := w.(phase := Poll, ccid := w.ccid.(pending := false)), msgs := s.msgs + 1);
    var es1 := AnswerSent(s1, d);
    Onward(s, [e], s1, es1, s2, d);
    var es2 := RoundCloses(s2, d);
    es := [e] + es1 + es2;
    Onward(s, [e] + es1, s2, es2, Answered(s, w), d);
  }

  lemma RoundCloses(s: Spot, d: nat) returns (es: seq<Event>)
    requires s.w.WellFormed() && s.w.phase == Poll && s.w.clock == s.tick
    requires s.w.button.poller.Outside? && Declines(s.w.button, s.w.clock)
    ensures Trip(s, es, s.(w := s.w.(phase := Usb, card := s.w.card.(fsm := s.w.card.fsm.Tick(s.w.clock)))), d)
  {
    var at := s.w.clock;
    var s1 := s.(w := s.w.(phase := Ticking));
    var es1 := PollDeclines(s, at, d);
    var es2 := TickEndsRound(s1, at, d);
    es := es1 + es2;
    Onward(s, es1, s1, es2, s.(w := s.w.(phase := Usb, card := s.w.card.(fsm := s.w.card.fsm.Tick(at)))), d);
  }

  /** The same of a command in a frame, said of the card. */
  lemma CommandRound(s: Spot, a: Short, d: nat) returns (es: seq<Event>, s': Spot, q: Request, o: Outcome)
    requires AtRest(s) && a.WellFormed() && s.w.ccid.powered && Declines(s.w.button, s.w.clock)
    ensures Trip(s, es, s', d) && AtRest(s') && s'.edges == s.edges && s'.msgs == s.msgs + 1
    ensures es != [] && es[0] == Event(s.w.clock, Receive(XfrFrame(0, Encode(a)), []))
    ensures s'.w.clock == s.w.clock && s'.w.button == s.w.button && s'.w.ccid.powered
    ensures Carries(q, a) && q.now == s.w.clock && o == ProcessApdu(s.w.card, q)
    ensures s'.w.card == o.card.(fsm := o.card.fsm.Tick(s.w.clock))
  {
    var msg := XfrFrame(0, Encode(a));
    var w;
    es, w := MessageRound(s, msg, [], d);
    q, o := CommandExecuted(s.w, Event(s.w.clock, Receive(msg, [])), w, 0, a);
    s' := Answered(s, w);
  }
}
