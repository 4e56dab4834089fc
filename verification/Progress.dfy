/**
 What a host can always bring about. The other modules say what every run keeps; here runs are built: the loop can
 always be driven to its next round, any message can be answered in it, and so the certificate can be fetched from
 any powered card with any Le values.
 */
module Progress {
  import opened Bytes
  import opened Events
  import opened Apdu
  import opened KeyStore
  import opened PivModel
  import opened CcidModel
  import opened Machine
  import opened Chaining
  import opened Objects
  import opened Host
  import opened Delivery
  import opened Reading
  import opened Transfers
  import Button

  /** A run with a lock-step host. */
  ghost predicate Lives(ws: seq<World>, es: seq<Event>) {
    IsRun(ws, es) && LockStep(ws, es)
  }

  /** The host is owed nothing, and the loop is about to serve USB. */
  ghost predicate Rests(ws: seq<World>, es: seq<Event>) {
    Lives(ws, es) && !Outstanding(Log(ws, es, |es|)) && ws[|es|].phase == Usb
  }

  ghost predicate Extends(ws: seq<World>, es: seq<Event>, ws': seq<World>, es': seq<Event>) {
    |es| <= |es'| && |ws| <= |ws'| && es'[..|es|] == es && ws'[..|ws|] == ws
  }

  lemma ExtendsOn(ws: seq<World>, es: seq<Event>, ws1: seq<World>, es1: seq<Event>, ws2: seq<World>, es2: seq<Event>)
    requires Extends(ws, es, ws1, es1) && Extends(ws1, es1, ws2, es2)
    ensures Extends(ws, es, ws2, es2)
  {
    assert es2[..|es|] == es2[..|es1|][..|es|] && ws2[..|ws|] == ws2[..|ws1|][..|ws|];
  }

  // ---- one event more ----

  lemma RunGrows(ws: seq<World>, es: seq<Event>, e: Event) returns (ws': seq<World>, es': seq<Event>)
    requires IsRun(ws, es) && ws[|es|].WellFormed() && ws[|es|].Enabled(e)
    ensures es' == es + [e] && ws' == ws + [ws[|es|].Step(e)] && IsRun(ws', es')
  {
    es', ws' := es + [e], ws + [ws[|es|].Step(e)];
    forall k | 0 <= k < |es'|
      ensures Steps(ws', es', k)
    {
      if k < |es| {
        assert Steps(ws, es, k);
      }
    }
  }

  /** The history so far does not depend on what comes later. */
  lemma {:induction false} LogOfPrefix(ws: seq<World>, es: seq<Event>, ws': seq<World>, es': seq<Event>, k: nat)
    requires IsRun(ws, es) && IsRun(ws', es') && Extends(ws, es, ws', es') && k <= |es|
    ensures Log(ws', es', k) == Log(ws, es, k)
  {
    if k == 0 {
    } else {
      LogOfPrefix(ws, es, ws', es', k - 1);
      LogGrowsBy(ws, es, k - 1);
      LogGrowsBy(ws', es', k - 1);
    }
  }

  lemma Extend(ws: seq<World>, es: seq<Event>, e: Event) returns (ws': seq<World>, es': seq<Event>)
    requires Lives(ws, es) && ws[|es|].WellFormed() && ws[|es|].Enabled(e)
    requires e.act.Receive? && IsFrame(e.act.msg) ==> !Outstanding(Log(ws, es, |es|))
    ensures Lives(ws', es') && es' == es + [e] && ws' == ws + [ws[|es|].Step(e)]
    ensures Log(ws', es', |es'|) == Log(ws, es, |es|) + SeesOf(ws[|es|], e)
  {
    ws', es' := RunGrows(ws, es, e);
    forall k | 0 <= k < |es'|
      ensures Waits(ws', es', k)
    {
      LogOfPrefix(ws, es, ws', es', k);
      if k < |es| {
        assert Waits(ws, es, k);
      }
    }
    LogOfPrefix(ws, es, ws', es', |es|);
    LogGrowsBy(ws', es', |es|);
  }

  // ---- one round of the loop ----

  /** The next micro-step of the poll; the pin is seen high. */
  function NextPoll(b: Button.State): (act: Action)
    ensures b.Enabled(act)
  {
    match b.poller
    case Outside => PollTest
    case Measuring(low, high, now) =>
      if low.None? then PollReadLow
      else if high.None? then PollReadHigh
      else if now.None? then PollReadNow
      else PollDecide
    case Clearing => PollClear
    case Confirming => PollPin(1)
  }

  /** How many micro-steps the poll can still take. */
  function PollRank(b: Button.State): nat {
    match b.poller
    case Outside => 7
    case Measuring(low, high, now) =>
      3 + (if low.None? then 1 else 0) + (if high.None? then 1 else 0) + (if now.None? then 1 else 0)
    case Clearing => 2
    case Confirming => 1
  }

  /** A micro-step brings the poll nearer to its end, whatever the interrupt has left in the flag. */
  lemma PollAdvances(w: World, e: Event)
    requires w.WellFormed() && w.phase == Poll && w.clock <= e.at && e.act == NextPoll(w.button)
    ensures w.Enabled(e) && SeesOf(w, e) == []
    ensures var w' := w.Step(e);
            w'.phase == Ticking || (w'.phase == Poll && PollRank(w'.button) < PollRank(w.button))
  {
  }

  ghost predicate QuietFrom(es: seq<Event>, a: nat) {
    forall m :: a <= m < |es| ==> IsQuiet(es[m])
  }

  /** How far a round is from its end. */
  function RoundRank(w: World): nat {
    if w.phase == Poll then 1 + PollRank(w.button) else 0
  }

  /** In the poll, or about to tick, with nothing owed. */
  ghost predicate InRound(ws: seq<World>, es: seq<Event>) {
    Lives(ws, es) && !Outstanding(Log(ws, es, |es|)) && (ws[|es|].phase == Poll || ws[|es|].phase == Ticking)
  }

  lemma PollGoesOn(ws: seq<World>, es: seq<Event>) returns (ws': seq<World>, es': seq<Event>)
    requires InRound(ws, es) && ws[|es|].phase == Poll
    ensures Extends(ws, es, ws', es') && InRound(ws', es') && RoundRank(ws'[|es'|]) < RoundRank(ws[|es|])
    ensures |es'| == |es| + 1 && IsQuiet(es'[|es|])
  {
    RunIsWellFormed(ws, es, |es|);
    var e := Event(ws[|es|].clock, NextPoll(ws[|es|].button));
    PollAdvances(ws[|es|], e);
    ws', es' := Extend(ws, es, e);
  }

  lemma RoundTicks(ws: seq<World>, es: seq<Event>) returns (ws': seq<World>, es': seq<Event>)
    requires InRound(ws, es) && ws[|es|].phase == Ticking
    ensures Extends(ws, es, ws', es') && Rests(ws', es') && QuietFrom(es', |es|)
  {
    RunIsWellFormed(ws, es, |es|);
    ws', es' := Extend(ws, es, Event(ws[|es|].clock, Tick));
  }

  lemma QuietJoins(es: seq<Event>, es1: seq<Event>, es2: seq<Event>)
    requires |es1| == |es| + 1 && IsQuiet(es1[|es|]) && QuietFrom(es2, |es1|) && es1 <= es2
    ensures QuietFrom(es2, |es|)
  {
    assert es2[|es|] == es1[|es|];
  }

  /** From the poll on, the loop can come round to USB, with nothing that the host would see. */
  lemma {:induction false} RoundEnds(ws: seq<World>, es: seq<Event>) returns (ws': seq<World>, es': seq<Event>)
    requires InRound(ws, es)
    ensures Extends(ws, es, ws', es') && Rests(ws', es') && QuietFrom(es', |es|)
    decreases RoundRank(ws[|es|])
  {
    if ws[|es|].phase == Ticking {
      ws', es' := RoundTicks(ws, es);
    } else {
      var ws1, es1 := PollGoesOn(ws, es);
      ws', es' := RoundEnds(ws1, es1);
      ExtendsOn(ws, es, ws1, es1, ws', es');
      QuietJoins(es, es1, es');
    }
  }

  // ---- one message and its answer ----

  /** A message puts its answer into the slot. */
  lemma ReceiveFillsSlot(w: World, e: Event)
    requires w.WellFormed() && w.Enabled(e) && e.act.Receive? && IsFrame(e.act.msg)
    ensures var w' := w.Step(e);
            w'.ccid.pending && w'.inFlight == w.inFlight && w'.phase == w.phase && w'.clock == e.at
  {
    MessageAnswered(w.ccid, w.card, Splice(w.rx, 0, e.act.msg), |e.act.msg|, e.at, e.act.pk);
  }

  /** The next two events: the USB stack returns, and the sender claims the endpoint. */
  lemma SenderClaims(w: World) returns (w1: World, w2: World)
    requires w.WellFormed() && w.phase == Usb && w.ccid.pending && w.inFlight.None?
    ensures var e1, e2 := Event(w.clock, UsbIdle), Event(w.clock, SendTask(true));
            && w.Enabled(e1) && SeesOf(w, e1) == [] && w1 == w.Step(e1)
            && w1.WellFormed() && w1.Enabled(e2) && SeesOf(w1, e2) == [] && w2 == w1.Step(e2)
    ensures w2.WellFormed() && w2.clock == w.clock && w2.phase == Poll && w2.inFlight.Some?
  {
    w1 := w.Step(Event(w.clock, UsbIdle));
    w2 := w1.Step(Event(w.clock, SendTask(true)));
  }

  /** Then the transfer completes. */
  lemma TransferEnds(w: World)
    requires w.WellFormed() && w.phase == Poll && w.inFlight.Some?
    ensures var e := Event(w.clock, SendDone);
            && w.Enabled(e) && |SeesOf(w, e)| == 1 && SeesOf(w, e)[0].Got? && w.Step(e).phase == Poll
  {
  }

  /** The four events of a message `msg` and its answer, from event `k` on. */
  ghost predicate Served(ws: seq<World>, es: seq<Event>, k: nat, msg: seq<byte>) {
    && |ws| == |es| + 1 && k + 4 == |es|
    && es[k].act.Receive? && es[k].act.msg == msg
    && IsQuiet(es[k + 1]) && IsQuiet(es[k + 2]) && es[k + 3].act == SendDone
    && ws[k + 3].inFlight.Some? && ws[k + 3].inFlight.value <= |ws[k + 3].ccid.tx|
  }

  lemma MessageArrives(ws: seq<World>, es: seq<Event>, msg: seq<byte>, pk: seq<byte>)
    returns (ws': seq<World>, es': seq<Event>)
    requires Rests(ws, es) && IsFrame(msg) && |msg| <= BUF_SIZE && |pk| <= MAX_SIGNATURE
    ensures Lives(ws', es') && Extends(ws, es, ws', es') && es' == es + [Event(ws[|es|].clock, Receive(msg, pk))]
    ensures var w := ws'[|es'|]; w.WellFormed() && w.phase == Usb && w.ccid.pending && w.inFlight.None?
  {
    var w, e := ws[|es|], Event(ws[|es|].clock, Receive(msg, pk));
    EveryMessageIsAnsweredOnce(ws, es, |es|);
    ReceiveFillsSlot(w, e);
    ws', es' := Extend(ws, es, e);
    RunIsWellFormed(ws', es', |es'|);
  }

  lemma AnswerGoesOut(ws: seq<World>, es: seq<Event>) returns (ws': seq<World>, es': seq<Event>)
    requires Lives(ws, es)
    requires var w := ws[|es|]; w.WellFormed() && w.phase == Usb && w.ccid.pending && w.inFlight.None?
    ensures Lives(ws', es') && Extends(ws, es, ws', es') && |es'| == |es| + 3
    ensures IsQuiet(es'[|es|]) && IsQuiet(es'[|es| + 1]) && es'[|es| + 2].act == SendDone
    ensures ws'[|es| + 2].inFlight.Some? && ws'[|es'|].phase == Poll && !Outstanding(Log(ws', es', |es'|))
  {
    var ws1, es1 := AnswerIsTaken(ws, es);
    TransferEnds(ws1[|es1|]);
    ws', es' := Extend(ws1, es1, Event(ws1[|es1|].clock, SendDone));
  }

  lemma AnswerIsTaken(ws: seq<World>, es: seq<Event>) returns (ws': seq<World>, es': seq<Event>)
    requires Lives(ws, es)
    requires var w := ws[|es|]; w.WellFormed() && w.phase == Usb && w.ccid.pending && w.inFlight.None?
    ensures Lives(ws', es') && Extends(ws, es, ws', es') && |es'| == |es| + 2
    ensures IsQuiet(es'[|es|]) && IsQuiet(es'[|es| + 1])
    ensures var w := ws'[|es'|]; w.WellFormed() && w.phase == Poll && w.inFlight.Some?
  {
    var w1, w2 := SenderClaims(ws[|es|]);
    ws', es' := Extend(ws, es, Event(ws[|es|].clock, UsbIdle));
    ws', es' := Extend(ws', es', Event(ws[|es|].clock, SendTask(true)));
  }

  lemma MessageIsServed(ws: seq<World>, es: seq<Event>, msg: seq<byte>, pk: seq<byte>)
    returns (ws': seq<World>, es': seq<Event>)
    requires Rests(ws, es) && IsFrame(msg) && |msg| <= BUF_SIZE && |pk| <= MAX_SIGNATURE
    ensures Lives(ws', es') && Extends(ws, es, ws', es') && Served(ws', es', |es|, msg) && es'[|es|].act.pk == pk
    ensures ws'[|es'|].phase == Poll && !Outstanding(Log(ws', es', |es'|))
  {
    var ws1, es1 := MessageArrives(ws, es, msg, pk);
    ws', es' := AnswerGoesOut(ws1, es1);
    ExtendsOn(ws, es, ws1, es1, ws', es');
    RunIsWellFormed(ws', es', |es| + 3);
    assert es'[|es|] == es1[|es|];
  }

  /** Whenever the host is owed nothing it can have any message answered, and is then owed nothing again. */
  lemma MessageCanBeAnswered(ws: seq<World>, es: seq<Event>, msg: seq<byte>, pk: seq<byte>)
    returns (ws': seq<World>, es': seq<Event>)
    requires Rests(ws, es) && IsFrame(msg) && |msg| <= BUF_SIZE && |pk| <= MAX_SIGNATURE
    ensures Extends(ws, es, ws', es') && Rests(ws', es')
    ensures |es| + 4 <= |es'| && QuietFrom(es', |es| + 4)
    ensures Served(ws'[..|es| + 5], es'[..|es| + 4], |es|, msg) && es'[|es|].act.pk == pk
  {
    var ws1, es1 := MessageIsServed(ws, es, msg, pk);
    ws', es' := RoundEnds(ws1, es1);
    ExtendsOn(ws, es, ws1, es1, ws', es');
    assert ws'[..|es| + 5] == ws1 && es'[..|es| + 4] == es1 && es'[|es|] == es1[|es|];
  }

  // ---- a command in a frame ----

  lemma ServedIsTransfer(ws: seq<World>, es: seq<Event>, k: nat, bSeq: byte, a: Short)
    requires a.WellFormed() && Served(ws, es, k, XfrFrame(bSeq, Encode(a)))
    ensures IsTransfer(ws, es, Transfer(k, k + 3, bSeq), a)
  {
  }

  lemma TransferStays(ws: seq<World>, es: seq<Event>, ws': seq<World>, es': seq<Event>, t: Transfer, a: Short)
    requires |ws| == |es| + 1 && |ws'| == |es'| + 1 && Extends(ws, es, ws', es') && IsTransfer(ws, es, t, a)
    ensures IsTransfer(ws', es', t, a)
  {
    assert es'[t.sent] == es[t.sent] && es'[t.got] == es[t.got] && ws'[t.got] == ws[t.got];
    forall m | t.sent < m < t.got
      ensures IsQuiet(es'[m])
    {
      assert es'[m] == es[m];
    }
  }

  lemma CommandCanBeSent(ws: seq<World>, es: seq<Event>, a: Short, bSeq: byte, pk: seq<byte>)
    returns (ws': seq<World>, es': seq<Event>, t: Transfer)
    requires Rests(ws, es) && a.WellFormed() && |pk| <= MAX_SIGNATURE
    ensures Extends(ws, es, ws', es') && Rests(ws', es') && |ws'| == |es'| + 1
    ensures t == Transfer(|es|, |es| + 3, bSeq) && IsTransfer(ws', es', t, a) && QuietFrom(es', t.got + 1)
    ensures es'[t.sent].act.pk == pk
  {
    var msg := XfrFrame(bSeq, Encode(a));
    ws', es' := MessageCanBeAnswered(ws, es, msg, pk);
    t := Transfer(|es|, |es| + 3, bSeq);
    ServedIsTransfer(ws'[..|es| + 5], es'[..|es| + 4], |es|, bSeq, a);
    TransferStays(ws'[..|es| + 5], es'[..|es| + 4], ws', es', t, a);
  }

  // ---- a whole fetch ----

  /** The first `n` transfers of a fetch are done, and since the last one all is quiet. */
  ghost predicate Done(ws: seq<World>, es: seq<Event>, ts: seq<Transfer>, les: seq<Option<nat>>, n: nat) {
    && |ws| == |es| + 1 && |ts| == n <= |les|
    && (forall j :: 0 <= j < n ==> IsTransfer(ws, es, ts[j], CommandAt(les, j)))
    && (forall j :: 1 <= j < n ==> Follows(es, ts, j))
    && (n > 0 ==> QuietFrom(es, ts[n - 1].got + 1))
  }

  lemma DoneGrows(ws: seq<World>, es: seq<Event>, ws': seq<World>, es': seq<Event>, ts: seq<Transfer>,
                  les: seq<Option<nat>>, n: nat, t: Transfer)
    requires Done(ws, es, ts, les, n) && n < |les| && |ws'| == |es'| + 1 && Extends(ws, es, ws', es')
    requires t.sent == |es| && IsTransfer(ws', es', t, CommandAt(les, n)) && QuietFrom(es', t.got + 1)
    ensures Done(ws', es', ts + [t], les, n + 1)
  {
    var ts' := ts + [t];
    forall j | 0 <= j < n + 1
      ensures IsTransfer(ws', es', ts'[j], CommandAt(les, j))
    {
      if j < n {
        TransferStays(ws, es, ws', es', ts[j], CommandAt(les, j));
      }
    }
    forall j | 1 <= j < n + 1
      ensures Follows(es', ts', j)
    {
      FollowsOn(es, es', ts, t, j);
    }
  }

  lemma FollowsOn(es: seq<Event>, es': seq<Event>, ts: seq<Transfer>, t: Transfer, j: nat)
    requires |es| < |es'| && es'[..|es|] == es && t.sent == |es| && 1 <= j <= |ts|
    requires j < |ts| ==> Follows(es, ts, j)
    requires j == |ts| ==> ts[j - 1].got < |es| && QuietFrom(es, ts[j - 1].got + 1)
    ensures Follows(es', ts + [t], j)
  {
    var ts' := ts + [t];
    assert ts'[j].sent <= |es|;
    forall m | ts'[j - 1].got < m < ts'[j].sent
      ensures IsQuiet(es'[m])
    {
      assert es'[m] == es[m];
    }
  }

  lemma NextCommandCanBeSent(ws: seq<World>, es: seq<Event>, ts: seq<Transfer>, les: seq<Option<nat>>, n: nat)
    returns (ws': seq<World>, es': seq<Event>, ts': seq<Transfer>)
    requires Rests(ws, es) && Done(ws, es, ts, les, n) && n < |les| && IsLe(les[n])
    ensures Extends(ws, es, ws', es') && Rests(ws', es') && Done(ws', es', ts', les, n + 1)
    ensures |ts'| == n + 1 && ts' == ts + [Transfer(|es|, |es| + 3, 0)]
  {
    var t;
    ws', es', t := CommandCanBeSent(ws, es, CommandAt(les, n), 0, []);
    DoneGrows(ws, es, ws', es', ts, les, n, t);
    ts' := ts + [t];
  }

  lemma {:induction false} CommandsCanBeSent(ws: seq<World>, es: seq<Event>, les: seq<Option<nat>>, n: nat)
    returns (ws': seq<World>, es': seq<Event>, ts: seq<Transfer>)
    requires Rests(ws, es) && n <= |les| && forall j :: 0 <= j < |les| ==> IsLe(les[j])
    ensures Extends(ws, es, ws', es') && Rests(ws', es') && Done(ws', es', ts, les, n)
    ensures |ts| == n && if n == 0 then es' == es else ts[0].sent == |es|
  {
    if n == 0 {
      ws', es', ts := ws, es, [];
    } else {
      var ws1, es1, ts1 := CommandsCanBeSent(ws, es, les, n - 1);
      ws', es', ts := NextCommandCanBeSent(ws1, es1, ts1, les, n - 1);
      ExtendsOn(ws, es, ws1, es1, ws', es');
    }
  }

  /** From every powered card whose host is owed nothing, any fetch can be carried out. */
  lemma FetchIsPossible(ws: seq<World>, es: seq<Event>, les: seq<Option<nat>>)
    returns (ws': seq<World>, es': seq<Event>, ts: seq<Transfer>)
    requires Rests(ws, es) && ws[|es|].ccid.powered && |les| >= 2 && forall j :: 0 <= j < |les| ==> IsLe(les[j])
    ensures Extends(ws, es, ws', es') && Rests(ws', es') && IsFetch(ws', es', ts, les)
  {
    ws', es', ts := CommandsCanBeSent(ws, es, les, |les|);
    forall j | 0 <= j < |ts|
      ensures TransferAt(ws', es', ts, les, j)
    {
    }
    assert ws'[|es|] == ws[|es|];
  }

  /** A host whose Le values add up to the object only with the last command does not see 9000 before. */
  lemma {:induction false} NotFinalBefore(cards: seq<Card>, qs: seq<Request>, outs: seq<Outcome>,
                                          les: seq<Option<nat>>, obj: seq<byte>, replies: seq<seq<byte>>, i: nat)
    requires IsReading(cards, qs, outs, les, obj) && replies == RepliesOf(outs)
    requires Asked(les, |les| - 1) < |obj| && 1 <= i <= |replies| - 1
    ensures forall m :: 1 <= m < i ==> !IsFinal(replies[m])
  {
    if i == 1 {
    } else {
      NotFinalBefore(cards, qs, outs, les, obj, replies, i - 1);
      ReadingProgress(cards, qs, outs, les, obj, i, replies);
      AskedGrows(les, i, |les| - 1);
    }
  }

  lemma {:induction false} AskedGrows(les: seq<Option<nat>>, i: nat, j: nat)
    requires 1 <= i <= j <= |les|
    ensures Asked(les, i) <= Asked(les, j)
  {
    if i == j {
    } else {
      AskedGrows(les, i, j - 1);
    }
  }

  lemma FetchGoesThrough(ws: seq<World>, es: seq<Event>, ts: seq<Transfer>, les: seq<Option<nat>>,
                         replies: seq<seq<byte>>, obj: seq<byte>)
    returns (card: Card)
    requires Lives(ws, es) && IsFetch(ws, es, ts, les) && replies == RepliesGot(ws, ts)
    requires ws[0].card.vault.initialized && ws[0].card.vault.cert != []
    requires obj == CertObject(ws[0].card.vault.cert) && Asked(les, |les| - 1) < |obj|
    ensures HasRead(card, replies[|les| - 1], Gathered(replies, |les|), obj, Asked(les, |les|))
  {
    var cards, qs, outs := FetchIsReading(ws, es, ts, les, replies);
    NotFinalBefore(cards, qs, outs, les, obj, replies, |les| - 1);
    ReadingProgress(cards, qs, outs, les, obj, |les|, replies);
    card := cards[|les|];
  }

  /** Who has read all of a certificate object has the certificate. */
  lemma ReadAll(card: Card, reply: seq<byte>, got: seq<byte>, cert: seq<byte>, asked: nat)
    requires |cert| <= MAX_CERT_LEN && HasRead(card, reply, got, CertObject(cert), asked)
    requires |CertObject(cert)| <= asked
    ensures IsFinal(reply) && ReadCertificate(got) == Some(cert)
  {
    WholePrefix(CertObject(cert), got);
    CertificateRoundTrip(cert);
  }

  /**
   In every run with a lock-step host that is owed nothing, with a powered slot and a certificate in the store: for
   any Le values of which exactly all are needed, the host can go on so that it ends up with the certificate.
   */
  lemma CertificateCanBeFetched(ws: seq<World>, es: seq<Event>, les: seq<Option<nat>>)
    returns (ws': seq<World>, es': seq<Event>, ts: seq<Transfer>, replies: seq<seq<byte>>)
    requires Rests(ws, es) && ws[|es|].ccid.powered && |les| >= 2 && forall j :: 0 <= j < |les| ==> IsLe(les[j])
    requires ws[0].card.vault.initialized && ws[0].card.vault.cert != []
    requires Asked(les, |les| - 1) < |CertObject(ws[0].card.vault.cert)| <= Asked(les, |les|)
    ensures Extends(ws, es, ws', es') && Rests(ws', es') && IsFetch(ws', es', ts, les)
    ensures replies == RepliesGot(ws', ts) && IsFinal(replies[|les| - 1])
    ensures ReadCertificate(Gathered(replies, |les|)) == Some(ws[0].card.vault.cert)
  {
    ws', es', ts := FetchIsPossible(ws, es, les);
    assert ws'[0] == ws[0];
    var cert := ws[0].card.vault.cert;
    replies := RepliesGot(ws', ts);
    var card := FetchGoesThrough(ws', es', ts, les, replies, CertObject(cert));
    ReadAll(card, replies[|les| - 1], Gathered(replies, |les|), cert, Asked(les, |les|));
  }

  // ---- from power-up ----

  /** From boot, one IccPowerOn leads to a powered card whose host is owed nothing. */
  lemma PowerUp(v: Vault) returns (ws: seq<World>, es: seq<Event>)
    requires IsBootVault(v)
    ensures Rests(ws, es) && ws[|es|].ccid.powered && ws[0] == Boot(v)
  {
    var msg := [0x62, 0x00, 0x00, 0x00, 0x00, 0x00, 0x00, 0x00, 0x00, 0x00];
    ws, es := MessageCanBeAnswered([Boot(v)], [], msg, []);
    PowerOnPowers(ws, es, msg);
  }

  lemma PowerOnPowers(ws: seq<World>, es: seq<Event>, msg: seq<byte>)
    requires Lives(ws, es) && |es| >= 4 && Served(ws[..5], es[..4], 0, msg) && QuietFrom(es, 4)
    requires IsFrame(msg) && msg[0] == 0x62
    ensures ws[|es|].ccid.powered
  {
    assert Steps(ws, es, 0);
    assert es[0] == es[..4][0] && es[1] == es[..4][1] && es[2] == es[..4][2] && es[3] == es[..4][3];
    QuietInterval(ws, es, 1, |es|);
    var rx := Splice(ws[0].rx, 0, msg);
    MessageAnswered(ws[0].ccid, ws[0].card, rx, |msg|, es[0].at, es[0].act.pk);
    assert rx[..|msg|] == msg;
  }

  /** Every certificate in the store at boot can be fetched, with any Le values of which exactly all are needed. */
  lemma FetchFromBoot(v: Vault, les: seq<Option<nat>>)
    returns (ws: seq<World>, es: seq<Event>, ts: seq<Transfer>, replies: seq<seq<byte>>)
    requires IsBootVault(v) && v.initialized && v.cert != []
    requires |les| >= 2 && forall j :: 0 <= j < |les| ==> IsLe(les[j])
    requires Asked(les, |les| - 1) < |CertObject(v.cert)| <= Asked(les, |les|)
    ensures Lives(ws, es) && ws[0] == Boot(v) && IsFetch(ws, es, ts, les)
    ensures replies == RepliesGot(ws, ts) && ReadCertificate(Gathered(replies, |les|)) == Some(v.cert)
  {
    ws, es := PowerUp(v);
    assert ws[0].card.vault == v;
    ghost var first := ws[0];
    ws, es, ts, replies := CertificateCanBeFetched(ws, es, les);
    assert ws[0] == first;
  }
}
