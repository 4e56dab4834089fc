/**
 The bulk pipe as a host sees it that waits for each answer before it sends the next message: exactly one answer to
 each message, in order, whatever the endpoint delays and whichever outstanding messages a bus reset abandons.
 */
module Host {
  import opened Bytes
  import opened Events
  import opened KeyStore
  import opened PivModel
  import opened CcidModel
  import opened Machine
  import opened Replies

  // ---- what an answer has to look like ----

  /** The response type of each command type (USB CCID Rev 1.1, sections 6.1 and 6.2). */
  function ResponseType(t: byte): byte {
    if t == 0x62 || t == 0x6F then 0x80
    else if t == 0x61 then 0x82
    else if t == 0x73 then 0x84
    else 0x81
  }

  predicate IsSupported(t: byte) {
    t in {0x62, 0x63, 0x65, 0x6F, 0x72, 0x61, 0x73}
  }

  /** dwLength, low octet first. */
  function LengthField(m: seq<byte>): nat
    requires IsFrame(m)
  {
    m[1] as int + 0x100 * m[2] as int + 0x1_0000 * m[3] as int + 0x100_0000 * m[4] as int
  }

  lemma LengthFieldIs(m: seq<byte>)
    requires IsFrame(m)
    ensures LengthField(m) == DwLength(m)
  {
    assert m[1..5][..2] == [m[1], m[2]] && m[1..5][2..] == [m[3], m[4]];
  }

  /** Commands answered with a failure: unknown ones, and transfers to an unpowered slot or of an impossible length. */
  predicate IsRefused(m: seq<byte>, powered: bool)
    requires IsFrame(m)
  {
    || !IsSupported(m[0])
    || (m[0] == 0x6F &&
        (!powered || LengthField(m) == 0 || (10 + LengthField(m)) % 0x1_0000_0000 > |m|))
  }

  function PoweredBy(m: seq<byte>, powered: bool): bool
    requires IsFrame(m)
  {
    if m[0] == 0x62 then true else if m[0] == 0x63 then false else powered
  }

  /** bStatus: whether the command failed, and for a slot response whether the card is then without power. */
  function StatusOctet(m: seq<byte>, powered: bool): byte
    requires IsFrame(m)
  {
    (if IsRefused(m, powered) then 0x40 else 0x00)
    + (if ResponseType(m[0]) in {0x80, 0x81} && !PoweredBy(m, powered) then 0x01 else 0x00)
  }

  /** The octets behind the header: the ATR, the applet's reply, or what the host had sent. */
  predicate BodyAnswers(m: seq<byte>, body: seq<byte>, refused: bool)
    requires IsFrame(m)
  {
    var n := LengthField(m);
    if m[0] == 0x62 then body == [0x3B, 0x10, 0x01, 0x11]
    else if m[0] == 0x6F then if refused then body == [] else 2 <= |body| <= 261
    else if m[0] == 0x61 then |body| == (if n > 502 then 0 else n) && (10 + n <= |m| ==> body == m[10..10 + n])
    else if m[0] == 0x73 then
      body == if 8 <= n && 18 <= |m| then m[10..18] else [0xFC, 0x0D, 0x00, 0x00, 0xCD, 0x25, 0x00, 0x00]
    else body == []
  }

  /** `b` answers `m`, sent while the slot was `powered`. */
  predicate Answers(m: seq<byte>, b: seq<byte>, powered: bool)
    requires IsFrame(m)
  {
    && 10 <= |b| <= 512
    && b[0] == ResponseType(m[0]) && LengthField(b) == |b| - 10
    && b[5] == 0x00 && b[6] == m[6]
    && b[7] == StatusOctet(m, powered)
    && b[8] == (if m[0] == 0x6F && IsRefused(m, powered) then 0x01 else 0x00)
    && b[9] == (if m[0] == 0x61 then m[9] else 0x00)
    && BodyAnswers(m, b[10..], IsRefused(m, powered))
  }

  // ---- the dispatcher answers ----

  lemma HeaderFields(mtype: byte, n: nat, bSeq: byte, s0: byte, s1: byte, s2: byte, body: seq<byte>)
    requires n == |body| < 0x1_0000_0000
    ensures var b := Header(mtype, n, bSeq, s0, s1, s2) + body;
            && IsFrame(b) && b[0] == mtype && LengthField(b) == n && b[5] == 0 && b[6] == bSeq
            && b[7] == s0 && b[8] == s1 && b[9] == s2 && b[10..] == body
  {
    var b := Header(mtype, n, bSeq, s0, s1, s2) + body;
    assert b[1..5] == Le32(n);
    Le32RoundTrip(n);
    LengthFieldIs(b);
  }

  /** What a response leaves in the transmit buffer is the response. */
  lemma ResponseIsInBuffer(c: Ccid, frame: seq<byte>)
    requires c.WellFormed() && |frame| <= BUF_SIZE
    ensures c.Respond(frame).tx[..c.Respond(frame).responseLen] == frame
  {
  }

  /** From `c` to `c'` the message `m` was answered: the answer waits in the transmit buffer. */
  ghost predicate AnswerPending(c: Ccid, c': Ccid, m: seq<byte>)
    requires IsFrame(m)
  {
    && c'.WellFormed() && c'.pending && c'.powered == PoweredBy(m, c.powered)
    && Answers(m, c'.tx[..c'.responseLen], c.powered)
  }

  /** A response with the right fields and body answers the message. */
  lemma FrameAnswers(c: Ccid, c': Ccid, m: seq<byte>, s1: byte, s2: byte, body: seq<byte>)
    requires c'.WellFormed() && IsFrame(m) && HEADER_LEN + |body| <= BUF_SIZE
    requires c'.powered == PoweredBy(m, c.powered)
    requires s1 == if m[0] == 0x6F && IsRefused(m, c.powered) then 0x01 else 0x00
    requires s2 == if m[0] == 0x61 then m[9] else 0x00
    requires BodyAnswers(m, body, IsRefused(m, c.powered))
    ensures var frame := Header(ResponseType(m[0]), |body|, m[6], StatusOctet(m, c.powered), s1, s2) + body;
            |frame| <= BUF_SIZE && AnswerPending(c, c'.Respond(frame), m)
  {
    HeaderFields(ResponseType(m[0]), |body|, m[6], StatusOctet(m, c.powered), s1, s2, body);
    ResponseIsInBuffer(c', Header(ResponseType(m[0]), |body|, m[6], StatusOctet(m, c.powered), s1, s2) + body);
  }

  /** The first `n` octets of the buffer as a message. */
  lemma MessageFields(rx: seq<byte>, n: nat)
    requires |rx| == BUF_SIZE && HEADER_LEN <= n <= BUF_SIZE
    ensures IsFrame(rx[..n]) && MessageType(rx) == rx[..n][0] && SeqNumber(rx) == rx[..n][6] && rx[9] == rx[..n][9]
    ensures DwLength(rx) == LengthField(rx[..n])
  {
    assert rx[..n][1..5] == rx[1..5];
    LengthFieldIs(rx[..n]);
  }

  lemma TransferAnswered(c: Ccid, card: Card, rx: seq<byte>, n: nat, now: nat, pk: seq<byte>)
    requires c.WellFormed() && card.WellFormed() && |rx| == BUF_SIZE && HEADER_LEN <= n <= BUF_SIZE
    requires |pk| <= MAX_SIGNATURE && rx[0] == 0x6F
    ensures AnswerPending(c, XfrBlock(c, card, rx, n, now, pk).ccid, rx[..n])
  {
    MessageFields(rx, n);
    if !c.powered || !XfrLengthAccepted(DwLength(rx), n) {
      FrameAnswers(c, c, rx[..n], 0x01, 0, []);
    } else {
      var q := XfrRequest(rx, now, pk);
      ReplyShape(card, q);
      FrameAnswers(c, c, rx[..n], 0, 0, ProcessApdu(card, q).reply);
    }
  }

  /** The parameters come back if the message holds them. */
  lemma ParametersAnswer(c: Ccid, rx: seq<byte>, n: nat)
    requires c.WellFormed() && |rx| == BUF_SIZE && HEADER_LEN <= n <= BUF_SIZE && rx[0] == 0x61
    ensures BodyAnswers(rx[..n], ParametersBody(c, rx, n), false)
  {
    MessageFields(rx, n);
    var len := DwLength(rx);
    if HEADER_LEN + len <= n {
      assert rx[..n][10..10 + len] == rx[10..10 + len];
    }
  }

  /** So does the data rate; otherwise it is the default. */
  lemma DataRateAnswers(rx: seq<byte>, n: nat)
    requires |rx| == BUF_SIZE && HEADER_LEN <= n <= BUF_SIZE && rx[0] == 0x73
    ensures BodyAnswers(rx[..n], DataRateBody(rx, n), false)
  {
    MessageFields(rx, n);
    if 18 <= n {
      assert rx[..n][10..18] == rx[10..18];
    }
    assert Le32(0x0DFC) == [0xFC, 0x0D, 0x00, 0x00] && Le32(0x25CD) == [0xCD, 0x25, 0x00, 0x00];
  }

  lemma EchoStatus(m: seq<byte>, powered: bool)
    requires IsFrame(m) && (m[0] == 0x61 || m[0] == 0x73)
    ensures StatusOctet(m, powered) == 0x00 && !IsRefused(m, powered) && PoweredBy(m, powered) == powered
    ensures ResponseType(m[0]) == if m[0] == 0x61 then 0x82 else 0x84
  {
  }

  lemma EchoFrame(c: Ccid, rx: seq<byte>, n: nat, m: seq<byte>) returns (body: seq<byte>, s2: byte)
    requires c.WellFormed() && |rx| == BUF_SIZE && HEADER_LEN <= n <= BUF_SIZE
    requires rx[0] == 0x61 || rx[0] == 0x73
    requires m == rx[..n]
    ensures HEADER_LEN + |body| <= BUF_SIZE && BodyAnswers(m, body, false) && s2 == if m[0] == 0x61 then m[9] else 0
    ensures Echo(c, rx, n) == c.Respond(Header(if m[0] == 0x61 then 0x82 else 0x84, |body|, m[6], 0, 0, s2) + body)
  {
    MessageFields(rx, n);
    if rx[0] == 0x61 {
      ParametersAnswer(c, rx, n);
      body, s2 := ParametersBody(c, rx, n), rx[9];
    } else {
      DataRateAnswers(rx, n);
      body, s2 := DataRateBody(rx, n), 0;
    }
  }

  lemma EchoAnswered(c: Ccid, rx: seq<byte>, n: nat, m: seq<byte>)
    requires c.WellFormed() && |rx| == BUF_SIZE && HEADER_LEN <= n <= BUF_SIZE
    requires rx[0] == 0x61 || rx[0] == 0x73
    requires m == rx[..n]
    ensures AnswerPending(c, Echo(c, rx, n), m)
  {
    var body, s2 := EchoFrame(c, rx, n, m);
    EchoStatus(m, c.powered);
    FrameAnswers(c, c, m, 0, s2, body);
  }

  lemma SlotCommandFrame(c: Ccid, rx: seq<byte>, m: seq<byte>) returns (c': Ccid, body: seq<byte>)
    requires c.WellFormed() && |rx| == BUF_SIZE && rx[0] !in {0x6F, 0x61, 0x73}
    requires IsFrame(m) && m[0] == rx[0] && m[6] == rx[6]
    ensures c' == c.(powered := PoweredBy(m, c.powered)) && |body| <= 4
    ensures BodyAnswers(m, body, IsRefused(m, c.powered))
    ensures SlotCommand(c, rx) ==
            c'.Respond(Header(ResponseType(m[0]), |body|, m[6], StatusOctet(m, c.powered), 0, 0) + body)
  {
    c' := c.(powered := PoweredBy(m, c.powered));
    body := if rx[0] == 0x62 then [0x3B, 0x10, 0x01, 0x11] else [];
    var header := Header(0x81, 0, m[6], StatusOctet(m, c.powered), 0, 0);
    assert header + [] == header;
  }

  lemma SlotCommandAnswered(c: Ccid, rx: seq<byte>, n: nat)
    requires c.WellFormed() && |rx| == BUF_SIZE && HEADER_LEN <= n <= BUF_SIZE
    requires rx[0] !in {0x6F, 0x61, 0x73}
    ensures AnswerPending(c, SlotCommand(c, rx), rx[..n])
  {
    MessageFields(rx, n);
    var c', body := SlotCommandFrame(c, rx, rx[..n]);
    FrameAnswers(c, c', rx[..n], 0, 0, body);
  }

  /** One message of at least ten octets, one pending answer. */
  lemma MessageAnswered(c: Ccid, card: Card, rx: seq<byte>, n: nat, now: nat, pk: seq<byte>)
    requires c.WellFormed() && card.WellFormed() && |rx| == BUF_SIZE && HEADER_LEN <= n <= BUF_SIZE
    requires |pk| <= MAX_SIGNATURE
    ensures AnswerPending(c, ProcessMessage(c, card, rx, n, now, pk).ccid, rx[..n])
  {
    if rx[0] == 0x6F {
      TransferAnswered(c, card, rx, n, now, pk);
    } else if rx[0] == 0x61 || rx[0] == 0x73 {
      EchoAnswered(c, rx, n, rx[..n]);
    } else {
      SlotCommandAnswered(c, rx, n);
    }
  }

  // ---- the host's view of a run ----

  datatype Seen = Sent(msg: seq<byte>) | Got(frame: seq<byte>) | Abandoned

  /** What the host sees of one event; octets short of a header are not a message. */
  function SeesOf(w: World, e: Event): seq<Seen>
    requires w.WellFormed() && w.Enabled(e)
  {
    match e.act
    case Receive(msg, _) => if IsFrame(msg) then [Sent(msg)] else []
    case SendDone => [Got(w.ccid.tx[..w.inFlight.value])]
    case BusReset => [Abandoned]
    case _ => []
  }

  ghost function Log(ws: seq<World>, es: seq<Event>, k: nat): seq<Seen>
    requires IsRun(ws, es) && k <= |es|
  {
    if k == 0 then []
    else
      assert Steps(ws, es, k - 1);
      Log(ws, es, k - 1) + SeesOf(ws[k - 1], es[k - 1])
  }

  predicate Outstanding(log: seq<Seen>) {
    log != [] && log[|log| - 1].Sent?
  }

  /** The host waits for the answer, or for a reset, before it sends the next message. */
  ghost predicate LockStep(ws: seq<World>, es: seq<Event>)
    requires IsRun(ws, es)
  {
    forall k :: 0 <= k < |es| ==> Waits(ws, es, k)
  }

  ghost predicate Waits(ws: seq<World>, es: seq<Event>, k: nat)
    requires IsRun(ws, es) && k < |es|
  {
    es[k].act.Receive? && IsFrame(es[k].act.msg) ==> !Outstanding(Log(ws, es, k))
  }

  function PoweredBySeen(s: Seen, before: bool): bool {
    match s
    case Sent(m) => if IsFrame(m) then PoweredBy(m, before) else before
    case Got(_) => before
    case Abandoned => false
  }

  /** The slot's power state as the history on the wire has it. */
  function PoweredAfter(log: seq<Seen>): bool {
    if log == [] then false else PoweredBySeen(log[|log| - 1], PoweredAfter(log[..|log| - 1]))
  }

  /** Every answer comes directly behind the message it answers, and every message is answered or abandoned next. */
  ghost predicate IsDialogue(log: seq<Seen>) {
    forall i :: 0 <= i < |log| ==> InDialogue(log, i)
  }

  ghost predicate InDialogue(log: seq<Seen>, i: nat)
    requires i < |log|
  {
    && (log[i].Got? ==>
          i > 0 && log[i - 1].Sent? && IsFrame(log[i - 1].msg)
          && Answers(log[i - 1].msg, log[i].frame, PoweredAfter(log[..i - 1])))
    && (log[i].Sent? && i + 1 < |log| ==> !log[i + 1].Sent?)
  }

  /** `frame` answers the message outstanding after `log`. */
  ghost predicate AnswersOutstanding(log: seq<Seen>, frame: seq<byte>) {
    && Outstanding(log)
    && IsFrame(log[|log| - 1].msg)
    && Answers(log[|log| - 1].msg, frame, PoweredAfter(log[..|log| - 1]))
  }

  /** The answer to the outstanding message waits in the buffer or is on its way; otherwise nothing does. */
  ghost predicate SlotInv(w: World, log: seq<Seen>) {
    && w.WellFormed() && w.ccid.powered == PoweredAfter(log)
    && (if Outstanding(log)
        then
          && AnswersOutstanding(log, w.ccid.tx[..w.ccid.responseLen])
          && (if w.ccid.pending then w.inFlight.None? else w.inFlight == Some(w.ccid.responseLen))
        else
          !w.ccid.pending && w.inFlight.None?)
  }

  lemma LogGrows(log: seq<Seen>, s: Seen)
    ensures (log + [s])[..|log|] == log
    ensures PoweredAfter(log + [s]) == PoweredBySeen(s, PoweredAfter(log))
  {
    assert (log + [s])[..|log|] == log;
  }

  /** A message arrives at an idle pipe. */
  lemma SentStep(w: World, e: Event, log: seq<Seen>)
    requires w.WellFormed() && w.Enabled(e) && SlotInv(w, log)
    requires e.act.Receive? && IsFrame(e.act.msg) && !Outstanding(log)
    ensures SlotInv(w.Step(e), log + [Sent(e.act.msg)])
  {
    var msg := e.act.msg;
    var rx := Splice(w.rx, 0, msg);
    LogGrows(log, Sent(msg));
    assert rx[..|msg|] == msg;
    StepKeepsWellFormed(w, e);
    MessageAnswered(w.ccid, w.card, rx, |msg|, e.at, e.act.pk);
  }

  /** Steps the host does not see leave the response alone; at most the sender hands it to the endpoint. */
  lemma UnseenStep(w: World, e: Event)
    requires w.WellFormed() && w.Enabled(e) && SeesOf(w, e) == []
    ensures var w' := w.Step(e);
            && w'.ccid.tx == w.ccid.tx && w'.ccid.responseLen == w.ccid.responseLen
            && w'.ccid.powered == w.ccid.powered
            && (|| (w'.ccid.pending == w.ccid.pending && w'.inFlight == w.inFlight)
                || (w.ccid.pending && w.inFlight.None? && !w'.ccid.pending
                    && w'.inFlight == Some(w.ccid.responseLen)))
  {
  }

  lemma UnseenKeepsSlot(w: World, e: Event, log: seq<Seen>)
    requires w.WellFormed() && w.Enabled(e) && SlotInv(w, log) && SeesOf(w, e) == []
    ensures SlotInv(w.Step(e), log)
  {
    StepKeepsWellFormed(w, e);
    UnseenStep(w, e);
  }

  /** The transfer of an answer completes. */
  lemma GotStep(w: World, e: Event, log: seq<Seen>)
    requires w.WellFormed() && w.Enabled(e) && SlotInv(w, log) && e.act == SendDone
    ensures AnswersOutstanding(log, w.ccid.tx[..w.inFlight.value])
    ensures SlotInv(w.Step(e), log + [Got(w.ccid.tx[..w.inFlight.value])])
  {
    LogGrows(log, Got(w.ccid.tx[..w.inFlight.value]));
  }

  lemma ResetStep(w: World, e: Event, log: seq<Seen>)
    requires w.WellFormed() && w.Enabled(e) && SlotInv(w, log) && e.act == BusReset
    ensures SlotInv(w.Step(e), log + [Abandoned])
  {
    LogGrows(log, Abandoned);
  }

  lemma DialogueGrows(log: seq<Seen>, s: Seen)
    requires IsDialogue(log)
    requires s.Sent? ==> !Outstanding(log)
    requires s.Got? ==> AnswersOutstanding(log, s.frame)
    ensures IsDialogue(log + [s])
  {
    var log' := log + [s];
    forall i | 0 <= i < |log'|
      ensures InDialogue(log', i)
    {
      if i < |log| {
        assert InDialogue(log, i);
        assert i > 0 ==> log'[..i - 1] == log[..i - 1];
      } else {
        assert i > 0 ==> log'[..i - 1] == log[..|log| - 1];
      }
    }
  }

  /** One event more. */
  lemma PipeStep(w: World, e: Event, log: seq<Seen>)
    requires w.WellFormed() && w.Enabled(e) && IsDialogue(log) && SlotInv(w, log)
    requires e.act.Receive? && IsFrame(e.act.msg) ==> !Outstanding(log)
    ensures IsDialogue(log + SeesOf(w, e)) && SlotInv(w.Step(e), log + SeesOf(w, e))
  {
    if e.act.Receive? && IsFrame(e.act.msg) {
      SentStep(w, e, log);
      DialogueGrows(log, Sent(e.act.msg));
    } else if e.act == SendDone {
      GotStep(w, e, log);
      DialogueGrows(log, Got(w.ccid.tx[..w.inFlight.value]));
    } else if e.act == BusReset {
      ResetStep(w, e, log);
      DialogueGrows(log, Abandoned);
    } else {
      UnseenKeepsSlot(w, e, log);
      assert log + [] == log;
    }
  }

  lemma LogGrowsBy(ws: seq<World>, es: seq<Event>, k: nat)
    requires IsRun(ws, es) && k < |es|
    ensures Steps(ws, es, k) && Log(ws, es, k + 1) == Log(ws, es, k) + SeesOf(ws[k], es[k])
  {
    assert Steps(ws, es, k);
  }

  /** The history so far is a dialogue, and the pipe holds what it says is outstanding. */
  ghost predicate PipeHolds(ws: seq<World>, es: seq<Event>, k: nat)
    requires IsRun(ws, es) && k <= |es|
  {
    IsDialogue(Log(ws, es, k)) && SlotInv(ws[k], Log(ws, es, k))
  }

  lemma PipeAtBoot(ws: seq<World>, es: seq<Event>)
    requires IsRun(ws, es)
    ensures PipeHolds(ws, es, 0)
  {
    RunIsWellFormed(ws, es, 0);
  }

  lemma PipeStepOfRun(ws: seq<World>, es: seq<Event>, k: nat)
    requires IsRun(ws, es) && LockStep(ws, es) && 0 < k <= |es|
    requires PipeHolds(ws, es, k - 1)
    ensures PipeHolds(ws, es, k)
  {
    var j := k - 1;
    LogGrowsBy(ws, es, j);
    assert Waits(ws, es, j);
    PipeStep(ws[j], es[j], Log(ws, es, j));
  }

  /**
   With a lock-step host: in every state of every run, answers alternate with the messages they answer, each message
   that is not abandoned by a reset gets exactly one, and the one outstanding is in the buffer or in flight, alone
   and unharmed.
   */
  lemma {:induction false} EveryMessageIsAnsweredOnce(ws: seq<World>, es: seq<Event>, k: nat)
    requires IsRun(ws, es) && LockStep(ws, es) && k <= |es|
    ensures PipeHolds(ws, es, k)
  {
    if k == 0 {
      PipeAtBoot(ws, es);
    } else {
      EveryMessageIsAnsweredOnce(ws, es, k - 1);
      PipeStepOfRun(ws, es, k);
    }
  }

  /** What is in flight is the response in the buffer. */
  lemma InFlightIsResponse(ws: seq<World>, es: seq<Event>, k: nat)
    requires IsRun(ws, es) && LockStep(ws, es) && k <= |es| && ws[k].inFlight.Some?
    ensures ws[k].inFlight == Some(ws[k].ccid.responseLen)
  {
    EveryMessageIsAnsweredOnce(ws, es, k);
  }

  /** An outstanding message is answered by the next claim of the endpoint and the transfer that follows. */
  lemma OutstandingIsServed(ws: seq<World>, es: seq<Event>, k: nat, at: nat)
    requires IsRun(ws, es) && LockStep(ws, es) && k <= |es| && Outstanding(Log(ws, es, k)) && ws[k].clock <= at
    ensures ws[k].inFlight.Some? ==> ws[k].Enabled(Event(at, SendDone))
    ensures ws[k].inFlight.None? && ws[k].phase == Send ==>
              ws[k].Enabled(Event(at, SendTask(true)))
              && ws[k].WellFormed()
              && ws[k].Step(Event(at, SendTask(true))).inFlight == Some(ws[k].ccid.responseLen)
  {
    EveryMessageIsAnsweredOnce(ws, es, k);
  }

  // ---- the XfrBlock length test ----

  /**
   The 32-bit sum makes the test right for exactly the lengths that do not wrap it: then, and only then, a transfer
   is accepted just when its APDU is present in full.
   */
  lemma XfrLengthTestIff(dwLength: nat)
    requires dwLength < 0x1_0000_0000
    ensures (forall n: nat :: HEADER_LEN <= n <= BUF_SIZE ==>
               (XfrLengthAccepted(dwLength, n) <==> 0 < dwLength && HEADER_LEN + dwLength <= n))
            <==> dwLength < 0x1_0000_0000 - HEADER_LEN
  {
    if dwLength >= 0x1_0000_0000 - HEADER_LEN {
      var n: nat := BUF_SIZE;
      assert XfrLengthAccepted(dwLength, n);
    }
  }
}
