/**
 One command on the bulk pipe: framed by the host, taken for what it says, executed, and its reply carried back, while
 the main loop, the button and the endpoint do what they like.
 */
module Transfers {
  import opened Bytes
  import opened Events
  import opened Apdu
  import opened PivModel
  import opened CcidModel
  import opened Machine
  import opened Replies
  import opened Host
  import opened SafetyOfFirmware

  // ---- what the host sends ----

  predicate IsLe(le: Option<nat>) {
    le.Some? ==> 1 <= le.value <= 256
  }

  function SelectPiv(le: Option<nat>): Short {
    Short(0x00, 0xA4, 0x04, 0x00, [0xA0, 0x00, 0x00, 0x03, 0x08, 0x00, 0x00, 0x10, 0x00, 0x01, 0x00], le)
  }

  function GetCertificate(le: Option<nat>): Short {
    Short(0x00, 0xCB, 0x3F, 0xFF, [0x5C, 0x03, 0x5F, 0xC1, 0x05], le)
  }

  function GetRest(le: Option<nat>): Short {
    Short(0x00, 0xC0, 0x00, 0x00, [], le)
  }

  /** An APDU in an XfrBlock message. */
  function XfrFrame(bSeq: byte, apdu: seq<byte>): seq<byte> {
    [0x6F, Low(|apdu|), High(|apdu|), 0x00, 0x00, 0x00, bSeq, 0x00, 0x00, 0x00] + apdu
  }

  // ---- what becomes of it ----

  /** A frame in the receive buffer is taken for what it says. */
  lemma FrameInBuffer(rx: seq<byte>, bSeq: byte, apdu: seq<byte>)
    requires |rx| == BUF_SIZE && 0 < |apdu| <= BUF_SIZE - HEADER_LEN
    requires rx[..HEADER_LEN + |apdu|] == XfrFrame(bSeq, apdu)
    ensures MessageType(rx) == XFR_BLOCK && DwLength(rx) == |apdu|
    ensures XfrLengthAccepted(DwLength(rx), HEADER_LEN + |apdu|)
    ensures rx[HEADER_LEN..] == apdu + rx[HEADER_LEN + |apdu|..]
  {
    var msg := XfrFrame(bSeq, apdu);
    HighLow(|apdu|);
    LengthFieldIs(rx);
    assert forall i :: 0 <= i < HEADER_LEN ==> rx[i] == msg[i];
    assert rx[HEADER_LEN..HEADER_LEN + |apdu|] == msg[HEADER_LEN..] == apdu;
  }

  lemma FrameCarries(w: World, e: Event, bSeq: byte, a: Short)
    requires w.WellFormed() && w.Enabled(e) && w.ccid.powered && a.WellFormed()
    requires e.act.Receive? && e.act.msg == XfrFrame(bSeq, Encode(a))
    ensures ApduOf(w, e).Some? && Carries(ApduOf(w, e).value, a)
  {
    var rx := Splice(w.rx, 0, e.act.msg);
    assert rx[..|e.act.msg|] == e.act.msg;
    FrameInBuffer(rx, bSeq, Encode(a));
    RequestCarries(XfrRequest(rx, e.at, e.act.pk), a, rx[HEADER_LEN + |Encode(a)|..]);
  }

  lemma RequestCarries(q: Request, a: Short, beyond: seq<byte>)
    requires q.Legal() && MAX_REPLY <= q.capacity && a.WellFormed()
    requires q.mem == Encode(a) + beyond && q.rawLen == |Encode(a)|
    ensures Carries(q, a)
  {
    ParseInvertsEncode(a, beyond);
  }

  /** A message or a reset; everything else leaves applet, certificate and transmit buffer alone. */
  predicate IsQuiet(e: Event) {
    e.act != BusReset && !(e.act.Receive? && IsFrame(e.act.msg))
  }

  predicate SameSlot(w: World, w': World) {
    && w'.card.piv == w.card.piv
    && w'.ccid.tx == w.ccid.tx && w'.ccid.responseLen == w.ccid.responseLen && w'.ccid.powered == w.ccid.powered
  }

  lemma QuietStep(w: World, e: Event)
    requires w.WellFormed() && w.Enabled(e) && IsQuiet(e)
    ensures SameSlot(w, w.Step(e))
  {
  }

  lemma {:induction false} QuietInterval(ws: seq<World>, es: seq<Event>, a: nat, b: nat)
    requires IsRun(ws, es) && a <= b <= |es| && forall m :: a <= m < b ==> IsQuiet(es[m])
    ensures SameSlot(ws[a], ws[b])
  {
    if a == b {
    } else {
      QuietInterval(ws, es, a, b - 1);
      assert Steps(ws, es, b - 1);
      QuietStep(ws[b - 1], es[b - 1]);
    }
  }

  /** The certificate in memory never changes. */
  lemma {:induction false} CertificateStays(ws: seq<World>, es: seq<Event>, k: nat)
    requires IsRun(ws, es) && k <= |es|
    ensures ws[k].card.vault.cert == ws[0].card.vault.cert
    ensures ws[k].card.vault.initialized == ws[0].card.vault.initialized
  {
    if k == 0 {
    } else {
      CertificateStays(ws, es, k - 1);
      assert Steps(ws, es, k - 1);
      StepStimulates(ws[k - 1], es[k - 1]);
      if es[k - 1].act.Receive? {
        ReceiveStimulates(ws[k - 1], es[k - 1]);
      }
    }
  }

  // ---- transfers ----

  /** The events at which a message arrives and at which its answer has gone out, and its sequence number. */
  datatype Transfer = Transfer(sent: nat, got: nat, bSeq: byte)

  /** A transfer of command `a` that nothing disturbs. */
  ghost predicate IsTransfer(ws: seq<World>, es: seq<Event>, t: Transfer, a: Short)
    requires |ws| == |es| + 1
  {
    && t.sent < t.got < |es| && a.WellFormed()
    && es[t.sent].act.Receive? && IsFrame(es[t.sent].act.msg)
    && es[t.sent].act.msg == XfrFrame(t.bSeq, Encode(a))
    && es[t.got].act == SendDone && ws[t.got].inFlight.Some?
    && ws[t.got].inFlight.value <= |ws[t.got].ccid.tx|
    && forall m :: t.sent < m < t.got ==> IsQuiet(es[m])
  }

  /** The APDU reply in the frame that the host gets. */
  function ReplyGot(ws: seq<World>, t: Transfer): seq<byte> {
    if t.got < |ws| && ws[t.got].inFlight.Some? && HEADER_LEN <= ws[t.got].inFlight.value <= |ws[t.got].ccid.tx|
    then ws[t.got].ccid.tx[HEADER_LEN..ws[t.got].inFlight.value]
    else []
  }

  lemma ReceiveExecutes(w: World, e: Event)
    requires w.WellFormed() && w.Enabled(e) && ApduOf(w, e).Some?
    ensures var o := ProcessApdu(w.card, ApduOf(w, e).value);
            var w' := w.Step(e);
            && w'.card == o.card && w'.ccid.powered
            && w'.ccid.responseLen == HEADER_LEN + |o.reply| <= BUF_SIZE && |w'.ccid.tx| == BUF_SIZE
            && w'.ccid.tx[HEADER_LEN..HEADER_LEN + |o.reply|] == o.reply
  {
    ReplyShape(w.card, ApduOf(w, e).value);
    StepKeepsWellFormed(w, e);
  }

  /** What the dispatcher leaves behind once it has executed a command. */
  ghost predicate LeavesReply(w': World, o: Outcome) {
    && w'.card == o.card && w'.ccid.powered
    && w'.ccid.responseLen == HEADER_LEN + |o.reply| <= |w'.ccid.tx|
    && w'.ccid.tx[HEADER_LEN..HEADER_LEN + |o.reply|] == o.reply
  }

  lemma CommandExecuted(w: World, e: Event, w': World, bSeq: byte, a: Short) returns (q: Request, o: Outcome)
    requires w.WellFormed() && w.Enabled(e) && w' == w.Step(e) && w.ccid.powered && a.WellFormed()
    requires e.act.Receive? && e.act.msg == XfrFrame(bSeq, Encode(a))
    ensures Carries(q, a) && q.pk == e.act.pk && q.now == e.at
    ensures o == ProcessApdu(w.card, q) && LeavesReply(w', o)
  {
    FrameCarries(w, e, bSeq, a);
    q := ApduOf(w, e).value;
    ReceiveExecutes(w, e);
    o := ProcessApdu(w.card, q);
  }

  lemma FrameArrives(ws: seq<World>, es: seq<Event>, k: nat, bSeq: byte, a: Short)
    returns (q: Request, o: Outcome)
    requires IsRun(ws, es) && k < |es| && ws[k].ccid.powered && a.WellFormed()
    requires es[k].act.Receive? && es[k].act.msg == XfrFrame(bSeq, Encode(a))
    ensures Carries(q, a) && ws[k].card.WellFormed() && o == ProcessApdu(ws[k].card, q)
    ensures LeavesReply(ws[k + 1], o) && q.pk == es[k].act.pk && q.now == es[k].at
  {
    assert Steps(ws, es, k);
    q, o := CommandExecuted(ws[k], es[k], ws[k + 1], bSeq, a);
  }

  lemma CommandArrives(ws: seq<World>, es: seq<Event>, t: Transfer, a: Short) returns (q: Request, o: Outcome)
    requires IsRun(ws, es) && IsTransfer(ws, es, t, a) && ws[t.sent].ccid.powered
    ensures Carries(q, a) && ws[t.sent].card.WellFormed() && o == ProcessApdu(ws[t.sent].card, q)
    ensures LeavesReply(ws[t.sent + 1], o) && q.pk == es[t.sent].act.pk && q.now == es[t.sent].at
  {
    q, o := FrameArrives(ws, es, t.sent, t.bSeq, a);
  }

  lemma AnswerLeaves(ws: seq<World>, es: seq<Event>, t: Transfer, a: Short)
    requires IsRun(ws, es) && LockStep(ws, es) && IsTransfer(ws, es, t, a)
    ensures ws[t.got].inFlight == Some(ws[t.sent + 1].ccid.responseLen)
    ensures SameSlot(ws[t.sent + 1], ws[t.got]) && SameSlot(ws[t.sent + 1], ws[t.got + 1])
  {
    QuietInterval(ws, es, t.sent + 1, t.got);
    QuietInterval(ws, es, t.sent + 1, t.got + 1);
    InFlightIsResponse(ws, es, t.got);
  }

  /** The host gets the applet's reply to its command, and the slot is then as the command left it. */
  lemma TransferDelivers(ws: seq<World>, es: seq<Event>, t: Transfer, a: Short) returns (q: Request, o: Outcome)
    requires IsRun(ws, es) && LockStep(ws, es) && IsTransfer(ws, es, t, a) && ws[t.sent].ccid.powered
    ensures Carries(q, a) && q.pk == es[t.sent].act.pk && q.now == es[t.sent].at
    ensures ws[t.sent].card.WellFormed() && o == ProcessApdu(ws[t.sent].card, q)
    ensures ReplyGot(ws, t) == o.reply && ws[t.sent + 1].card == o.card
    ensures ws[t.got + 1].card.piv == o.card.piv && ws[t.got + 1].ccid.powered
  {
    AnswerLeaves(ws, es, t, a);
    q, o := CommandArrives(ws, es, t, a);
    var n := |o.reply|;
    var tx := ws[t.got].ccid.tx;
    assert tx[..HEADER_LEN + n][HEADER_LEN..] == tx[HEADER_LEN..HEADER_LEN + n];
  }
}
