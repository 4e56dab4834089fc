/**
 The PIN gate over whole runs. Power-off and USB reset leave the applet's flags as they are; that a signature still
 needs a SELECT and a correct PIN of its own card session follows only from the dispatcher and the applet together.
 */
module Session {
  import opened Bytes
  import opened Events
  import opened Apdu
  import opened PivModel
  import opened CcidModel
  import opened Machine
  import opened CardObjects
  import opened CardEdge
  import opened SafetyOfFirmware

  /** What an event means to a card session, read off the octets on the wire and the slot's power state. */
  datatype Act = PowerOn | PowerOff | SelectsPiv | CorrectPin | WrongPin | Neutral

  function ActOfApdu(q: Request): Act
    requires q.Legal()
  {
    match Parse(q.mem, q.rawLen)
    case None => Neutral
    case Some(c) =>
      if c.cla != 0 then Neutral
      else if c.ins == INS_SELECT && SelectStatus(c, q.mem) == SW_OK then SelectsPiv
      else if c.ins == INS_VERIFY && VerifyStatus(c, q.mem) == SW_OK then CorrectPin
      else if c.ins == INS_VERIFY && VerifyStatus(c, q.mem) == SW_SECURITY_NOT_SATISFIED then WrongPin
      else Neutral
  }

  function ActOf(w: World, e: Event): Act
    requires w.WellFormed() && w.Enabled(e)
  {
    match e.act
    case BusReset => PowerOff
    case Receive(msg, _) =>
      if |msg| >= HEADER_LEN && msg[0] == 0x62 then PowerOn
      else if |msg| >= HEADER_LEN && msg[0] == 0x63 then PowerOff
      else if ApduOf(w, e).Some? then ActOfApdu(ApduOf(w, e).value)
      else Neutral
    case _ => Neutral
  }

  /** 00 A4 04 and 00 20 00 80. */
  predicate IsSelect(c: Command) {
    [c.cla, c.ins, c.p1] == [0x00, 0xA4, 0x04]
  }

  predicate IsVerify(c: Command) {
    [c.cla, c.ins, c.p1, c.p2] == [0x00, 0x20, 0x00, 0x80]
  }

  /** What each of these meanings is in octets. */
  lemma ActOctets(q: Request)
    requires q.Legal()
    ensures var c := Parse(q.mem, q.rawLen);
            if c.None? then ActOfApdu(q) == Neutral
            else
              && CommandIn(c.value, q.mem)
              && var data := Data(c.value, q.mem);
                 && (ActOfApdu(q) == SelectsPiv <==> IsSelect(c.value) && NamesPiv(data))
                 && (ActOfApdu(q) == CorrectPin <==> IsVerify(c.value) && IsPin(data))
                 && (ActOfApdu(q) == WrongPin <==> IsVerify(c.value) && |data| == 8 && !IsPin(data))
  {
    var c := Parse(q.mem, q.rawLen);
    if c.Some? {
      AidPrefix(Data(c.value, q.mem));
      PinOctets(Data(c.value, q.mem));
    }
  }

  lemma AidPrefix(data: seq<byte>)
    ensures NamesPiv(data) <==> |AID| <= |data| && data[..|AID|] == AID
  {
  }

  /** The three flags the gate rests on. */
  datatype Flags = Flags(powered: bool, selected: bool, verified: bool) {
    function Next(a: Act): Flags {
      match a
      case PowerOn => Flags(true, false, false)
      case PowerOff => this.(powered := false)
      case SelectsPiv => this.(selected := true)
      case CorrectPin => if selected then this.(verified := true) else this
      case WrongPin => if selected then this.(verified := false) else this
      case Neutral => this
    }
  }

  function FlagsOf(w: World): Flags {
    Flags(w.ccid.powered, w.card.piv.selected, w.card.piv.pinVerified)
  }

  lemma CommandMovesFlags(card: Card, q: Request)
    requires card.WellFormed() && q.Legal()
    ensures var piv := ProcessApdu(card, q).card.piv;
            Flags(true, piv.selected, piv.pinVerified)
            == Flags(true, card.piv.selected, card.piv.pinVerified).Next(ActOfApdu(q))
  {
  }

  lemma ReceiveMovesFlags(w: World, e: Event)
    requires w.WellFormed() && w.Enabled(e) && e.act.Receive?
    ensures FlagsOf(w.Step(e)) == FlagsOf(w).Next(ActOf(w, e))
  {
    match ApduOf(w, e)
    case Some(q) => TransferMovesFlags(w, e, q);
    case None => SlotMessageMovesFlags(w, e);
  }

  /** Without a command in it, a message moves at most power, and the applet is reset by IccPowerOn alone. */
  lemma SlotMessage(c: Ccid, card: Card, rx: seq<byte>, n: nat, now: nat, pk: seq<byte>)
    requires c.WellFormed() && card.WellFormed() && |rx| == BUF_SIZE && n <= BUF_SIZE && |pk| <= 72
    requires !(10 <= n && rx[0] == 0x6F && c.powered && XfrLengthAccepted(DwLength(rx), n))
    ensures var h := ProcessMessage(c, card, rx, n, now, pk);
            if n < 10 then h.ccid.powered == c.powered && h.card == card
            else if rx[0] == 0x62 then h.ccid.powered && h.card == card.(piv := PivInit())
            else h.ccid.powered == (c.powered && rx[0] != 0x63) && h.card == card
  {
  }

  /** The flags after such a message, from its octets. */
  function SlotFlags(f: Flags, msg: seq<byte>): Flags {
    if |msg| < 10 then f
    else if msg[0] == 0x62 then Flags(true, false, false)
    else f.(powered := f.powered && msg[0] != 0x63)
  }

  lemma SlotMessageStep(w: World, e: Event)
    requires w.WellFormed() && w.Enabled(e) && e.act.Receive? && ApduOf(w, e).None?
    ensures FlagsOf(w.Step(e)) == SlotFlags(FlagsOf(w), e.act.msg)
  {
    var rx := Splice(w.rx, 0, e.act.msg);
    assert 10 <= |e.act.msg| ==> rx[0] == e.act.msg[0];
    SlotMessage(w.ccid, w.card, rx, |e.act.msg|, e.at, e.act.pk);
    assert w.Step(e).card == w.Receives(e.act.msg, e.at, e.act.pk).card;
  }

  lemma SlotMessageAct(w: World, e: Event)
    requires w.WellFormed() && w.Enabled(e) && e.act.Receive? && ApduOf(w, e).None?
    ensures FlagsOf(w).Next(ActOf(w, e)) == SlotFlags(FlagsOf(w), e.act.msg)
  {
  }

  lemma SlotMessageMovesFlags(w: World, e: Event)
    requires w.WellFormed() && w.Enabled(e) && e.act.Receive? && ApduOf(w, e).None?
    ensures FlagsOf(w.Step(e)) == FlagsOf(w).Next(ActOf(w, e))
  {
    SlotMessageStep(w, e);
    SlotMessageAct(w, e);
  }

  lemma TransferMovesFlags(w: World, e: Event, q: Request)
    requires w.WellFormed() && w.Enabled(e) && e.act.Receive? && ApduOf(w, e) == Some(q)
    ensures FlagsOf(w.Step(e)) == FlagsOf(w).Next(ActOf(w, e))
  {
    CommandMovesFlags(w.card, q);
    CommandKeepsPower(w, e, q);
  }

  lemma CommandKeepsPower(w: World, e: Event, q: Request)
    requires w.WellFormed() && w.Enabled(e) && e.act.Receive? && ApduOf(w, e) == Some(q)
    ensures w.ccid.powered && w.Step(e).ccid.powered && w.Step(e).card == ProcessApdu(w.card, q).card
    ensures ActOf(w, e) == ActOfApdu(q)
  {
    MessageDemands(w, e);
    assert Splice(w.rx, 0, e.act.msg)[0] == e.act.msg[0];
  }

  lemma StepMovesFlags(w: World, e: Event)
    requires w.WellFormed() && w.Enabled(e)
    ensures FlagsOf(w.Step(e)) == FlagsOf(w).Next(ActOf(w, e))
    ensures ActOf(w, e) in {SelectsPiv, CorrectPin, WrongPin} ==> w.ccid.powered
  {
    if e.act.Receive? {
      ReceiveMovesFlags(w, e);
    }
  }

  // ---- the flags over a run, apart from the rest of the firmware ----

  ghost predicate Moves(fs: seq<Flags>, acts: seq<Act>, k: nat)
    requires k < |acts| && |fs| == |acts| + 1
  {
    && fs[k + 1] == fs[k].Next(acts[k])
    && (acts[k] in {SelectsPiv, CorrectPin, WrongPin} ==> fs[k].powered)
  }

  ghost predicate IsFlagRun(fs: seq<Flags>, acts: seq<Act>) {
    && |fs| == |acts| + 1 && fs[0] == Flags(false, false, false)
    && forall k :: 0 <= k < |acts| ==> Moves(fs, acts, k)
  }

  /** A power-on at `on`, with neither power-on nor power-off nor reset from there to `k`. */
  ghost predicate SessionSince(acts: seq<Act>, on: int, k: int) {
    && 0 <= on < k <= |acts| && acts[on] == PowerOn
    && forall m :: on < m < k ==> acts[m] != PowerOn && acts[m] != PowerOff
  }

  /** In that session, a SELECT at `sel`, later a correct PIN at `pin`, and no wrong one from there to `k`. */
  ghost predicate VerifiedSince(acts: seq<Act>, on: int, sel: int, pin: int, k: int) {
    && SessionSince(acts, on, k) && on < sel < pin < k && acts[sel] == SelectsPiv && acts[pin] == CorrectPin
    && forall m :: pin < m < k ==> acts[m] != WrongPin
  }

  datatype Marks = Marks(on: int, sel: int, pin: int)

  /** Latest power-on, first SELECT of its session, latest correct PIN. */
  function MarksAt(fs: seq<Flags>, acts: seq<Act>, k: nat): Marks
    requires k <= |acts| < |fs|
  {
    if k == 0 then Marks(-1, -1, -1)
    else
      var m := MarksAt(fs, acts, k - 1);
      match acts[k - 1]
      case PowerOn => m.(on := k - 1)
      case SelectsPiv => if fs[k - 1].selected then m else m.(sel := k - 1)
      case CorrectPin => if fs[k - 1].selected then m.(pin := k - 1) else m
      case _ => m
  }

  ghost predicate FlagInv(fs: seq<Flags>, acts: seq<Act>, k: nat)
    requires k <= |acts| < |fs|
  {
    var f, m := fs[k], MarksAt(fs, acts, k);
    && (f.powered ==> SessionSince(acts, m.on, k))
    && (f.powered && f.selected ==> m.on < m.sel < k && acts[m.sel] == SelectsPiv)
    && (f.powered && f.verified ==> f.selected && VerifiedSince(acts, m.on, m.sel, m.pin, k))
  }

  lemma {:induction false} FlagInvHolds(fs: seq<Flags>, acts: seq<Act>, k: nat)
    requires IsFlagRun(fs, acts) && k <= |acts|
    ensures FlagInv(fs, acts, k)
  {
    if k == 0 {
    } else {
      FlagInvHolds(fs, acts, k - 1);
      assert Moves(fs, acts, k - 1);
    }
  }

  // ---- the gate ----

  ghost function Acts(ws: seq<World>, es: seq<Event>): (acts: seq<Act>)
    requires IsRun(ws, es)
    ensures |acts| == |es|
  {
    seq(|es|, k requires 0 <= k < |es| => assert Steps(ws, es, k); ActOf(ws[k], es[k]))
  }

  lemma ProjectsToFlagRun(ws: seq<World>, es: seq<Event>) returns (fs: seq<Flags>)
    requires IsRun(ws, es)
    ensures IsFlagRun(fs, Acts(ws, es)) && forall k :: 0 <= k < |ws| ==> fs[k] == FlagsOf(ws[k])
  {
    fs := seq(|ws|, k requires 0 <= k < |ws| => FlagsOf(ws[k]));
    forall k | 0 <= k < |es|
      ensures Moves(fs, Acts(ws, es), k)
    {
      assert Steps(ws, es, k);
      StepMovesFlags(ws[k], es[k]);
    }
  }

  /**
   Whenever the signer is called, the slot has been powered without interruption since its latest power-on, and in
   that time the applet was selected, then the correct PIN was presented, and no wrong one since.
   */
  lemma SignerCallIsInVerifiedSession(ws: seq<World>, es: seq<Event>, k: nat)
    requires IsRun(ws, es) && k < |es| && CallsSigner(ws, k)
    ensures exists on, sel, pin :: VerifiedSince(Acts(ws, es), on, sel, pin, k)
  {
    assert Steps(ws, es, k);
    StepStimulates(ws[k], es[k]);
    DemandNeedsPin(ws[k].card, ApduOf(ws[k], es[k]).value);
    VerifiedStateIsInSession(ws, es, k);
  }

  /** The same is true in every state whose slot is powered and whose PIN flag is set. */
  lemma VerifiedStateIsInSession(ws: seq<World>, es: seq<Event>, k: nat)
    requires IsRun(ws, es) && k <= |es| && ws[k].ccid.powered && ws[k].card.piv.pinVerified
    ensures exists on, sel, pin :: VerifiedSince(Acts(ws, es), on, sel, pin, k)
  {
    var fs := ProjectsToFlagRun(ws, es);
    FlagInvHolds(fs, Acts(ws, es), k);
    var m := MarksAt(fs, Acts(ws, es), k);
    assert VerifiedSince(Acts(ws, es), m.on, m.sel, m.pin, k);
  }

  /** The demand that opened the wait was made in a verified session, too, if an earlier one. */
  lemma OpeningDemandIsInVerifiedSession(ws: seq<World>, es: seq<Event>, k: nat)
    requires IsRun(ws, es) && k < |es| && CallsSigner(ws, k)
    ensures 0 <= DemandBehind(ws, es, k) < k
    ensures exists on, sel, pin :: VerifiedSince(Acts(ws, es), on, sel, pin, DemandBehind(ws, es, k))
  {
    SignerCallHasItsPress(ws, es, k);
    VerifiedStateIsInSession(ws, es, DemandBehind(ws, es, k));
  }
}
