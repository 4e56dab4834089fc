/** No builder append is ever dropped: the reply buffer is large enough for everything the applet says. */
module Replies {
  import opened Bytes
  import opened Apdu
  import opened KeyStore
  import opened PivModel
  import opened CcidModel
  import DeviceState

  /** 256 data octets, the most that Le allows, and the status word. */
  const MAX_REPLY := 258
  /** dwMaxCCIDMessageLength of the descriptor. */
  const MAX_MESSAGE := 271
  /** More than any object and status word take. */
  const AMPLE := BUFFER + 2

  /** The status words the applet uses; 61xx never announces zero octets. */
  predicate IsStatus(sw: StatusWord) {
    || 0x6100 < sw <= 0x61FF
    || sw in {SW_OK, 0x63C3, SW_WRONG_LENGTH, SW_SECURITY_NOT_SATISFIED, SW_CONDITIONS_NOT_SATISFIED, SW_WRONG_DATA,
              SW_FILE_NOT_FOUND, SW_INCORRECT_P1P2, SW_REFERENCED_DATA_NOT_FOUND, SW_INS_NOT_SUPPORTED,
              SW_CLA_NOT_SUPPORTED, SW_UNKNOWN}
  }

  /** The status word a host reads from a reply. */
  function StatusCode(r: seq<byte>): StatusWord
    requires 2 <= |r|
  {
    0x100 * (r[|r| - 2] as int) + r[|r| - 1] as int
  }

  /** Up to 256 octets and a status word. */
  predicate IsReply(r: seq<byte>) {
    2 <= |r| <= MAX_REPLY && IsStatus(StatusCode(r))
  }

  /** With room for every reply: the command `a` has arrived and is executed as `q`. */
  ghost predicate Carries(q: Request, a: Short) {
    && q.Legal() && MAX_REPLY <= q.capacity && a.WellFormed()
    && var c := Parse(q.mem, q.rawLen);
       c.Some? && CommandIn(c.value, q.mem) && View(q.mem, c.value) == a
  }

  /** How many octets a command asks for. */
  function LeOctets(le: Option<nat>): nat {
    if le.Some? then le.value else 256
  }

  lemma BodyAndStatus(body: seq<byte>, sw: StatusWord)
    requires |body| <= 256 && IsStatus(sw)
    ensures IsReply(body + SwBytes(sw))
  {
    var r := body + SwBytes(sw);
    HighLow(sw);
    assert r[|r| - 2] == High(sw) && r[|r| - 1] == Low(sw);
  }

  lemma StatusAlone(sw: StatusWord)
    requires IsStatus(sw)
    ensures IsReply(Status(sw))
  {
    BodyAndStatus([], sw);
    assert [] + SwBytes(sw) == SwBytes(sw);
  }

  /** A builder with one body, whether it fits or not. */
  lemma BuiltReply(capacity: nat, body: seq<byte>, sw: StatusWord)
    requires |body| <= 256 && IsStatus(sw)
    ensures IsReply(StartResponse(capacity).Append(body).Finalize(sw))
  {
    BodyAndStatus(StartResponse(capacity).Append(body).body, sw);
  }

  lemma MoreDataIsStatus(n: nat)
    requires 0 < n
    ensures IsStatus(MoreData(n))
    ensures SwBytes(MoreData(n)) == [0x61, Min(n, 0xFF)]
  {
    var m := Min(n, 0xFF);
    assert m % 0x100 == m;
    assert (0x6100 + m) % 0x100 == m && (0x6100 + m) / 0x100 == 0x61;
  }

  /** For every command in every state: 2 to 258 octets, the last two a status word. */
  lemma ReplyShape(card: Card, q: Request)
    requires card.WellFormed() && q.Legal()
    ensures IsReply(ProcessApdu(card, q).reply)
  {
    match Parse(q.mem, q.rawLen)
    case None => StatusAlone(SW_UNKNOWN);
    case Some(c) =>
      if c.cla == 0 {
        RouteShape(card, c, q);
      } else {
        StatusAlone(SW_CLA_NOT_SUPPORTED);
      }
  }

  lemma RouteShape(card: Card, c: Command, q: Request)
    requires card.WellFormed() && q.Legal() && CommandIn(c, q.mem)
    ensures IsReply(Route(card, c, q).reply)
  {
    StatusAlone(SW_CONDITIONS_NOT_SATISFIED);
    StatusAlone(SW_INS_NOT_SUPPORTED);
    SelectShape(card, c, q);
    VerifyShape(card, c, q);
    DataShape(card, c, q);
    ResponseShape(card, c, q);
    AuthenticateShape(card, c, q);
  }

  lemma SelectShape(card: Card, c: Command, q: Request)
    requires card.WellFormed() && q.Legal() && CommandIn(c, q.mem)
    ensures IsReply(Select(card, c, q).reply)
  {
    BuiltReply(q.capacity, FCI, SW_OK);
    StatusAlone(SelectStatus(c, q.mem));
  }

  lemma VerifyShape(card: Card, c: Command, q: Request)
    requires card.WellFormed() && q.Legal() && CommandIn(c, q.mem)
    ensures IsReply(Verify(card, c, q).reply)
  {
    StatusAlone(VerifyStatus(c, q.mem));
  }

  lemma DataShape(card: Card, c: Command, q: Request)
    requires card.WellFormed() && q.Legal() && CommandIn(c, q.mem)
    ensures IsReply(GetData(card, c, q).reply)
  {
    StatusAlone(DataRequestStatus(c, q.mem));
    StatusAlone(SW_REFERENCED_DATA_NOT_FOUND);
    var found := Lookup(card.vault, q.mem[6], q.mem[7..10]);
    if found.Some? {
      ObjectFits(card.vault, q.mem[6], q.mem[7..10]);
      DeliverShape(card, c, q, found.value);
    }
  }

  lemma DeliverShape(card: Card, c: Command, q: Request, obj: seq<byte>)
    requires card.WellFormed() && q.Legal() && |obj| <= BUFFER && CommandIn(c, q.mem)
    ensures IsReply(Deliver(card, c, q, obj).reply)
  {
    var le := EffectiveLe(c);
    if |obj| <= le {
      BuiltReply(q.capacity, obj, SW_OK);
    } else {
      MoreDataIsStatus(|obj| - le);
      BuiltReply(q.capacity, obj[..le], MoreData(|obj| - le));
    }
  }

  lemma ResponseShape(card: Card, c: Command, q: Request)
    requires card.WellFormed() && q.Legal() && CommandIn(c, q.mem)
    ensures IsReply(GetResponse(card, c, q).reply)
  {
    var pending := card.piv.Pending();
    var n := Min(|pending|, EffectiveLe(c));
    StatusAlone(SW_CONDITIONS_NOT_SATISFIED);
    BuiltReply(q.capacity, pending[..n], SW_OK);
    if n < |pending| {
      MoreDataIsStatus(|pending| - n);
      BuiltReply(q.capacity, pending[..n], MoreData(|pending| - n));
    }
  }

  lemma AuthenticateShape(card: Card, c: Command, q: Request)
    requires card.WellFormed() && q.Legal() && CommandIn(c, q.mem)
    ensures IsReply(GeneralAuthenticate(card, c, q).reply)
  {
    StatusAlone(AuthenticateStatus(card, c, q.mem));
    if AuthenticateStatus(card, c, q.mem) == SW_OK {
      AuthorizeShape(card, Challenge(Data(c, q.mem)).value, q);
    }
  }

  lemma AuthorizeShape(card: Card, hash: seq<byte>, q: Request)
    requires card.WellFormed() && q.Legal()
    ensures IsReply(Authorize(card, hash, q).reply)
  {
    StatusAlone(SW_CONDITIONS_NOT_SATISFIED);
    StatusAlone(SW_UNKNOWN);
    var sig := Signature(card.vault, KEY_REF_9A, ALG_ECDSA_P256, hash, MAX_SIGNATURE, q.pk);
    var r := StartResponse(q.capacity).Append([0x7C]).Append([2 + |sig|]).Append([0x82]).Append([|sig|]).Append(sig);
    BodyAndStatus(r.body, SW_OK);
  }

  /** XfrBlock answers stay within the message length the descriptor announces. */
  lemma XfrReplyWithinMessage(c: Ccid, card: Card, rx: seq<byte>, n: nat, now: nat, pk: seq<byte>)
    requires c.WellFormed() && card.WellFormed() && |rx| == BUF_SIZE && |pk| <= MAX_SIGNATURE
    ensures HEADER_LEN <= XfrBlock(c, card, rx, n, now, pk).ccid.responseLen <= HEADER_LEN + MAX_REPLY <= MAX_MESSAGE
  {
    ReplyShape(card, XfrRequest(rx, now, pk));
  }

  // ---- nothing is dropped ----

  /** With `capacity` octets the applet says everything it would say with ample room. */
  ghost predicate DropsNothing(capacity: nat)
    requires 2 <= capacity
  {
    forall card: Card, q: Request :: card.WellFormed() && q.Legal() && q.capacity == capacity ==>
      ProcessApdu(card, q) == ProcessApdu(card, q.(capacity := AMPLE))
  }

  lemma RoutesAlike(card: Card, c: Command, q: Request)
    requires card.WellFormed() && q.Legal() && CommandIn(c, q.mem) && MAX_REPLY <= q.capacity
    ensures Route(card, c, q) == Route(card, c, q.(capacity := AMPLE))
  {
    if c.ins == INS_GET_DATA && card.piv.selected {
      assert GetData(card, c, q) == GetData(card, c, q.(capacity := AMPLE));
    } else if c.ins == INS_GENERAL_AUTHENTICATE && card.piv.selected {
      assert GeneralAuthenticate(card, c, q) == GeneralAuthenticate(card, c, q.(capacity := AMPLE));
    }
  }

  /** A selected card whose certificate object has 257 octets, and the GET DATA for it with Le 1. */
  function CardWithObject(): (card: Card)
    ensures card.WellFormed()
  {
    Card(PivInit().(selected := true), DeviceState.BOOT_FSM, Vault(true, seq(246, _ => 0), []))
  }

  function AskForOne(): (q: Request)
    ensures q.Legal() && Parse(q.mem, q.rawLen) == Some(Command(0, INS_GET_DATA, 0x3F, 0xFF, true, 5, 5, true, 1))
  {
    Request([0, INS_GET_DATA, 0x3F, 0xFF, 5, 0x5C, 0x03, 0x5F, 0xC1, 0x05, 1], 11, MAX_REPLY, 0, [])
  }

  /** That command leaves 256 octets in the chain. */
  lemma LongChain() returns (card: Card)
    ensures card == ProcessApdu(CardWithObject(), AskForOne()).card
    ensures card.WellFormed() && card.piv.selected && |card.piv.Pending()| == 256
  {
    var before, q := CardWithObject(), AskForOne();
    var c := Parse(q.mem, q.rawLen).value;
    CertObjectSize(before.vault.cert);
    assert q.mem[7..10] == TAG_CERT_9A;
    assert TAG_CERT_9A[2] != TAG_CCC[2] && TAG_CERT_9A[2] != TAG_CHUID[2];
    assert Lookup(before.vault, q.mem[6], q.mem[7..10]) == Some(CertObject(before.vault.cert));
    card := Deliver(before, c, q, CertObject(before.vault.cert)).card;
  }

  /** The GET RESPONSE that asks for all of them. */
  function AskForAll(capacity: nat): (q: Request)
    requires 2 <= capacity
    ensures q.Legal() && q.capacity == capacity
    ensures Parse(q.mem, q.rawLen) == Some(Command(0, INS_GET_RESPONSE, 0, 0, false, 0, 0, true, 256))
  {
    Request([0, INS_GET_RESPONSE, 0, 0, 0, 0, 0, 0, 0, 0], 5, capacity, 0, [])
  }

  /** Nothing is ever dropped exactly from a capacity of 258 octets on. */
  lemma DropsNothingIff(capacity: nat)
    requires 2 <= capacity
    ensures DropsNothing(capacity) <==> MAX_REPLY <= capacity
  {
    if MAX_REPLY <= capacity {
      forall card: Card, q: Request | card.WellFormed() && q.Legal() && q.capacity == capacity
        ensures ProcessApdu(card, q) == ProcessApdu(card, q.(capacity := AMPLE))
      {
        match Parse(q.mem, q.rawLen)
        case None =>
        case Some(c) =>
          if c.cla == 0 {
            RoutesAlike(card, c, q);
          }
      }
    } else {
      var card := LongChain();
      var q := AskForAll(capacity);
      assert |ProcessApdu(card, q).reply| == 2;
      assert |ProcessApdu(card, q.(capacity := AMPLE)).reply| == 258;
      assert !DropsNothing(capacity);
    }
  }
}
