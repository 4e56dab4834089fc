/**
 Certificate delivery end to end: a host on the bulk pipe selects the applet, asks for the certificate object and
 goes on with GET RESPONSE until 9000, with any Le values, while the main loop, the button and the endpoint do what
 they like; what it has then decodes to exactly the stored certificate, before and after a reboot.
 */
module Delivery {
  import opened Bytes
  import opened Events
  import opened Apdu
  import opened KeyStore
  import opened PivModel
  import opened Machine
  import opened Replies
  import opened Chaining
  import opened Objects
  import opened Host
  import opened SafetyOfFirmware
  import opened CardEdge
  import opened Transfers
  import opened Reading
  import DeviceState

  // ---- the whole dialogue on the bulk pipe ----

  /**
   The transfers `ts` of SELECT, GET DATA and any number of GET RESPONSEs, undisturbed, on a slot that is powered when
   the first one arrives.
   */
  ghost predicate IsFetch(ws: seq<World>, es: seq<Event>, ts: seq<Transfer>, les: seq<Option<nat>>)
    requires |ws| == |es| + 1
  {
    && |ts| == |les| >= 2
    && (forall j :: 0 <= j < |les| ==> IsLe(les[j]))
    && (forall j :: 0 <= j < |ts| ==> TransferAt(ws, es, ts, les, j))
    && ts[0].sent < |es| && ws[ts[0].sent].ccid.powered
    && forall j :: 1 <= j < |ts| ==> Follows(es, ts, j)
  }

  ghost predicate TransferAt(ws: seq<World>, es: seq<Event>, ts: seq<Transfer>, les: seq<Option<nat>>, j: nat)
    requires |ws| == |es| + 1 && j < |ts| == |les|
  {
    IsTransfer(ws, es, ts[j], CommandAt(les, j))
  }

  /** Between the answer before and the next command there is neither message nor reset. */
  ghost predicate Follows(es: seq<Event>, ts: seq<Transfer>, j: nat)
    requires 1 <= j < |ts|
  {
    && ts[j - 1].got < ts[j].sent < |es|
    && forall m :: ts[j - 1].got < m < ts[j].sent ==> IsQuiet(es[m])
  }

  /** The replies the host gets. */
  function RepliesGot(ws: seq<World>, ts: seq<Transfer>): (replies: seq<seq<byte>>)
    ensures |replies| == |ts|
  {
    seq(|ts|, j requires 0 <= j < |ts| => ReplyGot(ws, ts[j]))
  }

  lemma TransferKeepsPower(ws: seq<World>, es: seq<Event>, t: Transfer, a: Short)
    requires IsRun(ws, es) && LockStep(ws, es) && IsTransfer(ws, es, t, a) && ws[t.sent].ccid.powered
    ensures ws[t.got + 1].ccid.powered
  {
    var _, _ := TransferDelivers(ws, es, t, a);
  }

  /** From one answer to the next command the slot stays as it is. */
  lemma SlotBetween(ws: seq<World>, es: seq<Event>, ts: seq<Transfer>, j: nat)
    requires IsRun(ws, es) && 1 <= j < |ts| && Follows(es, ts, j)
    ensures SameSlot(ws[ts[j - 1].got + 1], ws[ts[j].sent])
  {
    QuietInterval(ws, es, ts[j - 1].got + 1, ts[j].sent);
  }

  lemma PowerStep(ws: seq<World>, es: seq<Event>, ts: seq<Transfer>, les: seq<Option<nat>>, j: nat)
    requires IsRun(ws, es) && LockStep(ws, es) && IsFetch(ws, es, ts, les) && 1 <= j < |ts|
    requires ts[j - 1].sent < |es| && ws[ts[j - 1].sent].ccid.powered
    ensures ts[j].sent < |es| && ws[ts[j].sent].ccid.powered
  {
    assert Follows(es, ts, j);
    assert TransferAt(ws, es, ts, les, j - 1);
    TransferKeepsPower(ws, es, ts[j - 1], CommandAt(les, j - 1));
    SlotBetween(ws, es, ts, j);
  }

  /** The slot stays powered from transfer to transfer. */
  lemma {:induction false} StaysPowered(ws: seq<World>, es: seq<Event>, ts: seq<Transfer>, les: seq<Option<nat>>,
                                        j: nat)
    requires IsRun(ws, es) && LockStep(ws, es) && IsFetch(ws, es, ts, les) && j < |ts|
    ensures ts[j].sent < |es| && ws[ts[j].sent].ccid.powered
  {
    if j == 0 {
    } else {
      StaysPowered(ws, es, ts, les, j - 1);
      PowerStep(ws, es, ts, les, j);
    }
  }

  /** The states in which the commands arrive, and the one after the last answer. */
  function CardsOf(ws: seq<World>, ts: seq<Transfer>): (cards: seq<Card>)
    requires |ws| > 0
    ensures |cards| == |ts| + 1
  {
    seq(|ts| + 1, j requires 0 <= j <= |ts| => CardAt(ws, ts, j))
  }

  function CardAt(ws: seq<World>, ts: seq<Transfer>, j: nat): Card
    requires |ws| > 0 && j <= |ts|
  {
    var k := if j < |ts| then ts[j].sent else if j > 0 then ts[j - 1].got + 1 else 0;
    if k < |ws| then ws[k].card else ws[0].card
  }

  lemma NextCard(ws: seq<World>, es: seq<Event>, ts: seq<Transfer>, les: seq<Option<nat>>, j: nat)
    requires IsRun(ws, es) && IsFetch(ws, es, ts, les) && j < |ts|
    ensures ts[j].got < |es| && CardsOf(ws, ts)[j + 1].piv == ws[ts[j].got + 1].card.piv
  {
    assert TransferAt(ws, es, ts, les, j);
    if j + 1 < |ts| {
      assert Follows(es, ts, j + 1);
      SlotBetween(ws, es, ts, j + 1);
    }
  }

  lemma CardHoldsCertificate(ws: seq<World>, es: seq<Event>, ts: seq<Transfer>, les: seq<Option<nat>>, j: nat)
    requires IsRun(ws, es) && IsFetch(ws, es, ts, les) && j < |ts|
    requires ws[0].card.vault.initialized && ws[0].card.vault.cert != []
    ensures HoldsObject(CardsOf(ws, ts)[j], CertObject(ws[0].card.vault.cert))
  {
    assert TransferAt(ws, es, ts, les, j);
    CertificateStays(ws, es, ts[j].sent);
  }

  lemma FetchAt(ws: seq<World>, es: seq<Event>, ts: seq<Transfer>, les: seq<Option<nat>>, j: nat)
    requires IsRun(ws, es) && IsFetch(ws, es, ts, les) && j < |ts|
    ensures IsTransfer(ws, es, ts[j], CommandAt(les, j))
    ensures CardsOf(ws, ts)[j] == ws[ts[j].sent].card
    ensures RepliesGot(ws, ts)[j] == ReplyGot(ws, ts[j])
  {
    assert TransferAt(ws, es, ts, les, j);
  }

  /** Executing `q`, which carries `a`, leads from `card` to the applet state `piv` with `reply`. */
  ghost predicate Explains(q: Request, o: Outcome, a: Short, card: Card, piv: Piv, reply: seq<byte>) {
    && Carries(q, a) && card.WellFormed() && o == ProcessApdu(card, q)
    && piv == o.card.piv && reply == o.reply
  }

  ghost predicate IsExplained(a: Short, card: Card, piv: Piv, reply: seq<byte>) {
    exists q, o :: Explains(q, o, a, card, piv, reply)
  }

  lemma TransferExplained(ws: seq<World>, es: seq<Event>, t: Transfer, a: Short,
                          card: Card, piv: Piv, reply: seq<byte>)
    requires IsRun(ws, es) && LockStep(ws, es) && IsTransfer(ws, es, t, a) && ws[t.sent].ccid.powered
    requires card == ws[t.sent].card && piv == ws[t.got + 1].card.piv && reply == ReplyGot(ws, t)
    ensures IsExplained(a, card, piv, reply)
  {
    var q, o := TransferDelivers(ws, es, t, a);
    assert Explains(q, o, a, card, piv, reply);
  }

  /** Transfer `j` in terms of the applet. */
  ghost predicate ExplainedAt(cards: seq<Card>, les: seq<Option<nat>>, replies: seq<seq<byte>>, j: nat)
    requires j < |les| == |replies| && |cards| == |replies| + 1
  {
    IsExplained(CommandAt(les, j), cards[j], cards[j + 1].piv, replies[j])
  }

  lemma FetchExplained(ws: seq<World>, es: seq<Event>, ts: seq<Transfer>, les: seq<Option<nat>>, j: nat,
                       cards: seq<Card>, replies: seq<seq<byte>>)
    requires IsRun(ws, es) && LockStep(ws, es) && IsFetch(ws, es, ts, les) && j < |ts|
    requires cards == CardsOf(ws, ts) && replies == RepliesGot(ws, ts)
    ensures ExplainedAt(cards, les, replies, j)
  {
    FetchAt(ws, es, ts, les, j);
    StaysPowered(ws, es, ts, les, j);
    NextCard(ws, es, ts, les, j);
    TransferExplained(ws, es, ts[j], CommandAt(les, j), cards[j], cards[j + 1].piv, replies[j]);
  }

  /** `qs` and `outs` explain transfer `j`. */
  ghost predicate Matches(cards: seq<Card>, les: seq<Option<nat>>, replies: seq<seq<byte>>,
                          qs: seq<Request>, outs: seq<Outcome>, j: nat)
    requires j < |les| == |replies| && |cards| == |replies| + 1 && j < |qs| == |outs|
  {
    Explains(qs[j], outs[j], CommandAt(les, j), cards[j], cards[j + 1].piv, replies[j])
  }

  lemma {:induction false} Explanations(cards: seq<Card>, les: seq<Option<nat>>, replies: seq<seq<byte>>, n: nat)
    returns (qs: seq<Request>, outs: seq<Outcome>)
    requires n <= |les| == |replies| && |cards| == |replies| + 1
    requires forall j :: 0 <= j < n ==> ExplainedAt(cards, les, replies, j)
    ensures |qs| == |outs| == n && forall j :: 0 <= j < n ==> Matches(cards, les, replies, qs, outs, j)
  {
    if n == 0 {
      qs, outs := [], [];
    } else {
      var qs', outs' := Explanations(cards, les, replies, n - 1);
      assert ExplainedAt(cards, les, replies, n - 1);
      var q, o :| Explains(q, o, CommandAt(les, n - 1), cards[n - 1], cards[n - 1 + 1].piv, replies[n - 1]);
      qs, outs := qs' + [q], outs' + [o];
      forall j | 0 <= j < n
        ensures Matches(cards, les, replies, qs, outs, j)
      {
        if j < n - 1 {
          assert Matches(cards, les, replies, qs', outs', j);
        }
      }
    }
  }

  /** The transfers on the pipe are a reading of the object on the applet. */
  lemma FetchIsReading(ws: seq<World>, es: seq<Event>, ts: seq<Transfer>, les: seq<Option<nat>>,
                       replies: seq<seq<byte>>)
    returns (cards: seq<Card>, qs: seq<Request>, outs: seq<Outcome>)
    requires IsRun(ws, es) && LockStep(ws, es) && IsFetch(ws, es, ts, les)
    requires replies == RepliesGot(ws, ts)
    requires ws[0].card.vault.initialized && ws[0].card.vault.cert != []
    ensures IsReading(cards, qs, outs, les, CertObject(ws[0].card.vault.cert)) && RepliesOf(outs) == replies
  {
    cards := CardsOf(ws, ts);
    forall j | 0 <= j < |ts|
      ensures ExplainedAt(cards, les, replies, j) && HoldsObject(cards[j], CertObject(ws[0].card.vault.cert))
    {
      FetchExplained(ws, es, ts, les, j, cards, replies);
      CardHoldsCertificate(ws, es, ts, les, j);
    }
    qs, outs := Explanations(cards, les, replies, |ts|);
    MatchesAreReading(cards, les, replies, qs, outs, CertObject(ws[0].card.vault.cert));
  }

  lemma MatchesAreReading(cards: seq<Card>, les: seq<Option<nat>>, replies: seq<seq<byte>>,
                          qs: seq<Request>, outs: seq<Outcome>, obj: seq<byte>)
    requires 2 <= |les| == |replies| == |qs| == |outs| && |cards| == |replies| + 1
    requires forall j :: 0 <= j < |les| ==> IsLe(les[j])
    requires forall j :: 0 <= j < |les| ==> Matches(cards, les, replies, qs, outs, j)
    requires forall j :: 0 <= j < |les| ==> HoldsObject(cards[j], obj)
    ensures IsReading(cards, qs, outs, les, obj) && RepliesOf(outs) == replies
  {
    forall j | 0 <= j < |les|
      ensures Exchanges(cards, qs, outs, j) && ReadingAt(cards, qs, les, obj, j) && outs[j].reply == replies[j]
    {
      assert Matches(cards, les, replies, qs, outs, j);
    }
  }

  /** SELECT succeeds, and the host sees 9000 as soon as its Le values add up to the size of the object. */
  lemma ObjectIsDelivered(ws: seq<World>, es: seq<Event>, ts: seq<Transfer>, les: seq<Option<nat>>,
                          replies: seq<seq<byte>>)
    requires IsRun(ws, es) && LockStep(ws, es) && IsFetch(ws, es, ts, les)
    requires replies == RepliesGot(ws, ts)
    requires ws[0].card.vault.initialized && ws[0].card.vault.cert != []
    requires forall i :: 1 <= i < |replies| - 1 ==> !IsFinal(replies[i])
    ensures IsFinal(replies[0])
    ensures IsFinal(replies[|replies| - 1]) <==>
              Asked(les, |replies|) >= |CertObject(ws[0].card.vault.cert)|
    ensures IsFinal(replies[|replies| - 1]) ==>
              Gathered(replies, |replies|) == CertObject(ws[0].card.vault.cert)
  {
    var cards, qs, outs := FetchIsReading(ws, es, ts, les, replies);
    var obj := CertObject(ws[0].card.vault.cert);
    SelectAnswered(cards, qs, outs, les, obj);
    ReadingProgress(cards, qs, outs, les, obj, |replies|, replies);
    FinalMeansAll(cards[|replies|], replies[|replies| - 1], Gathered(replies, |replies|), obj, Asked(les, |replies|));
  }

  lemma FinalMeansAll(card: Card, reply: seq<byte>, got: seq<byte>, obj: seq<byte>, asked: nat)
    requires HasRead(card, reply, got, obj, asked)
    ensures IsFinal(reply) <==> asked >= |obj|
    ensures IsFinal(reply) ==> got == obj
  {
    if asked >= |obj| {
      WholePrefix(obj, got);
    }
  }

  /** A host that reads until 9000 holds an object that decodes to exactly the stored certificate. */
  lemma CertificateIsDelivered(ws: seq<World>, es: seq<Event>, ts: seq<Transfer>, les: seq<Option<nat>>,
                               replies: seq<seq<byte>>)
    requires IsRun(ws, es) && LockStep(ws, es) && IsFetch(ws, es, ts, les)
    requires replies == RepliesGot(ws, ts)
    requires ws[0].card.vault.initialized && ws[0].card.vault.cert != []
    requires forall i :: 1 <= i < |replies| - 1 ==> !IsFinal(replies[i])
    ensures IsFinal(replies[0])
    ensures IsFinal(replies[|replies| - 1]) <==>
              Asked(les, |replies|) >= |CertObject(ws[0].card.vault.cert)|
    ensures IsFinal(replies[|replies| - 1]) ==>
              ReadCertificate(Gathered(replies, |replies|)) == Some(ws[0].card.vault.cert)
  {
    ObjectIsDelivered(ws, es, ts, les, replies);
    CertificateRoundTrip(ws[0].card.vault.cert);
  }

  /** The same from a store that was saved, powered off and loaded again. */
  lemma CertificateIsDeliveredAfterReboot(keys: Keys, cert: seq<byte>, ws: seq<World>, es: seq<Event>,
                                          ts: seq<Transfer>, les: seq<Option<nat>>, replies: seq<seq<byte>>)
    requires keys.WellFormed() && 1 <= |cert| <= MAX_CERT_LEN
    requires IsRun(ws, es) && LockStep(ws, es) && IsFetch(ws, es, ts, les)
    requires replies == RepliesGot(ws, ts)
    requires ws[0].card.vault == Vault(true, LoadCert(SectorImage(keys, cert)), [])
    requires forall i :: 1 <= i < |replies| - 1 ==> !IsFinal(replies[i])
    ensures IsFinal(replies[|replies| - 1]) <==> Asked(les, |replies|) >= |CertObject(cert)|
    ensures IsFinal(replies[|replies| - 1]) ==> ReadCertificate(Gathered(replies, |replies|)) == Some(cert)
  {
    LoadInvertsSave(keys, cert);
    CertificateIsDelivered(ws, es, ts, les, replies);
  }

  // ---- signing end to end ----

  function Authenticate(t: Template, le: Option<nat>): Short
    requires t.WellFormed()
  {
    Short(0x00, 0x87, 0x11, 0x9A, Print(t), le)
  }

  /**
   A template with a challenge: with an authorization in hand the signer gets exactly the challenge, and the reply
   reads back as exactly its answer; without one the command asks for the button and nothing is signed.
   */
  lemma ChallengeIsSigned(card: Card, q: Request, t: Template, le: Option<nat>)
    requires card.WellFormed() && card.piv.selected && card.piv.pinVerified
    requires t.WellFormed() && Carries(q, Authenticate(t, le))
    ensures DemandOf(card, q) == Some(t.challenge)
    ensures ProcessApdu(card, q) == Authorize(card, t.challenge, q)
  {
    var c := Parse(q.mem, q.rawLen).value;
    assert Data(c, q.mem) == View(q.mem, c).data == Print(t);
    ChallengeInvertsPrint(t);
  }

  /** Which commands reach the gate, and with which challenge. */
  lemma DemandIff(card: Card, q: Request, a: Short, h: seq<byte>)
    requires Carries(q, a)
    ensures DemandOf(card, q) == Some(h) <==>
              && card.piv.selected && card.piv.pinVerified
              && [a.cla, a.ins, a.p1, a.p2] == [0x00, 0x87, 0x11, 0x9A] && Prints(a.data, h)
  {
    var c := Understood(q, a);
    PrintsIff(a.data, h);
  }

  /**
   The same on the bulk pipe, on an authorized card: exactly if the store is up, the challenge has 32 octets and the
   foreign signer answers, the host reads exactly that answer; otherwise it is told 6F00. Either way the challenge
   went to the signer and the press is used up.
   */
  lemma SignatureIsDelivered(ws: seq<World>, es: seq<Event>, x: Transfer, t: Template, le: Option<nat>)
    requires t.WellFormed() && IsRun(ws, es) && LockStep(ws, es) && IsTransfer(ws, es, x, Authenticate(t, le))
    requires ws[x.sent].ccid.powered && ws[x.sent].card.piv.selected && ws[x.sent].card.piv.pinVerified
    requires ws[x.sent].card.fsm.IsAuthorized()
    ensures var pk, reply := es[x.sent].act.pk, ReplyGot(ws, x);
            var signs := ws[x.sent].card.vault.initialized && |t.challenge| == 32 && pk != [];
            && (reply == [0x6F, 0x00] <==> !signs)
            && (ReadSignature(reply) == Some(pk) <==> signs)
    ensures ws[x.sent + 1].card.vault.signed == ws[x.sent].card.vault.signed + [t.challenge]
    ensures ws[x.sent + 1].card.fsm.mode == DeviceState.Idle
  {
    var q, o := TransferDelivers(ws, es, x, Authenticate(t, le));
    ChallengeIsSigned(ws[x.sent].card, q, t, le);
    GateAnswers(ws[x.sent].card, t.challenge, q);
    RefusalIsNoSignature();
  }

  lemma RefusalIsNoSignature()
    ensures ReadSignature([0x6F, 0x00]) == None
  {
    assert [0x6F, 0x00][0..] == [0x6F, 0x00];
  }

  // ---- every command on the pipe ----

  /** Whatever command the host frames on a powered slot: the answer it gets, and the card, are as the edge says. */
  lemma EveryTransferAnswers(ws: seq<World>, es: seq<Event>, x: Transfer, a: Short)
    requires IsRun(ws, es) && LockStep(ws, es) && IsTransfer(ws, es, x, a) && ws[x.sent].ccid.powered
    ensures ws[x.sent].card.WellFormed()
    ensures Conforms(ws[x.sent].card, a, es[x.sent].at, es[x.sent].act.pk, ReplyGot(ws, x), ws[x.sent + 1].card)
  {
    var q, o := TransferDelivers(ws, es, x, a);
    EveryCommandAnswers(ws[x.sent].card, q, a);
  }
}
