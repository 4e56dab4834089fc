/**
 A host that reads the certificate object from the applet: SELECT, GET DATA, and GET RESPONSE until 9000, with any Le
 values.
 */
module Reading {
  import opened Bytes
  import opened Apdu
  import opened PivModel
  import opened Replies
  import opened Chaining
  import opened Transfers

  // ---- progress of a reading ----

  /** The reply ends in 9000. */
  predicate IsFinal(reply: seq<byte>) {
    2 <= |reply| && reply[|reply| - 2] == 0x90 && reply[|reply| - 1] == 0x00
  }

  /**
   A host that has asked for `asked` octets of `obj` has `got`: as many of them as there are. The last reply was 9000
   exactly if that is all, and otherwise the card has the rest in its chain.
   */
  ghost predicate HasRead(card: Card, reply: seq<byte>, got: seq<byte>, obj: seq<byte>, asked: nat) {
    && got <= obj && |got| == Min(|obj|, asked)
    && 2 <= |reply| && (IsFinal(reply) <==> asked >= |obj|)
    && card.piv.selected && (asked < |obj| ==> ChainIs(card.piv, obj, asked))
  }

  lemma ReadsOn(card: Card, card': Card, reply: seq<byte>, got: seq<byte>, obj: seq<byte>, offset: nat, le: nat,
                n: nat)
    requires card.piv.selected && ChainIs(card.piv, obj, offset) && offset < |obj| && got == obj[..offset]
    requires n == Min(|obj| - offset, le) && 1 <= le
    requires card'.piv == card.piv.(chainOffset := offset + n)
    requires reply == obj[offset..offset + n] + RestStatus(|obj| - offset, n)
    ensures HasRead(card', reply, got + Body(reply), obj, offset + le) && 2 <= |reply|
  {
    ChainAdvances(card.piv, obj, offset, n);
    Parts(obj[offset..offset + n], RestStatus(|obj| - offset, n));
    RestStatusTells(|obj| - offset, n);
    AppendNext(obj, got, n);
  }

  // ---- the three commands ----

  lemma SelectWorks(card: Card, q: Request, le: Option<nat>)
    requires card.WellFormed() && Carries(q, SelectPiv(le))
    ensures var o := ProcessApdu(card, q);
            o.card.piv.selected && 2 <= |o.reply| && StatusOf(o.reply) == SwBytes(SW_OK)
  {
    var c := Parse(q.mem, q.rawLen).value;
    assert Data(c, q.mem) == View(q.mem, c).data == AID;
    assert AID[..|AID|] == AID;
    assert SelectStatus(c, q.mem) == SW_OK;
    var reply := ProcessApdu(card, q).reply;
    assert reply == FCI + SwBytes(SW_OK);
  }

  lemma GetCertificateFinds(card: Card, q: Request, le: Option<nat>)
    requires card.WellFormed() && card.piv.selected && card.vault.initialized && card.vault.cert != []
    requires Carries(q, GetCertificate(le))
    ensures Found(card, q) == Some(CertObject(card.vault.cert)) && AskedLe(q) == LeOctets(le)
  {
    var c := Parse(q.mem, q.rawLen).value;
    var d := Data(c, q.mem);
    assert d == View(q.mem, c).data == [0x5C, 0x03, 0x5F, 0xC1, 0x05];
    assert c.hasLc && c.lc == 5 && d == q.mem[5..10] && q.mem[5] == d[0] && q.mem[6] == d[1];
    SliceOfSlice(q.mem, 5, 10, 2, 5);
    assert q.mem[7..10] == d[2..5] == TAG_CERT_9A;
    assert TAG_CERT_9A[2] != TAG_CCC[2] && TAG_CERT_9A[2] != TAG_CHUID[2];
  }

  lemma GetRestReads(card: Card, q: Request, le: Option<nat>)
    requires card.WellFormed() && card.piv.selected && Carries(q, GetRest(le))
    ensures ReadsChain(card, q) && AskedLe(q) == LeOctets(le)
  {
  }

  /** The answer to the GET DATA: all of the object, or its beginning and a chain for the rest. */
  lemma FirstPart(card: Card, q: Request, obj: seq<byte>)
    requires card.WellFormed() && q.Legal() && MAX_REPLY <= q.capacity && Found(card, q) == Some(obj)
    ensures var o := ProcessApdu(card, q); HasRead(o.card, o.reply, Body(o.reply), obj, AskedLe(q))
  {
    if StartsChain(card, q) {
      StartStep(card, q);
      ReadsBeginning(ProcessApdu(card, q), obj, AskedLe(q));
    } else {
      WholeStep(card, q);
      ReadsWhole(card, obj, AskedLe(q));
    }
  }

  lemma ReadsBeginning(o: Outcome, obj: seq<byte>, le: nat)
    requires 2 <= |o.reply| && le < |obj| && ChainIs(o.card.piv, obj, le) && o.card.piv.selected
    requires Body(o.reply) == obj[..le] && StatusOf(o.reply)[0] == 0x61
    ensures HasRead(o.card, o.reply, Body(o.reply), obj, le)
  {
    assert SwBytes(SW_OK)[0] == 0x90;
  }

  lemma ReadsWhole(card: Card, obj: seq<byte>, le: nat)
    requires card.piv.selected && |obj| <= le
    ensures var reply := obj + SwBytes(SW_OK); HasRead(card, reply, Body(reply), obj, le)
  {
    Parts(obj, SwBytes(SW_OK));
    assert obj[..|obj|] == obj;
  }

  // ---- reading, as the applet sees it ----

  /** The command of the `j`th transfer, given the Le of each. */
  function CommandAt(les: seq<Option<nat>>, j: nat): Short
    requires j < |les|
  {
    if j == 0 then SelectPiv(les[j]) else if j == 1 then GetCertificate(les[j]) else GetRest(les[j])
  }

  /** The certificate object of `card` is `obj`. */
  ghost predicate HoldsObject(card: Card, obj: seq<byte>) {
    card.vault.initialized && card.vault.cert != [] && obj == CertObject(card.vault.cert)
  }

  /** SELECT, GET DATA and any number of GET RESPONSEs, on cards that all hold `obj`. */
  ghost predicate IsReading(cards: seq<Card>, qs: seq<Request>, outs: seq<Outcome>, les: seq<Option<nat>>,
                            obj: seq<byte>)
  {
    && IsExchange(cards, qs, outs) && |les| == |qs| >= 2
    && forall j :: 0 <= j < |qs| ==> ReadingAt(cards, qs, les, obj, j)
  }

  ghost predicate ReadingAt(cards: seq<Card>, qs: seq<Request>, les: seq<Option<nat>>, obj: seq<byte>, j: nat)
    requires j < |les| == |qs| < |cards|
  {
    IsLe(les[j]) && Carries(qs[j], CommandAt(les, j)) && HoldsObject(cards[j], obj)
  }

  /** The octets in the replies 1 to `j - 1`, status words taken off. */
  function Gathered(replies: seq<seq<byte>>, j: nat): seq<byte>
    requires 1 <= j <= |replies|
  {
    if j == 1 then []
    else Gathered(replies, j - 1) + (if 2 <= |replies[j - 1]| then Body(replies[j - 1]) else [])
  }

  /** How much has been asked for in commands 1 to `j - 1`. */
  function Asked(les: seq<Option<nat>>, j: nat): nat
    requires 1 <= j <= |les|
  {
    if j == 1 then 0 else Asked(les, j - 1) + LeOctets(les[j - 1])
  }

  function RepliesOf(outs: seq<Outcome>): (replies: seq<seq<byte>>)
    ensures |replies| == |outs| && forall j :: 0 <= j < |outs| ==> replies[j] == outs[j].reply
  {
    seq(|outs|, j requires 0 <= j < |outs| => outs[j].reply)
  }

  lemma SelectAnswered(cards: seq<Card>, qs: seq<Request>, outs: seq<Outcome>, les: seq<Option<nat>>,
                       obj: seq<byte>)
    requires IsReading(cards, qs, outs, les, obj)
    ensures IsFinal(outs[0].reply) && cards[1].piv.selected
  {
    assert Exchanges(cards, qs, outs, 0);
    assert ReadingAt(cards, qs, les, obj, 0);
    SelectWorks(cards[0], qs[0], les[0]);
  }

  /** After GET DATA: the whole object and 9000, or its first octets and a chain. */
  lemma ObjectBegun(cards: seq<Card>, qs: seq<Request>, outs: seq<Outcome>, les: seq<Option<nat>>, obj: seq<byte>)
    requires IsReading(cards, qs, outs, les, obj)
    ensures 2 <= |outs[1].reply|
    ensures HasRead(cards[2], outs[1].reply, Body(outs[1].reply), obj, LeOctets(les[1]))
  {
    SelectAnswered(cards, qs, outs, les, obj);
    assert Exchanges(cards, qs, outs, 1);
    assert ReadingAt(cards, qs, les, obj, 1);
    GetCertificateFinds(cards[1], qs[1], les[1]);
    FirstPart(cards[1], qs[1], obj);
  }

  /** One GET RESPONSE more. */
  lemma ObjectContinued(cards: seq<Card>, qs: seq<Request>, outs: seq<Outcome>, les: seq<Option<nat>>,
                        j: nat, obj: seq<byte>, offset: nat)
    requires IsReading(cards, qs, outs, les, obj) && 2 <= j < |qs|
    requires cards[j].piv.selected && ChainIs(cards[j].piv, obj, offset) && offset < |obj|
    ensures 2 <= |outs[j].reply|
    ensures HasRead(cards[j + 1], outs[j].reply, obj[..offset] + Body(outs[j].reply), obj, offset + LeOctets(les[j]))
  {
    assert Exchanges(cards, qs, outs, j);
    assert ReadingAt(cards, qs, les, obj, j);
    GetRestReads(cards[j], qs[j], les[j]);
    var n := ReadStep(cards[j], qs[j], obj, offset);
    ReadsOn(cards[j], cards[j + 1], outs[j].reply, obj[..offset], obj, offset, LeOctets(les[j]), n);
  }

  /**
   As long as the host stops at the first 9000: after `j` commands it has exactly as much of the object as it has
   asked for, and it sees 9000 exactly when that is all.
   */
  lemma {:induction false} ReadingProgress(cards: seq<Card>, qs: seq<Request>, outs: seq<Outcome>,
                                           les: seq<Option<nat>>, obj: seq<byte>, j: nat, replies: seq<seq<byte>>)
    requires IsReading(cards, qs, outs, les, obj) && 2 <= j <= |qs|
    requires replies == RepliesOf(outs) && forall i :: 1 <= i < j - 1 ==> !IsFinal(replies[i])
    ensures HasRead(cards[j], replies[j - 1], Gathered(replies, j), obj, Asked(les, j))
  {
    if j == 2 {
      ObjectBegun(cards, qs, outs, les, obj);
      assert Gathered(replies, 1) == [] && Asked(les, 1) == 0;
      assert Gathered(replies, 2) == Body(replies[1]);
    } else {
      ReadingProgress(cards, qs, outs, les, obj, j - 1, replies);
      assert !IsFinal(replies[j - 2]);
      ObjectContinued(cards, qs, outs, les, j - 1, obj, Asked(les, j - 1));
    }
  }
}
