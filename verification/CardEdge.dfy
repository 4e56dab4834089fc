/**
 The card edge: what a host is told for every command, and what becomes of the card, in octets alone (ISO/IEC
 7816-4:2005 section 5, NIST SP 800-73-4 Part 2, section 3). Nothing here is said through the functions that compute
 the answers.
 */
module CardEdge {
  import opened Bytes
  import opened Apdu
  import opened DeviceState
  import opened KeyStore
  import opened PivModel
  import opened Objects
  import opened Replies
  import opened CardObjects

  /** Two octets of status, and nothing has happened. */
  predicate Refused(card: Card, reply: seq<byte>, card': Card, sw1: byte, sw2: byte) {
    reply == [sw1, sw2] && card' == card
  }

  // ---- what the command says ----

  lemma Understood(q: Request, a: Short) returns (c: Command)
    requires Carries(q, a)
    ensures Parse(q.mem, q.rawLen) == Some(c) && CommandIn(c, q.mem)
    ensures c.cla == a.cla && c.ins == a.ins && c.p1 == a.p1 && c.p2 == a.p2
    ensures Data(c, q.mem) == a.data && EffectiveLe(c) == LeOctets(a.le)
    ensures c.hasLc ==> c.lc == |a.data| && forall i :: 0 <= i < |a.data| ==> a.data[i] == q.mem[5 + i]
    ensures !c.hasLc ==> a.data == []
  {
    c := Parse(q.mem, q.rawLen).value;
  }

  lemma StatusOctets()
    ensures SwBytes(SW_OK) == [0x90, 0x00] && SwBytes(0x63C3) == [0x63, 0xC3]
    ensures SwBytes(SW_WRONG_LENGTH) == [0x67, 0x00] && SwBytes(SW_SECURITY_NOT_SATISFIED) == [0x69, 0x82]
    ensures SwBytes(SW_CONDITIONS_NOT_SATISFIED) == [0x69, 0x85] && SwBytes(SW_WRONG_DATA) == [0x6A, 0x80]
    ensures SwBytes(SW_FILE_NOT_FOUND) == [0x6A, 0x82] && SwBytes(SW_INCORRECT_P1P2) == [0x6A, 0x86]
    ensures SwBytes(SW_REFERENCED_DATA_NOT_FOUND) == [0x6A, 0x88] && SwBytes(SW_UNKNOWN) == [0x6F, 0x00]
  {
  }

  // ---- routing ----

  /** The five instructions: SELECT, VERIFY, GET DATA, GET RESPONSE, GENERAL AUTHENTICATE. */
  predicate IsKnown(ins: byte) {
    ins in {0xA4, 0x20, 0xCB, 0xC0, 0x87}
  }

  /** Other classes, a card that has not been selected, and other instructions. */
  lemma Misrouted(card: Card, q: Request, a: Short)
    requires card.WellFormed() && Carries(q, a)
    requires a.cla != 0x00 || (a.ins != 0xA4 && !card.piv.selected) || !IsKnown(a.ins)
    ensures var o := ProcessApdu(card, q);
            if a.cla != 0x00 then Refused(card, o.reply, o.card, 0x6E, 0x00)
            else if !card.piv.selected then Refused(card, o.reply, o.card, 0x69, 0x85)
            else Refused(card, o.reply, o.card, 0x6D, 0x00)
  {
    var _ := Understood(q, a);
  }

  // ---- SELECT ----

  ghost predicate SelectEdge(card: Card, a: Short, reply: seq<byte>, card': Card) {
    && (reply == [0x6A, 0x86] <==> a.p1 != 0x04)
    && (reply == [0x6A, 0x80] <==> a.p1 == 0x04 && |a.data| < 11)
    && (reply == [0x6A, 0x82] <==> a.p1 == 0x04 && |a.data| >= 11 && !NamesPiv(a.data))
    && (if a.p1 == 0x04 && NamesPiv(a.data)
        then IsOkWithFci(reply) && card' == card.(piv := card.piv.(selected := true))
        else card' == card)
  }

  ghost predicate IsOkWithFci(reply: seq<byte>) {
    3 <= |reply| && reply[|reply| - 2..] == [0x90, 0x00] && IsFci(reply[..|reply| - 2])
  }

  lemma SelectAnswers(card: Card, q: Request, a: Short)
    requires card.WellFormed() && Carries(q, a) && a.cla == 0x00 && a.ins == 0xA4
    ensures var o := ProcessApdu(card, q); SelectEdge(card, a, o.reply, o.card)
  {
    var c := Understood(q, a);
    assert ProcessApdu(card, q) == Select(card, c, q);
    SelectStatusIs(c, q.mem, a.p1, a.data);
    StatusOctets();
    if SelectStatus(c, q.mem) == SW_OK {
      FciReply(q.capacity);
    }
  }

  lemma SelectStatusIs(c: Command, mem: seq<byte>, p1: byte, data: seq<byte>)
    requires CommandIn(c, mem) && p1 == c.p1 && data == Data(c, mem)
    ensures SelectStatus(c, mem) == if p1 != 0x04 then SW_INCORRECT_P1P2
                                    else if |data| < 11 then SW_WRONG_DATA
                                    else if !NamesPiv(data) then SW_FILE_NOT_FOUND
                                    else SW_OK
  {
    assert NamesPiv(data) <==> |data| >= 11 && data[..11] == AID;
  }

  lemma FciReply(capacity: nat)
    requires MAX_REPLY <= capacity
    ensures IsOkWithFci(StartResponse(capacity).Append(FCI).Finalize(SW_OK))
  {
    var reply := StartResponse(capacity).Append(FCI).Finalize(SW_OK);
    StatusOctets();
    assert reply == FCI + [0x90, 0x00];
    assert reply[..|reply| - 2] == FCI;
    FciIsRead();
  }

  // ---- VERIFY ----

  /** "123456", padded with FF to eight octets. */
  predicate IsPin(data: seq<byte>) {
    data == [0x31, 0x32, 0x33, 0x34, 0x35, 0x36, 0xFF, 0xFF]
  }

  predicate VerifyEdge(card: Card, a: Short, reply: seq<byte>, card': Card) {
    var p1p2 := [a.p1, a.p2];
    && (reply == [0x90, 0x00] <==> p1p2 == [0x00, 0x80] && IsPin(a.data))
    && (reply == [0x69, 0x82] <==> p1p2 == [0x00, 0x80] && |a.data| == 8 && !IsPin(a.data))
    && (reply == [0x63, 0xC3] <==> p1p2 == [0x00, 0x80] && a.data == [])
    && (reply == [0x67, 0x00] <==> p1p2 == [0x00, 0x80] && |a.data| !in {0, 8})
    && (reply == [0x6A, 0x86] <==> a.p1 != 0x00)
    && (reply == [0x6A, 0x88] <==> a.p1 == 0x00 && a.p2 != 0x80)
    && card' == card.(piv := card.piv.(pinVerified :=
                 reply == [0x90, 0x00] || (card.piv.pinVerified && reply != [0x69, 0x82])))
  }

  lemma VerifyAnswers(card: Card, q: Request, a: Short)
    requires card.WellFormed() && Carries(q, a) && a.cla == 0x00 && a.ins == 0x20 && card.piv.selected
    ensures var o := ProcessApdu(card, q); VerifyEdge(card, a, o.reply, o.card)
  {
    var c := Understood(q, a);
    assert ProcessApdu(card, q) == Verify(card, c, q);
    StatusOctets();
    PinOctets(a.data);
  }

  lemma PinOctets(data: seq<byte>)
    ensures IsPin(data) <==> data == PIN
  {
  }

  // ---- GET DATA ----

  /** The object that a tag names; 9A has one only if the store is up and has a certificate. */
  ghost predicate Named(card: Card, tag: seq<byte>, obj: seq<byte>) {
    || (tag == [0x5F, 0xC1, 0x07] && ReadsAs(obj, 0x53, CapabilityElements()))
    || (tag == [0x5F, 0xC1, 0x02] && ReadsAs(obj, 0x53, HolderElements()))
    || (tag == [0x5F, 0xC1, 0x05] && HasCertificate(card) && ReadCertificate(obj) == Some(card.vault.cert))
    || (tag == [0x7E] && IsDiscovery(obj))
  }

  predicate HasCertificate(card: Card) {
    card.vault.initialized && card.vault.cert != []
  }

  predicate IsNameOfObject(card: Card, tag: seq<byte>) {
    || tag in {[0x5F, 0xC1, 0x07], [0x5F, 0xC1, 0x02], [0x7E]}
    || (tag == [0x5F, 0xC1, 0x05] && HasCertificate(card))
  }

  /** All of `obj` and 9000, or its first `le` octets, 61xx with the rest, and the rest in the chain. */
  ghost predicate Delivers(card: Card, obj: seq<byte>, le: nat, reply: seq<byte>, card': Card) {
    if |obj| <= le then reply == obj + [0x90, 0x00] && card' == card
    else
      && reply == obj[..le] + [0x61, Min(|obj| - le, 0xFF)]
      && card'.piv.WellFormed() && card'.piv.Pending() == obj[le..] && OnlyChainMoved(card, card')
  }

  predicate OnlyChainMoved(card: Card, card': Card) {
    card'.piv.selected == card.piv.selected && card'.piv.pinVerified == card.piv.pinVerified
    && card'.fsm == card.fsm && card'.vault == card.vault
  }

  ghost predicate TagEdge(card: Card, tag: seq<byte>, le: nat, reply: seq<byte>, card': Card) {
    if IsNameOfObject(card, tag)
    then exists obj :: Named(card, tag, obj) && Delivers(card, obj, le, reply, card')
    else Refused(card, reply, card', 0x6A, 0x88)
  }

  /** 5C, a tag length of 1 or 3, and at least one octet of the tag. */
  predicate IsTagList(data: seq<byte>) {
    |data| >= 3 && data[0] == 0x5C && (data[1] == 0x01 || data[1] == 0x03)
  }

  /** The tag asked for; where the data ends before the tag does, any octets can complete it. */
  predicate AsksFor(data: seq<byte>, tag: seq<byte>)
    requires IsTagList(data)
  {
    |tag| == data[1] && forall i :: 0 <= i < |tag| && 2 + i < |data| ==> tag[i] == data[2 + i]
  }

  ghost predicate DataEdge(card: Card, a: Short, reply: seq<byte>, card': Card) {
    if [a.p1, a.p2] != [0x3F, 0xFF] then Refused(card, reply, card', 0x6A, 0x86)
    else if !IsTagList(a.data) then Refused(card, reply, card', 0x6A, 0x80)
    else exists tag :: AsksFor(a.data, tag) && TagEdge(card, tag, LeOctets(a.le), reply, card')
  }

  /** The applet finds the object that the tag names. */
  lemma LookupFinds(card: Card, tagLen: byte, tag: seq<byte>)
    requires card.WellFormed() && |tag| == 3 && (tagLen == 1 || tagLen == 3)
    ensures var name := tag[..tagLen];
            var found := Lookup(card.vault, tagLen, tag);
            && (found.Some? <==> IsNameOfObject(card, name))
            && (found.Some? ==> Named(card, name, found.value))
  {
    var name := tag[..tagLen];
    if tagLen == 1 {
      assert name == [0x7E] <==> tag[0] == 0x7E;
      DiscoveryIsRead();
    } else {
      assert name == tag;
      CapabilityIsRead();
      HolderIsRead();
      CertificateRoundTrip(card.vault.cert);
    }
  }

  lemma DeliverDelivers(card: Card, c: Command, q: Request, obj: seq<byte>, le: nat)
    requires card.WellFormed() && q.Legal() && MAX_REPLY <= q.capacity && |obj| <= BUFFER
    requires le == EffectiveLe(c) && 1 <= le <= 256
    ensures var o := Deliver(card, c, q, obj); Delivers(card, obj, le, o.reply, o.card)
  {
    var o := Deliver(card, c, q, obj);
    StatusOctets();
    if |obj| <= le {
      assert StartResponse(q.capacity).Append(obj).body == obj;
    } else {
      assert StartResponse(q.capacity).Append(obj[..le]).body == obj[..le];
      MoreDataIsStatus(|obj| - le);
      var buf := o.card.piv.chainBuf;
      assert buf[..|obj|] == obj;
      assert buf[le..|obj|] == buf[..|obj|][le..];
    }
  }

  lemma TagListIs(q: Request, a: Short, c: Command)
    requires Carries(q, a) && Parse(q.mem, q.rawLen) == Some(c)
    ensures CommandIn(c, q.mem)
    ensures DataRequestStatus(c, q.mem) == if [a.p1, a.p2] != [0x3F, 0xFF] then SW_INCORRECT_P1P2
                                           else if !IsTagList(a.data) then SW_WRONG_DATA
                                           else SW_OK
    ensures IsTagList(a.data) ==> q.mem[6] == a.data[1] && AsksFor(a.data, q.mem[7..10][..q.mem[6]])
  {
    var _ := Understood(q, a);
  }

  lemma DataAnswers(card: Card, q: Request, a: Short)
    requires card.WellFormed() && Carries(q, a) && a.cla == 0x00 && a.ins == 0xCB && card.piv.selected
    ensures var o := ProcessApdu(card, q); DataEdge(card, a, o.reply, o.card)
  {
    var c := Understood(q, a);
    assert ProcessApdu(card, q) == GetData(card, c, q);
    TagListIs(q, a, c);
    StatusOctets();
    if DataRequestStatus(c, q.mem) == SW_OK {
      TagIsAnswered(card, q, a, c);
    }
  }

  lemma TagIsAnswered(card: Card, q: Request, a: Short, c: Command)
    requires card.WellFormed() && q.Legal() && MAX_REPLY <= q.capacity && CommandIn(c, q.mem)
    requires EffectiveLe(c) == LeOctets(a.le) && 1 <= EffectiveLe(c) <= 256
    requires DataRequestStatus(c, q.mem) == SW_OK
    ensures var o := GetData(card, c, q);
            TagEdge(card, q.mem[7..10][..q.mem[6]], LeOctets(a.le), o.reply, o.card)
  {
    LookupFinds(card, q.mem[6], q.mem[7..10]);
    StatusOctets();
    var found := Lookup(card.vault, q.mem[6], q.mem[7..10]);
    if found.Some? {
      ObjectFits(card.vault, q.mem[6], q.mem[7..10]);
      DeliverDelivers(card, c, q, found.value, LeOctets(a.le));
    }
  }

  // ---- GET RESPONSE ----

  ghost predicate ResponseEdge(card: Card, a: Short, reply: seq<byte>, card': Card)
    requires card.WellFormed()
  {
    var pending, le := card.piv.Pending(), LeOctets(a.le);
    && (reply == [0x69, 0x85] <==> pending == [])
    && (if pending == [] then card' == card
        else
          && card'.piv.WellFormed() && OnlyChainMoved(card, card')
          && (if |pending| <= le then reply == pending + [0x90, 0x00] && card'.piv.Pending() == []
              else reply == pending[..le] + [0x61, Min(|pending| - le, 0xFF)] && card'.piv.Pending() == pending[le..]))
  }

  lemma ResponseAnswers(card: Card, q: Request, a: Short)
    requires card.WellFormed() && Carries(q, a) && a.cla == 0x00 && a.ins == 0xC0 && card.piv.selected
    ensures var o := ProcessApdu(card, q); ResponseEdge(card, a, o.reply, o.card)
  {
    var c := Understood(q, a);
    assert ProcessApdu(card, q) == GetResponse(card, c, q);
    StatusOctets();
    if card.piv.Pending() != [] {
      PendingIsGiven(card, c, q, LeOctets(a.le));
    }
  }

  lemma PendingIsGiven(card: Card, c: Command, q: Request, le: nat)
    requires card.WellFormed() && q.Legal() && MAX_REPLY <= q.capacity && le == EffectiveLe(c) && 1 <= le <= 256
    requires card.piv.Pending() != []
    ensures var o, pending := GetResponse(card, c, q), card.piv.Pending();
            && o.card.piv.WellFormed() && OnlyChainMoved(card, o.card)
            && (if |pending| <= le then o.reply == pending + [0x90, 0x00] && o.card.piv.Pending() == []
                else
                  && o.reply == pending[..le] + [0x61, Min(|pending| - le, 0xFF)]
                  && o.card.piv.Pending() == pending[le..])
  {
    var p, pending := card.piv, card.piv.Pending();
    var n := Min(|pending|, le);
    StatusOctets();
    assert StartResponse(q.capacity).Append(pending[..n]).body == pending[..n];
    if |pending| <= le {
      assert pending[..n] == pending;
    } else {
      MoreDataIsStatus(|pending| - le);
      SliceOfSlice(p.chainBuf, p.chainOffset, p.chainLen, le, |pending|);
    }
  }

  // ---- GENERAL AUTHENTICATE ----

  /** The data is a template with the challenge `h`: 7C L 82 00 81 n, the challenge, and anything. */
  ghost predicate Prints(data: seq<byte>, h: seq<byte>) {
    exists t: Template :: t.WellFormed() && Print(t) == data && t.challenge == h
  }

  lemma PrintsIff(data: seq<byte>, h: seq<byte>)
    ensures Prints(data, h) <==> Challenge(data) == Some(h)
  {
    if Challenge(data).Some? {
      PrintInvertsChallenge(data);
      ChallengeInvertsPrint(Reprint(data));
    }
    if t: Template :| t.WellFormed() && Print(t) == data && t.challenge == h {
      ChallengeInvertsPrint(t);
    }
  }

  /** With the press: the challenge goes to the signer. Without: the machine waits for the button. */
  predicate GateEdge(card: Card, h: seq<byte>, now: nat, pk: seq<byte>, reply: seq<byte>, card': Card) {
    if card.fsm.mode == Authorized && !card.fsm.authConsumed
    then
      && card'.piv == card.piv && card'.vault == card.vault.(signed := card.vault.signed + [h])
      && card'.fsm.mode == Idle
      && (if card.vault.initialized && |h| == 32 && pk != [] then ReadSignature(reply) == Some(pk)
          else reply == [0x6F, 0x00])
    else
      && reply == [0x69, 0x85]
      && card' == card.(fsm := if card.fsm.mode == Idle
                               then card.fsm.(mode := WaitingButton, deadline := now + 30_000_000)
                               else card.fsm)
  }

  /** The checks in their order: algorithm, key, PIN, length, template. */
  ghost predicate AuthenticateEdge(card: Card, a: Short, now: nat, pk: seq<byte>, reply: seq<byte>, card': Card) {
    if a.p1 != 0x11 then Refused(card, reply, card', 0x6A, 0x86)
    else if a.p2 != 0x9A then Refused(card, reply, card', 0x6A, 0x88)
    else if !card.piv.pinVerified then Refused(card, reply, card', 0x69, 0x82)
    else if |a.data| < 4 then Refused(card, reply, card', 0x67, 0x00)
    else if !exists h :: Prints(a.data, h) then Refused(card, reply, card', 0x6A, 0x80)
    else exists h :: Prints(a.data, h) && GateEdge(card, h, now, pk, reply, card')
  }

  lemma GateAnswers(card: Card, h: seq<byte>, q: Request)
    requires card.WellFormed() && q.Legal() && MAX_REPLY <= q.capacity
    ensures var o := Authorize(card, h, q); GateEdge(card, h, q.now, q.pk, o.reply, o.card)
  {
    StatusOctets();
    SignatureRoundTrip(Signature(card.vault, KEY_REF_9A, ALG_ECDSA_P256, h, MAX_SIGNATURE, q.pk), q.capacity);
  }

  lemma AuthenticateAnswers(card: Card, q: Request, a: Short)
    requires card.WellFormed() && Carries(q, a) && a.cla == 0x00 && a.ins == 0x87 && card.piv.selected
    ensures var o := ProcessApdu(card, q); AuthenticateEdge(card, a, q.now, q.pk, o.reply, o.card)
  {
    var c := Understood(q, a);
    assert ProcessApdu(card, q) == GeneralAuthenticate(card, c, q);
    StatusOctets();
    forall h
      ensures Prints(a.data, h) <==> Challenge(a.data) == Some(h)
    {
      PrintsIff(a.data, h);
    }
    if Challenge(a.data).Some? {
      GateAnswers(card, Challenge(a.data).value, q);
      assert Prints(a.data, Challenge(a.data).value);
    }
  }

  // ---- every command ----

  /** What a host is told for any command, and what becomes of the card. */
  ghost predicate Conforms(card: Card, a: Short, now: nat, pk: seq<byte>, reply: seq<byte>, card': Card)
    requires card.WellFormed()
  {
    if a.cla != 0x00 then Refused(card, reply, card', 0x6E, 0x00)
    else if a.ins == 0xA4 then SelectEdge(card, a, reply, card')
    else if !card.piv.selected then Refused(card, reply, card', 0x69, 0x85)
    else if a.ins == 0x20 then VerifyEdge(card, a, reply, card')
    else if a.ins == 0xCB then DataEdge(card, a, reply, card')
    else if a.ins == 0xC0 then ResponseEdge(card, a, reply, card')
    else if a.ins == 0x87 then AuthenticateEdge(card, a, now, pk, reply, card')
    else Refused(card, reply, card', 0x6D, 0x00)
  }

  lemma EveryCommandAnswers(card: Card, q: Request, a: Short)
    requires card.WellFormed() && Carries(q, a)
    ensures var o := ProcessApdu(card, q); Conforms(card, a, q.now, q.pk, o.reply, o.card)
  {
    if a.cla != 0x00 {
      Misrouted(card, q, a);
    } else if a.ins == 0xA4 {
      SelectAnswers(card, q, a);
    } else if !card.piv.selected {
      Misrouted(card, q, a);
    } else if a.ins == 0x20 {
      VerifyAnswers(card, q, a);
    } else if a.ins == 0xCB {
      DataAnswers(card, q, a);
    } else if a.ins == 0xC0 {
      ResponseAnswers(card, q, a);
    } else if a.ins == 0x87 {
      AuthenticateAnswers(card, q, a);
    } else {
      Misrouted(card, q, a);
    }
  }

  /** Octets that are no command: fewer than four, or an Lc that promises more than arrived. */
  lemma MalformedAnswers(card: Card, q: Request)
    requires card.WellFormed() && q.Legal()
    requires q.rawLen < 4 || 6 <= q.rawLen < 5 + q.mem[4] as nat
    ensures var o := ProcessApdu(card, q); Refused(card, o.reply, o.card, 0x6F, 0x00)
  {
    StatusOctets();
  }
}
