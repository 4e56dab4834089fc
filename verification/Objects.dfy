/** What the data the applet builds and takes apart means to a reader of the standards. */
module Objects {
  import opened Bytes
  import opened Apdu
  import opened KeyStore
  import opened PivModel
  import Tlv

  // ---- the certificate object ----

  /** What a host reads from a certificate object (NIST SP 800-73-4 Part 2, section 3.1.2), with nothing left over. */
  function ReadCertificate(obj: seq<byte>): Option<seq<byte>> {
    match Tlv.Decode(obj)
    case None => None
    case Some(outer) =>
      if |outer| != 1 || outer[0].tag != 0x53 then None
      else
        match Tlv.Decode(outer[0].value)
        case None => None
        case Some(es) =>
          if |es| == 3 && es[0].tag == 0x70 && es[1] == Tlv.Element(0x71, [0x00]) && es[2] == Tlv.Element(0xFE, [])
          then Some(es[0].value)
          else None
  }

  /** Every certificate the store can hold is read back from its object, across all three length forms. */
  lemma CertificateRoundTrip(cert: seq<byte>)
    requires |cert| <= MAX_CERT_LEN
    ensures ReadCertificate(CertObject(cert)) == Some(cert)
    ensures |CertObject(cert)| <= BUFFER
  {
    CertObjectSize(cert);
    CertElementsOctets(cert);
    Tlv.DecodeEncodeAll(CertElements(cert));
    Tlv.DecodeEncodeOne(Tlv.Element(0x53, Tlv.EncodeAll(CertElements(cert))));
  }

  // ---- the authentication template ----

  /** How a host prints a challenge: the value of the template length is free, and so is what follows. */
  datatype Template = Template(length: seq<byte>, challenge: seq<byte>, trailer: seq<byte>) {
    /** The length field is one short-form octet or 81 and one octet. */
    predicate WellFormed() {
      && ((|length| == 1 && length[0] < 0x80) || (|length| == 2 && length[0] == 0x81))
      && 1 <= |challenge| <= 64
    }
  }

  function Print(t: Template): seq<byte>
    requires t.WellFormed()
  {
    [0x7C] + t.length + [0x82, 0x00, 0x81, |t.challenge|] + t.challenge + t.trailer
  }

  lemma Regroup(a: seq<byte>, x: seq<byte>, c: seq<byte>, r: seq<byte>)
    ensures a + x + c + r == a + (x + c + r)
  {
  }

  lemma MiddlePart(a: seq<byte>, b: seq<byte>, c: seq<byte>)
    ensures (a + b + c)[|a|..|a| + |b|] == b && (a + b + c)[|a| + |b|..] == c
  {
  }

  lemma FirstAndRest(x: byte, r: seq<byte>)
    ensures ([x] + r)[0] == x && ([x] + r)[1..] == r
  {
  }

  /** The parser passes on exactly the challenge that was printed. */
  lemma ChallengeInvertsPrint(t: Template)
    requires t.WellFormed()
    ensures Challenge(Print(t)) == Some(t.challenge)
  {
    var head, tag := [0x7C] + t.length, [0x82, 0x00, 0x81, |t.challenge|];
    var tail := tag + t.challenge + t.trailer;
    Regroup(head, tag, t.challenge, t.trailer);
    TemplateIsSkipped(t.length, tail);
    MiddlePart(tag, t.challenge, t.trailer);
  }

  /** Tag and length of the template are skipped. */
  lemma TemplateIsSkipped(length: seq<byte>, tail: seq<byte>)
    requires (|length| == 1 && length[0] < 0x80) || (|length| == 2 && length[0] == 0x81)
    ensures Challenge([0x7C] + length + tail) == TaggedChallenge(tail)
  {
    assert [0x7C] + length + tail == [0x7C] + (length + tail);
    FirstAndRest(0x7C, length + tail);
    MiddlePart([0x7C], length, tail);
    LengthOfTemplate(length, tail);
  }

  lemma LengthOfTemplate(length: seq<byte>, tail: seq<byte>)
    requires (|length| == 1 && length[0] < 0x80) || (|length| == 2 && length[0] == 0x81)
    ensures TemplateLengthOctets(length + tail) == Some(|length|)
  {
  }

  lemma TailParts(tail: seq<byte>)
    requires TaggedChallenge(tail).Some?
    ensures var c := TaggedChallenge(tail).value;
            4 + |c| <= |tail| && tail == [0x82, 0x00, 0x81, |c|] + c + tail[4 + |c|..]
  {
  }

  /** The printed form of data the parser accepts. */
  function Reprint(d: seq<byte>): (t: Template)
    requires Challenge(d).Some?
  {
    var n := TemplateLengthOctets(d[1..]).value;
    var c := TaggedChallenge(d[1 + n..]).value;
    TailParts(d[1 + n..]);
    Template(d[1..1 + n], c, d[1 + n..][4 + |c|..])
  }

  lemma HeadAndTail(d: seq<byte>, n: nat)
    requires 1 + n <= |d|
    ensures d == [d[0]] + d[1..1 + n] + d[1 + n..]
  {
  }

  lemma PrintInvertsChallenge(d: seq<byte>)
    requires Challenge(d).Some?
    ensures Reprint(d).WellFormed() && Print(Reprint(d)) == d
  {
    var n, t := TemplateLengthOctets(d[1..]).value, Reprint(d);
    TailParts(d[1 + n..]);
    HeadAndTail(d, n);
    Regroup([0x7C] + t.length, [0x82, 0x00, 0x81, |t.challenge|], t.challenge, t.trailer);
  }

  /** The parser accepts exactly the printed templates. */
  lemma ChallengeAcceptsIff(d: seq<byte>)
    ensures Challenge(d).Some? <==> exists t: Template :: t.WellFormed() && Print(t) == d
  {
    if Challenge(d).Some? {
      PrintInvertsChallenge(d);
    }
    if t: Template :| t.WellFormed() && Print(t) == d {
      ChallengeInvertsPrint(t);
    }
  }

  /** What a host reads from a signature reply: 7C { 82 { signature } } and the status word. */
  function ReadSignature(reply: seq<byte>): Option<seq<byte>> {
    if |reply| < 2 || reply[|reply| - 2..] != [0x90, 0x00] then None
    else
      match Tlv.Decode(reply[..|reply| - 2])
      case None => None
      case Some(outer) =>
        if |outer| != 1 || outer[0].tag != 0x7C then None
        else
          match Tlv.Decode(outer[0].value)
          case None => None
          case Some(es) => if |es| == 1 && es[0].tag == 0x82 then Some(es[0].value) else None
  }

  /** The reply decodes to exactly the signature, whatever its size. */
  lemma SignatureRoundTrip(sig: seq<byte>, capacity: nat)
    requires |sig| <= MAX_SIGNATURE && 78 <= capacity
    ensures ReadSignature(SignatureReply(capacity, sig)) == Some(sig)
  {
    var inner := Tlv.Element(0x82, sig);
    var outer := Tlv.Element(0x7C, Tlv.Encode(inner));
    SignatureOctets(sig, capacity);
    Tlv.DecodeEncodeOne(inner);
    Tlv.DecodeEncodeOne(outer);
    var reply := SignatureReply(capacity, sig);
    assert reply[..|reply| - 2] == Tlv.Encode(outer);
    assert reply[|reply| - 2..] == SwBytes(SW_OK);
  }

  /** The reply is the nested structure and the status word. */
  lemma SignatureOctets(sig: seq<byte>, capacity: nat)
    requires |sig| <= MAX_SIGNATURE && 78 <= capacity
    ensures SignatureReply(capacity, sig)
         == Tlv.Encode(Tlv.Element(0x7C, Tlv.Encode(Tlv.Element(0x82, sig)))) + SwBytes(SW_OK)
  {
    var body := [0x7C] + [2 + |sig|] + [0x82] + [|sig|] + sig;
    assert SignatureReply(capacity, sig) == body + SwBytes(SW_OK);
    assert Tlv.Encode(Tlv.Element(0x82, sig)) == [0x82, |sig|] + sig;
    assert Tlv.Encode(Tlv.Element(0x7C, [0x82, |sig|] + sig)) == body;
  }

  // ---- object lookup ----

  /**
   `a` and `b` are the same command as far as the octets that arrived go; they differ at most in what lay in memory
   behind them.
   */
  predicate SameCommand(a: Request, b: Request) {
    && a.Legal() && b.Legal() && a.rawLen == b.rawLen <= |a.mem| && a.rawLen <= |b.mem|
    && a.mem[..a.rawLen] == b.mem[..b.rawLen]
    && a.capacity == b.capacity && a.now == b.now && a.pk == b.pk
  }

  /** A GET DATA whose three-octet tag reaches beyond the octets that arrived, with a beginning that could match. */
  predicate ReadsBeyond(card: Card, q: Request)
    requires q.Legal()
  {
    match Parse(q.mem, q.rawLen)
    case None => false
    case Some(c) =>
      && c.cla == 0 && card.piv.selected && c.ins == INS_GET_DATA
      && DataRequestStatus(c, q.mem) == SW_OK && q.mem[6] == 3
      && q.rawLen < 10 && q.mem[7] == 0x5F && (q.rawLen == 9 ==> q.mem[8] == 0xC1)
  }

  /** The octets behind the command change nothing, except for a GET DATA that reads beyond itself. */
  lemma OutcomeDependsOnCommandOnly(card: Card, a: Request, b: Request)
    requires card.WellFormed() && SameCommand(a, b) && !ReadsBeyond(card, a)
    ensures ProcessApdu(card, a) == ProcessApdu(card, b)
  {
    SameParse(a, b);
    match Parse(a.mem, a.rawLen)
    case None =>
    case Some(c) =>
      SameData(a, b, c);
      if c.cla == 0 && card.piv.selected && c.ins == INS_GET_DATA {
        SameLookup(card, a, b, c);
      }
  }

  lemma SameParse(a: Request, b: Request)
    requires SameCommand(a, b)
    ensures Parse(a.mem, a.rawLen) == Parse(b.mem, b.rawLen)
  {
    assert forall i :: 0 <= i < a.rawLen ==> a.mem[i] == a.mem[..a.rawLen][i] == b.mem[i];
  }

  lemma SameData(a: Request, b: Request, c: Command)
    requires SameCommand(a, b) && Parse(a.mem, a.rawLen) == Some(c)
    ensures CommandIn(c, a.mem) && CommandIn(c, b.mem) && Data(c, a.mem) == Data(c, b.mem)
  {
    if c.hasLc {
      SliceOfSlice(a.mem, 0, a.rawLen, 5, 5 + c.lc);
      SliceOfSlice(b.mem, 0, b.rawLen, 5, 5 + c.lc);
    }
  }

  lemma SameLookup(card: Card, a: Request, b: Request, c: Command)
    requires card.WellFormed() && SameCommand(a, b) && !ReadsBeyond(card, a)
    requires Parse(a.mem, a.rawLen) == Some(c) && CommandIn(c, a.mem) && CommandIn(c, b.mem)
    requires c.cla == 0 && card.piv.selected && c.ins == INS_GET_DATA
    ensures DataRequestStatus(c, a.mem) == DataRequestStatus(c, b.mem)
    ensures DataRequestStatus(c, a.mem) == SW_OK ==>
              a.mem[6] == b.mem[6] &&
              Lookup(card.vault, a.mem[6], a.mem[7..10]) == Lookup(card.vault, b.mem[6], b.mem[7..10])
  {
    assert forall i :: 0 <= i < a.rawLen ==> a.mem[i] == a.mem[..a.rawLen][i] == b.mem[i];
    if DataRequestStatus(c, a.mem) == SW_OK && a.mem[6] == 3 {
      if a.rawLen >= 10 {
        assert a.mem[7..10] == b.mem[7..10];
      } else {
        NotATag(a.mem[7..10]);
        NotATag(b.mem[7..10]);
      }
    }
  }

  /** Every known three-octet tag begins with 5F C1. */
  lemma NotATag(tag: seq<byte>)
    requires |tag| == 3 && !(tag[0] == 0x5F && tag[1] == 0xC1)
    ensures tag != TAG_CCC && tag != TAG_CHUID && tag != TAG_CERT_9A
  {
    assert TAG_CCC[0] == TAG_CHUID[0] == TAG_CERT_9A[0] == 0x5F;
    assert TAG_CCC[1] == TAG_CHUID[1] == TAG_CERT_9A[1] == 0xC1;
  }

  /** The same command with C1 `last` in memory where its tag goes on. */
  function WithTagEnd(q: Request, last: byte): (r: Request)
    requires q.Legal() && 8 <= q.rawLen < 10 && q.rawLen <= |q.mem|
    requires q.rawLen == 9 ==> q.mem[8] == 0xC1
    ensures SameCommand(q, r) && r.mem[..8] == q.mem[..8] && r.mem[8] == 0xC1 && r.mem[9] == last
  {
    var mem := Splice(q.mem, 8, [0xC1, last]);
    assert mem[..q.rawLen] == q.mem[..q.rawLen];
    q.(mem := mem)
  }

  /** A GET DATA for a known object and one for an unknown object are told apart by their status words. */
  lemma FoundDiffersFromNotFound(card: Card, c: Command, a: Request, b: Request)
    requires card.WellFormed() && a.Legal() && b.Legal() && CommandIn(c, a.mem) && CommandIn(c, b.mem)
    requires DataRequestStatus(c, a.mem) == DataRequestStatus(c, b.mem) == SW_OK
    requires Lookup(card.vault, a.mem[6], a.mem[7..10]).Some?
    requires Lookup(card.vault, b.mem[6], b.mem[7..10]).None?
    ensures GetData(card, c, a).reply != GetData(card, c, b).reply
  {
    var x, y := GetData(card, c, a).reply, GetData(card, c, b).reply;
    assert y == SwBytes(SW_REFERENCED_DATA_NOT_FOUND) && y[0] == 0x6A;
    assert x[|x| - 2] == 0x90 || x[|x| - 2] == 0x61;
  }

  /** What lies behind a command in memory matters to exactly the GET DATA commands that read beyond themselves. */
  lemma OutcomeDependsOnCommandOnlyIff(card: Card, a: Request)
    requires card.WellFormed() && a.Legal() && a.rawLen <= |a.mem|
    ensures (forall b :: SameCommand(a, b) ==> ProcessApdu(card, a) == ProcessApdu(card, b))
            <==> !ReadsBeyond(card, a)
  {
    if ReadsBeyond(card, a) {
      var c := Parse(a.mem, a.rawLen).value;
      var found := Lookup(card.vault, a.mem[6], a.mem[7..10]).Some?;
      var b := WithTagEnd(a, if found then 0x00 else 0x07);
      SameParse(a, b);
      SameData(a, b, c);
      assert b.mem[5] == a.mem[5] && b.mem[6] == a.mem[6] && b.mem[7] == a.mem[7];
      if found {
        assert b.mem[7..10] == [0x5F, 0xC1, 0x00];
        FoundDiffersFromNotFound(card, c, a, b);
      } else {
        assert b.mem[7..10] == TAG_CCC;
        FoundDiffersFromNotFound(card, c, b, a);
      }
      assert ProcessApdu(card, a) != ProcessApdu(card, b);
    } else {
      forall b | SameCommand(a, b)
        ensures ProcessApdu(card, a) == ProcessApdu(card, b)
      {
        OutcomeDependsOnCommandOnly(card, a, b);
      }
    }
  }
}
