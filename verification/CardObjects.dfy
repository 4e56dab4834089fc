/**
 The fixed data objects of the card as a reader of the standards sees them (NIST SP 800-73-4 Part 1, appendix A, and
 Part 2, section 3): the octets that the firmware sends are decoded, tag by tag.
 */
module CardObjects {
  import opened Bytes
  import opened PivModel
  import Tlv

  // ---- reading ----

  /** Tag and content of an object, and the elements in it. */
  ghost predicate ReadsAs(obj: seq<byte>, tag: byte, es: seq<Tlv.Element>) {
    exists v :: Tlv.Decode(obj) == Some([Tlv.Element(tag, v)]) && Tlv.Decode(v) == Some(es)
  }

  /** A single-octet tag, and a length that is written in full. */
  predicate IsPlain(e: Tlv.Element) {
    Tlv.IsSingleOctetTag(e.tag) && |e.value| < 0x1_0000
  }

  ghost predicate ArePlain(es: seq<Tlv.Element>) {
    forall i :: 0 <= i < |es| ==> IsPlain(es[i])
  }

  /** Written one behind the other, the elements are these octets. */
  ghost predicate PrintsAs(es: seq<Tlv.Element>, octets: seq<byte>) {
    ArePlain(es) && Tlv.EncodeAll(es) == octets
  }

  lemma ReadsEncoded(obj: seq<byte>, tag: byte, es: seq<Tlv.Element>, v: seq<byte>)
    requires Tlv.IsSingleOctetTag(tag) && PrintsAs(es, v) && |v| < 0x80 && obj == [tag, |v|] + v
    ensures ReadsAs(obj, tag, es)
  {
    assert forall e :: e in es ==> IsPlain(e);
    Tlv.DecodeEncodeAll(es);
    Tlv.DecodeEncodeOne(Tlv.Element(tag, v));
    assert Tlv.Encode(Tlv.Element(tag, v)) == obj;
  }

  // ---- writing in groups ----

  lemma {:induction false} EncodeGroups(a: seq<Tlv.Element>, b: seq<Tlv.Element>)
    ensures Tlv.EncodeAll(a + b) == Tlv.EncodeAll(a) + Tlv.EncodeAll(b)
  {
    if a == [] {
      assert a + b == b;
    } else {
      EncodeGroups(a[1..], b);
      assert (a + b)[1..] == a[1..] + b;
      Joined(Tlv.Encode(a[0]), Tlv.EncodeAll(a[1..]), Tlv.EncodeAll(b));
    }
  }

  lemma Joined(x: seq<byte>, y: seq<byte>, z: seq<byte>)
    ensures x + (y + z) == x + y + z
  {
  }

  lemma GroupsPrint(a: seq<Tlv.Element>, x: seq<byte>, b: seq<Tlv.Element>, y: seq<byte>)
    requires PrintsAs(a, x) && PrintsAs(b, y)
    ensures PrintsAs(a + b, x + y)
  {
    EncodeGroups(a, b);
  }

  lemma EncodeFour(w: Tlv.Element, x: Tlv.Element, y: Tlv.Element, z: Tlv.Element)
    ensures Tlv.EncodeAll([w, x, y, z]) == Tlv.Encode(w) + Tlv.Encode(x) + Tlv.Encode(y) + Tlv.Encode(z)
  {
    assert [w, x, y, z] == [w] + [x, y, z] && [x, y, z] == [x] + [y, z] && [y, z] == [y] + [z];
    Tlv.EncodeOneMore(w, [x, y, z]);
    Tlv.EncodeOneMore(x, [y, z]);
    Tlv.EncodeOneMore(y, [z]);
    Tlv.EncodeOneMore(z, []);
  }

  lemma ShortElement(tag: byte, value: seq<byte>)
    requires |value| < 0x80
    ensures Tlv.Encode(Tlv.Element(tag, value)) == [tag, |value|] + value
  {
  }

  lemma EmptyElements()
    ensures PrintsAs([Tlv.Element(0xFA, []), Tlv.Element(0xFB, []), Tlv.Element(0xFC, []), Tlv.Element(0xFD, [])],
                     [0xFA, 0x00, 0xFB, 0x00, 0xFC, 0x00, 0xFD, 0x00])
  {
    EncodeFour(Tlv.Element(0xFA, []), Tlv.Element(0xFB, []), Tlv.Element(0xFC, []), Tlv.Element(0xFD, []));
    ShortElement(0xFA, []);
    ShortElement(0xFB, []);
    ShortElement(0xFC, []);
    ShortElement(0xFD, []);
  }

  lemma LastElement()
    ensures PrintsAs([Tlv.Element(0xFE, [])], [0xFE, 0x00])
  {
    Tlv.EncodeOneMore(Tlv.Element(0xFE, []), []);
    ShortElement(0xFE, []);
  }

  // ---- the application and its identifier ----

  /** The application identifier of PIV. */
  predicate NamesPiv(data: seq<byte>) {
    [0xA0, 0x00, 0x00, 0x03, 0x08, 0x00, 0x00, 0x10, 0x00, 0x01, 0x00] <= data
  }

  /** 61 { 4F { the identifier } 79 { 4F { } } }. */
  ghost predicate IsFci(body: seq<byte>) {
    exists aid, authority :: IsFciOf(body, aid, authority)
  }

  ghost predicate IsFciOf(body: seq<byte>, aid: seq<byte>, authority: seq<byte>) {
    && ReadsAs(body, 0x61, [Tlv.Element(0x4F, aid), Tlv.Element(0x79, authority)])
    && |aid| == 11 && NamesPiv(aid) && Tlv.Decode(authority) == Some([Tlv.Element(0x4F, [])])
  }

  lemma FciIsRead()
    ensures IsFci(FCI)
  {
    var aid, authority := AID, [0x4F, 0x00];
    var e := Tlv.Element(0x79, authority);
    Tlv.EncodeOneMore(Tlv.Element(0x4F, aid), [e]);
    Tlv.EncodeOneMore(e, []);
    assert [Tlv.Element(0x4F, aid), e] == [Tlv.Element(0x4F, aid)] + [e];
    ReadsEncoded(FCI, 0x61, [Tlv.Element(0x4F, aid), e], [0x4F, 0x0B] + aid + [0x79, 0x02] + authority);
    EmptyElement(authority);
    assert IsFciOf(FCI, aid, authority);
  }

  lemma EmptyElement(s: seq<byte>)
    requires s == [0x4F, 0x00]
    ensures Tlv.Decode(s) == Some([Tlv.Element(0x4F, [])])
  {
    Tlv.DecodeEncodeOne(Tlv.Element(0x4F, []));
    assert Tlv.Encode(Tlv.Element(0x4F, [])) == s;
  }

  // ---- capability container, holder identifier, discovery object ----

  /** Card Capability Container: identifier, two version numbers, and fields that are mostly empty. */
  function CapabilityElements(): seq<Tlv.Element> {
    CapabilityHead() + CapabilityMiddle()
    + [Tlv.Element(0xFA, []), Tlv.Element(0xFB, []), Tlv.Element(0xFC, []), Tlv.Element(0xFD, [])]
    + [Tlv.Element(0xFE, [])]
  }

  function CapabilityHead(): seq<Tlv.Element> {
    [Tlv.Element(0xF0, [0xA0, 0x00, 0x00, 0x01, 0x16, 0xFF, 0x02,
                        0x00, 0x00, 0x00, 0x00, 0x00, 0x00, 0x00, 0x00, 0x00, 0x00, 0x00, 0x00, 0x00, 0x00]),
     Tlv.Element(0xF1, [0x21]), Tlv.Element(0xF2, [0x21]), Tlv.Element(0xF3, [])]
  }

  function CapabilityMiddle(): seq<Tlv.Element> {
    [Tlv.Element(0xF4, [0x00]), Tlv.Element(0xF5, [0x10]), Tlv.Element(0xF6, []), Tlv.Element(0xF7, [])]
  }

  /** Card Holder Unique Identifier: FASC-N, GUID, expiration date, signature, error detection code. */
  function HolderElements(): seq<Tlv.Element> {
    HolderHead() + [Tlv.Element(0xFE, [])]
  }

  function HolderHead(): seq<Tlv.Element> {
    [Tlv.Element(0x30, [0x00, 0x00, 0x00, 0x00, 0x00, 0x00, 0x00, 0x00, 0x00, 0x00, 0x00, 0x00, 0x00,
                        0x00, 0x00, 0x00, 0x00, 0x00, 0x00, 0x00, 0x00, 0x00, 0x00, 0x00, 0x00]),
     Tlv.Element(0x34, [0x57, 0x41, 0x52, 0x44, 0x33, 0x4E, 0x00, 0x01,
                        0xAA, 0xBB, 0xCC, 0xDD, 0xEE, 0xFF, 0x00, 0x01]),
     Tlv.Element(0x35, [0x32, 0x30, 0x39, 0x39, 0x31, 0x32, 0x33, 0x31]), Tlv.Element(0x3E, [])]
  }

  /** 7E { 4F { the identifier } 5F2F { 40 00 } }. */
  ghost predicate IsDiscovery(obj: seq<byte>) {
    exists aid :: |aid| == 11 && NamesPiv(aid) && IsDiscoveryOf(obj, aid)
  }

  predicate IsDiscoveryOf(obj: seq<byte>, aid: seq<byte>) {
    Tlv.Decode(obj) == Some([Tlv.Element(0x7E, [0x4F, 0x0B] + aid + [0x5F, 0x2F, 0x02, 0x40, 0x00])])
  }

  lemma CapabilityHeadOctets()
    ensures PrintsAs(CapabilityHead(),
                     [0xF0, 0x15] + CARD_IDENTIFIER + [0xF1, 0x01, 0x21, 0xF2, 0x01, 0x21, 0xF3, 0x00])
  {
    var es := CapabilityHead();
    EncodeFour(es[0], es[1], es[2], es[3]);
    assert es[0].value == CARD_IDENTIFIER;
    ShortElement(0xF0, CARD_IDENTIFIER);
    ShortElement(0xF1, [0x21]);
    ShortElement(0xF2, [0x21]);
    ShortElement(0xF3, []);
  }

  lemma CapabilityMiddleOctets()
    ensures PrintsAs(CapabilityMiddle(), [0xF4, 0x01, 0x00, 0xF5, 0x01, 0x10, 0xF6, 0x00, 0xF7, 0x00])
  {
    var es := CapabilityMiddle();
    EncodeFour(es[0], es[1], es[2], es[3]);
    ShortElement(0xF4, [0x00]);
    ShortElement(0xF5, [0x10]);
    ShortElement(0xF6, []);
    ShortElement(0xF7, []);
  }

  lemma CapabilityOctets()
    ensures PrintsAs(CapabilityElements(), CCC_CONTENT)
  {
    var x := [0xF0, 0x15] + CARD_IDENTIFIER + [0xF1, 0x01, 0x21, 0xF2, 0x01, 0x21, 0xF3, 0x00];
    var y := [0xF4, 0x01, 0x00, 0xF5, 0x01, 0x10, 0xF6, 0x00, 0xF7, 0x00];
    var z := [0xFA, 0x00, 0xFB, 0x00, 0xFC, 0x00, 0xFD, 0x00];
    var c := [Tlv.Element(0xFA, []), Tlv.Element(0xFB, []), Tlv.Element(0xFC, []), Tlv.Element(0xFD, [])];
    CapabilityHeadOctets();
    CapabilityMiddleOctets();
    EmptyElements();
    LastElement();
    GroupsPrint(CapabilityHead(), x, CapabilityMiddle(), y);
    GroupsPrint(CapabilityHead() + CapabilityMiddle(), x + y, c, z);
    GroupsPrint(CapabilityHead() + CapabilityMiddle() + c, x + y + z, [Tlv.Element(0xFE, [])], [0xFE, 0x00]);
  }

  lemma CapabilityIsRead()
    ensures ReadsAs(CCC, 0x53, CapabilityElements())
  {
    CapabilityOctets();
    ReadsEncoded(CCC, 0x53, CapabilityElements(), CCC_CONTENT);
  }

  lemma HolderHeadOctets()
    ensures PrintsAs(HolderHead(),
                     [0x30, 0x19] + FASC_N + ([0x34, 0x10] + GUID) + ([0x35, 0x08] + EXPIRATION) + [0x3E, 0x00])
  {
    var es := HolderHead();
    EncodeFour(es[0], es[1], es[2], es[3]);
    assert es[0].value == FASC_N && es[1].value == GUID && es[2].value == EXPIRATION;
    ShortElement(0x30, FASC_N);
    ShortElement(0x34, GUID);
    ShortElement(0x35, EXPIRATION);
    ShortElement(0x3E, []);
  }

  lemma HolderOctets()
    ensures PrintsAs(HolderElements(), CHUID_CONTENT)
  {
    var x := [0x30, 0x19] + FASC_N + ([0x34, 0x10] + GUID) + ([0x35, 0x08] + EXPIRATION) + [0x3E, 0x00];
    HolderHeadOctets();
    LastElement();
    GroupsPrint(HolderHead(), x, [Tlv.Element(0xFE, [])], [0xFE, 0x00]);
  }

  lemma HolderIsRead()
    ensures ReadsAs(CHUID, 0x53, HolderElements())
  {
    HolderOctets();
    ReadsEncoded(CHUID, 0x53, HolderElements(), CHUID_CONTENT);
  }

  lemma DiscoveryIsRead()
    ensures IsDiscovery(DISCOVERY)
  {
    var e := Tlv.Element(0x7E, DISCOVERY_CONTENT);
    ShortElement(0x7E, DISCOVERY_CONTENT);
    Tlv.DecodeEncodeOne(e);
    assert IsDiscoveryOf(DISCOVERY, AID);
  }
}
