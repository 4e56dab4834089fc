/**
 BER-TLV: the length writer of the firmware, and a decoder written from the standard alone
 (ITU-T X.690 section 8.1.3, ISO/IEC 7816-4:2005 section 5.2.2) that the objects are read back with.
 */
module Tlv {
  import opened Bytes

  datatype Element = Element(tag: byte, value: seq<byte>)

  // ---- the decoder ----

  /** A base-256 number, most significant octet first. */
  function BigEndian(s: seq<byte>): nat {
    if s == [] then 0 else 0x100 * BigEndian(s[..|s| - 1]) + s[|s| - 1] as int
  }

  datatype Length = Length(value: nat, octets: nat)

  /** Short form, or long form with as many subsequent octets as bits 7 to 1 say; never the indefinite form. */
  function DecodeLength(s: seq<byte>): (r: Option<Length>)
    ensures r.Some? ==> 1 <= r.value.octets <= |s|
  {
    if s == [] || s[0] == 0x80 || s[0] == 0xFF then None
    else if s[0] < 0x80 then Some(Length(s[0], 1))
    else
      var more := s[0] as int - 0x80;
      if 1 + more <= |s| then Some(Length(BigEndian(s[1..1 + more]), 1 + more)) else None
  }

  /** Bits 5 to 1 of a leading tag octet are all ones only when further tag octets follow. */
  predicate IsSingleOctetTag(tag: byte) {
    tag as int % 0x20 != 0x1F
  }

  datatype Decoded = Decoded(element: Element, rest: seq<byte>)

  function DecodeOne(s: seq<byte>): (r: Option<Decoded>)
    ensures r.Some? ==> |r.value.rest| < |s|
  {
    if s == [] || !IsSingleOctetTag(s[0]) then None
    else
      match DecodeLength(s[1..])
      case None => None
      case Some(n) =>
        var from := 1 + n.octets;
        if from + n.value <= |s|
        then Some(Decoded(Element(s[0], s[from..from + n.value]), s[from + n.value..]))
        else None
  }

  /** The elements `s` consists of, with nothing left over. */
  function Decode(s: seq<byte>): Option<seq<Element>> {
    if s == [] then Some([])
    else
      match DecodeOne(s)
      case None => None
      case Some(d) =>
        match Decode(d.rest)
        case None => None
        case Some(es) => Some([d.element] + es)
  }

  // ---- the writer ----

  /** The octets `_ber_len_write` produces; the long form keeps only the low 16 bits. */
  function LengthOctets(n: nat): (s: seq<byte>)
    ensures 1 <= |s| <= 3
  {
    if n < 0x80 then [n]
    else if n <= 0xFF then [0x81, n]
    else [0x82, High(n), Low(n)]
  }

  function Encode(e: Element): (s: seq<byte>) {
    [e.tag] + LengthOctets(|e.value|) + e.value
  }

  method BerLenWrite(out: array<byte>, at: nat, len: nat) returns (used: nat)
    requires at + 3 <= out.Length
    modifies out
    ensures used == |LengthOctets(len)|
    ensures out[..] == Splice(old(out[..]), at, LengthOctets(len))
  {
    if len < 0x80 {
      out[at] := len;
      used := 1;
    } else if len <= 0xFF {
      out[at] := 0x81;
      out[at + 1] := len;
      used := 2;
    } else {
      out[at] := 0x82;
      out[at + 1] := High(len);
      out[at + 2] := Low(len);
      used := 3;
    }
  }

  // ---- each undoes the other ----

  lemma BigEndianOfTwo(hi: byte, lo: byte)
    ensures BigEndian([hi, lo]) == 0x100 * (hi as int) + lo as int
    ensures BigEndian([lo]) == lo as int
  {
    assert [hi, lo][..1] == [hi];
    assert BigEndian([hi]) == 0x100 * BigEndian([]) + hi as int;
    assert BigEndian([lo]) == 0x100 * BigEndian([]) + lo as int;
  }

  /** What a decoder reads back, for every length: lengths of 2^16 and more lose their upper bits. */
  lemma LengthReadBack(n: nat, rest: seq<byte>)
    ensures DecodeLength(LengthOctets(n) + rest)
         == Some(Length(if n <= 0xFF then n else n % 0x1_0000, |LengthOctets(n)|))
  {
    var s := LengthOctets(n) + rest;
    if n >= 0x100 {
      var hi, lo := High(n), Low(n);
      assert s[0] == 0x82 && s[1..3] == [hi, lo];
      BigEndianOfTwo(hi, lo);
      assert 0x100 * (hi as int) + lo as int == n % 0x1_0000 by { Le16RoundTrip(n); }
    } else if n >= 0x80 {
      assert s[1..2] == [n];
      BigEndianOfTwo(0, n);
    }
  }

  /** The writer is right for exactly the lengths below 2^16. */
  lemma LengthRoundTripIff(n: nat, rest: seq<byte>)
    ensures DecodeLength(LengthOctets(n) + rest) == Some(Length(n, |LengthOctets(n)|)) <==> n < 0x1_0000
  {
    LengthReadBack(n, rest);
  }

  lemma DecodeOneEncode(e: Element, rest: seq<byte>)
    requires IsSingleOctetTag(e.tag) && |e.value| < 0x1_0000
    ensures DecodeOne(Encode(e) + rest) == Some(Decoded(e, rest))
  {
    var s := Encode(e) + rest;
    assert s[1..] == LengthOctets(|e.value|) + (e.value + rest);
    LengthReadBack(|e.value|, e.value + rest);
    var from := 1 + |LengthOctets(|e.value|)|;
    assert s[from..from + |e.value|] == e.value;
    assert s[from + |e.value|..] == rest;
  }

  /** Elements written one behind the other. */
  function EncodeAll(es: seq<Element>): seq<byte> {
    if es == [] then [] else Encode(es[0]) + EncodeAll(es[1..])
  }

  lemma {:induction false} DecodeEncodeAll(es: seq<Element>)
    requires forall e :: e in es ==> IsSingleOctetTag(e.tag) && |e.value| < 0x1_0000
    ensures Decode(EncodeAll(es)) == Some(es)
  {
    if es == [] {
    } else {
      DecodeOneEncode(es[0], EncodeAll(es[1..]));
      DecodeEncodeAll(es[1..]);
      assert EncodeAll(es) != [];
      assert es == [es[0]] + es[1..];
    }
  }

  lemma EncodeOneMore(e: Element, es: seq<Element>)
    ensures EncodeAll([e] + es) == Encode(e) + EncodeAll(es)
    ensures EncodeAll([e]) == Encode(e)
  {
    assert ([e] + es)[1..] == es;
    assert [e][1..] == [] && Encode(e) + [] == Encode(e);
  }

  lemma DecodeEncodeOne(e: Element)
    requires IsSingleOctetTag(e.tag) && |e.value| < 0x1_0000
    ensures Decode(Encode(e)) == Some([e])
  {
    EncodeOneMore(e, []);
    DecodeEncodeAll([e]);
  }
}
