/**
 What each command does to the applet, the authorization machine and the backend, as functions of values. The class
 in PivApplet carries the code out on its buffers and is proved against these.
 */
module PivModel {
  import opened Bytes
  import opened Apdu
  import opened DeviceState
  import opened KeyStore
  import Tlv

  const BUFFER := 4096

  // ---- constants ----

  const AID: seq<byte> := [0xA0, 0x00, 0x00, 0x03, 0x08, 0x00, 0x00, 0x10, 0x00, 0x01, 0x00]

  const FCI: seq<byte> := [0x61, 0x11, 0x4F, 0x0B] + AID + [0x79, 0x02, 0x4F, 0x00]

  /** "123456", padded to eight octets with FF. */
  const PIN: seq<byte> := [0x31, 0x32, 0x33, 0x34, 0x35, 0x36, 0xFF, 0xFF]

  const TAG_CCC: seq<byte> := [0x5F, 0xC1, 0x07]
  const TAG_CHUID: seq<byte> := [0x5F, 0xC1, 0x02]
  const TAG_CERT_9A: seq<byte> := [0x5F, 0xC1, 0x05]

  /** GSC-IS RID, manufacturer, card type, serial number. */
  const CARD_IDENTIFIER: seq<byte> :=
    [0xA0, 0x00, 0x00, 0x01, 0x16, 0xFF, 0x02,
     0x00, 0x00, 0x00, 0x00, 0x00, 0x00, 0x00, 0x00, 0x00, 0x00, 0x00, 0x00, 0x00, 0x00]

  const CCC_CONTENT: seq<byte> :=
    [0xF0, 0x15] + CARD_IDENTIFIER
    + [0xF1, 0x01, 0x21, 0xF2, 0x01, 0x21, 0xF3, 0x00]
    + [0xF4, 0x01, 0x00, 0xF5, 0x01, 0x10, 0xF6, 0x00, 0xF7, 0x00]
    + [0xFA, 0x00, 0xFB, 0x00, 0xFC, 0x00, 0xFD, 0x00]
    + [0xFE, 0x00]

  const CCC: seq<byte> := [0x53, 0x33] + CCC_CONTENT

  const FASC_N: seq<byte> :=
    [0x00, 0x00, 0x00, 0x00, 0x00, 0x00, 0x00, 0x00, 0x00, 0x00, 0x00, 0x00, 0x00,
     0x00, 0x00, 0x00, 0x00, 0x00, 0x00, 0x00, 0x00, 0x00, 0x00, 0x00, 0x00]

  const GUID: seq<byte> :=
    [0x57, 0x41, 0x52, 0x44, 0x33, 0x4E, 0x00, 0x01, 0xAA, 0xBB, 0xCC, 0xDD, 0xEE, 0xFF, 0x00, 0x01]

  /** "20991231". */
  const EXPIRATION: seq<byte> := [0x32, 0x30, 0x39, 0x39, 0x31, 0x32, 0x33, 0x31]

  const CHUID_CONTENT: seq<byte> :=
    [0x30, 0x19] + FASC_N + ([0x34, 0x10] + GUID) + ([0x35, 0x08] + EXPIRATION) + [0x3E, 0x00] + [0xFE, 0x00]

  const CHUID: seq<byte> := [0x53, 0x3B] + CHUID_CONTENT

  const DISCOVERY_CONTENT: seq<byte> := [0x4F, 0x0B] + AID + [0x5F, 0x2F, 0x02, 0x40, 0x00]

  const DISCOVERY: seq<byte> := [0x7E, 0x12] + DISCOVERY_CONTENT

  const INS_SELECT: byte := 0xA4
  const INS_VERIFY: byte := 0x20
  const INS_GET_DATA: byte := 0xCB
  const INS_GET_RESPONSE: byte := 0xC0
  const INS_GENERAL_AUTHENTICATE: byte := 0x87

  // ---- state ----

  /** The static `_piv` structure. */
  datatype Piv = Piv(selected: bool, pinVerified: bool, chainBuf: seq<byte>, chainLen: nat, chainOffset: nat) {
    predicate WellFormed() {
      |chainBuf| == BUFFER && chainLen <= BUFFER
    }

    /** What GET RESPONSE has still to deliver. */
    function Pending(): seq<byte>
      requires WellFormed()
    {
      if chainOffset < chainLen then chainBuf[chainOffset..chainLen] else []
    }
  }

  function PivInit(): (p: Piv)
    ensures p.WellFormed()
  {
    Piv(false, false, seq(BUFFER, _ => 0 as byte), 0, 0)
  }

  /** Everything a command can reach. */
  datatype Card = Card(piv: Piv, fsm: Fsm, vault: Vault) {
    predicate WellFormed() {
      piv.WellFormed() && |vault.cert| <= MAX_CERT_LEN
    }
  }

  datatype Outcome = Outcome(card: Card, reply: seq<byte>) {
    /** The card is in order, and the reply fits in the buffer. */
    predicate Fits(capacity: nat) {
      card.WellFormed() && 2 <= |reply| <= capacity
    }
  }

  /** A command with its memory, the reply capacity, the clock reading and the foreign signer's answer. */
  datatype Request = Request(mem: seq<byte>, rawLen: nat, capacity: nat, now: nat, pk: seq<byte>) {
    /**
     The octets the parser looks at are there, and so are the three octets behind 5C and its length, which GET DATA
     reads without checking them against Lc.
     */
    predicate Legal() {
      Readable(mem, rawLen) && 10 <= |mem| && 2 <= capacity && |pk| <= MAX_SIGNATURE
    }
  }

  /** A command whose data lies in `mem`. */
  predicate CommandIn(c: Command, mem: seq<byte>) {
    && 10 <= |mem|
    && (c.hasLc ==> c.dataAt == 5 && c.lc < 0x100 && 5 + c.lc <= |mem|)
    && (c.hasLe ==> 1 <= c.le <= 256)
  }

  function Data(c: Command, mem: seq<byte>): (d: seq<byte>)
    requires CommandIn(c, mem)
    ensures |d| == if c.hasLc then c.lc else 0
  {
    if c.hasLc then mem[5..5 + c.lc] else []
  }

  // ---- SELECT and VERIFY ----

  function SelectStatus(c: Command, mem: seq<byte>): StatusWord
    requires CommandIn(c, mem)
  {
    if c.p1 != 0x04 then SW_INCORRECT_P1P2
    else if |Data(c, mem)| < |AID| then SW_WRONG_DATA
    else if Data(c, mem)[..|AID|] != AID then SW_FILE_NOT_FOUND
    else SW_OK
  }

  function Select(card: Card, c: Command, q: Request): (o: Outcome)
    requires card.WellFormed() && q.Legal() && CommandIn(c, q.mem)
    ensures o.Fits(q.capacity)
  {
    var sw := SelectStatus(c, q.mem);
    if sw == SW_OK
    then Outcome(card.(piv := card.piv.(selected := true)), StartResponse(q.capacity).Append(FCI).Finalize(sw))
    else Outcome(card, Status(sw))
  }

  function VerifyStatus(c: Command, mem: seq<byte>): StatusWord
    requires CommandIn(c, mem)
  {
    if c.p1 != 0x00 then SW_INCORRECT_P1P2
    else if c.p2 != 0x80 then SW_REFERENCED_DATA_NOT_FOUND
    else if Data(c, mem) == [] then 0x63C3
    else if |Data(c, mem)| != 8 then SW_WRONG_LENGTH
    else if Data(c, mem) != PIN then SW_SECURITY_NOT_SATISFIED
    else SW_OK
  }

  function Verify(card: Card, c: Command, q: Request): (o: Outcome)
    requires card.WellFormed() && q.Legal() && CommandIn(c, q.mem)
    ensures o.Fits(q.capacity)
  {
    var sw := VerifyStatus(c, q.mem);
    var verified := if sw == SW_OK then true else card.piv.pinVerified && sw != SW_SECURITY_NOT_SATISFIED;
    Outcome(card.(piv := card.piv.(pinVerified := verified)), Status(sw))
  }

  // ---- GET DATA and GET RESPONSE ----

  /** The certificate object: 53 { 70 { certificate } 71 { 00 } FE { } }. */
  function CertElements(cert: seq<byte>): seq<Tlv.Element> {
    [Tlv.Element(0x70, cert), Tlv.Element(0x71, [0x00]), Tlv.Element(0xFE, [])]
  }

  function CertObject(cert: seq<byte>): seq<byte> {
    Tlv.Encode(Tlv.Element(0x53, Tlv.EncodeAll(CertElements(cert))))
  }

  /** The object a tag names; the three octets behind the tag length are read whatever Lc says. */
  function Lookup(v: Vault, tagLen: byte, tag: seq<byte>): Option<seq<byte>>
    requires |tag| == 3
  {
    if tagLen == 3 then
      if tag == TAG_CCC then Some(CCC)
      else if tag == TAG_CHUID then Some(CHUID)
      else if tag == TAG_CERT_9A then
        var cert := CertDer(v, KEY_REF_9A, MAX_CERT_LEN);
        if cert == [] then None else Some(CertObject(cert))
      else None
    else if tag[0] == 0x7E then Some(DISCOVERY)
    else None
  }

  function EffectiveLe(c: Command): nat {
    if c.hasLe then c.le else 256
  }

  function Min(a: nat, b: nat): nat {
    if a <= b then a else b
  }

  function MoreData(remaining: nat): StatusWord {
    SwMoreData(Min(remaining, 0xFF))
  }

  /** Answers with `obj`, in one piece if Le allows it, else as the beginning of a chain. */
  function Deliver(card: Card, c: Command, q: Request, obj: seq<byte>): (o: Outcome)
    requires card.WellFormed() && q.Legal() && |obj| <= BUFFER
    ensures o.Fits(q.capacity)
  {
    var le := EffectiveLe(c);
    if |obj| <= le
    then Outcome(card, StartResponse(q.capacity).Append(obj).Finalize(SW_OK))
    else
      var piv := card.piv.(chainBuf := Splice(card.piv.chainBuf, 0, obj), chainLen := |obj|, chainOffset := le);
      Outcome(card.(piv := piv),
              StartResponse(q.capacity).Append(obj[..le]).Finalize(MoreData(|obj| - le)))
  }

  function DataRequestStatus(c: Command, mem: seq<byte>): StatusWord
    requires CommandIn(c, mem)
  {
    if c.p1 != 0x3F || c.p2 != 0xFF then SW_INCORRECT_P1P2
    else if !c.hasLc || c.lc < 3 || mem[5] != 0x5C then SW_WRONG_DATA
    else if mem[6] != 3 && mem[6] != 1 then SW_WRONG_DATA
    else SW_OK
  }

  function GetData(card: Card, c: Command, q: Request): (o: Outcome)
    requires card.WellFormed() && q.Legal() && CommandIn(c, q.mem)
    ensures o.Fits(q.capacity)
  {
    var sw := DataRequestStatus(c, q.mem);
    if sw != SW_OK then Outcome(card, Status(sw))
    else
      match Lookup(card.vault, q.mem[6], q.mem[7..10])
      case None => Outcome(card, Status(SW_REFERENCED_DATA_NOT_FOUND))
      case Some(obj) =>
        ObjectFits(card.vault, q.mem[6], q.mem[7..10]);
        Deliver(card, c, q, obj)
  }

  function GetResponse(card: Card, c: Command, q: Request): (o: Outcome)
    requires card.WellFormed() && q.Legal()
    ensures o.Fits(q.capacity)
  {
    var pending := card.piv.Pending();
    if pending == [] then Outcome(card, Status(SW_CONDITIONS_NOT_SATISFIED))
    else
      var n := Min(|pending|, EffectiveLe(c));
      var piv := card.piv.(chainOffset := card.piv.chainOffset + n);
      Outcome(card.(piv := piv),
              StartResponse(q.capacity).Append(pending[..n]).Finalize(
                if n == |pending| then SW_OK else MoreData(|pending| - n)))
  }

  // ---- GENERAL AUTHENTICATE ----

  /** Octets taken by the length of the 7C template, whose value is ignored; none if it is neither short nor 81. */
  function TemplateLengthOctets(d: seq<byte>): Option<nat> {
    if d == [] then None
    else if d[0] < 0x80 then Some(1)
    else if d[0] == 0x81 && |d| >= 2 then Some(2)
    else None
  }

  /** The challenge in 82 00 81 n ..., if the octets have that shape. */
  function TaggedChallenge(t: seq<byte>): (r: Option<seq<byte>>)
    ensures r.Some? ==> 1 <= |r.value| <= 64
  {
    if |t| < 4 || t[0] != 0x82 || t[1] != 0x00 || t[2] != 0x81 then None
    else
      var hashLen := t[3] as nat;
      if |t| - 4 < hashLen || hashLen == 0 || hashLen > 64 then None
      else Some(t[4..4 + hashLen])
  }

  /** The challenge in 7C L 82 00 81 n ..., if the data has that shape. */
  function Challenge(d: seq<byte>): (r: Option<seq<byte>>)
    ensures r.Some? ==> 1 <= |r.value| <= 64
  {
    if d == [] || d[0] != 0x7C then None
    else
      match TemplateLengthOctets(d[1..])
      case None => None
      case Some(n) => TaggedChallenge(d[1 + n..])
  }

  function AuthenticateStatus(card: Card, c: Command, mem: seq<byte>): StatusWord
    requires CommandIn(c, mem)
  {
    if c.p1 != ALG_ECDSA_P256 then SW_INCORRECT_P1P2
    else if c.p2 != KEY_REF_9A then SW_REFERENCED_DATA_NOT_FOUND
    else if !card.piv.pinVerified then SW_SECURITY_NOT_SATISFIED
    else if |Data(c, mem)| < 4 then SW_WRONG_LENGTH
    else if Challenge(Data(c, mem)).None? then SW_WRONG_DATA
    else SW_OK
  }

  function SignatureReply(capacity: nat, sig: seq<byte>): (r: seq<byte>)
    requires |sig| <= MAX_SIGNATURE
    ensures 2 <= capacity ==> 2 <= |r| <= capacity
  {
    StartResponse(capacity).Append([0x7C]).Append([2 + |sig|]).Append([0x82]).Append([|sig|]).Append(sig)
    .Finalize(SW_OK)
  }

  /** The authorization gate, in the order the code calls the state machine. */
  function Authorize(card: Card, hash: seq<byte>, q: Request): (o: Outcome)
    requires card.WellFormed() && q.Legal()
    ensures o.Fits(q.capacity)
  {
    var f := card.fsm;
    if !f.IsAuthorized() then
      Outcome(card.(fsm := f.RequestAuth(q.now)), Status(SW_CONDITIONS_NOT_SATISFIED))
    else
      var v := card.vault;
      var sig := Signature(v, KEY_REF_9A, ALG_ECDSA_P256, hash, MAX_SIGNATURE, q.pk);
      var card' := card.(fsm := f.ConsumeAuth().BeginProcessing().OpComplete(),
                         vault := v.(signed := v.signed + [hash]));
      Outcome(card', if sig == [] then Status(SW_UNKNOWN) else SignatureReply(q.capacity, sig))
  }

  function GeneralAuthenticate(card: Card, c: Command, q: Request): (o: Outcome)
    requires card.WellFormed() && q.Legal() && CommandIn(c, q.mem)
    ensures o.Fits(q.capacity)
  {
    var sw := AuthenticateStatus(card, c, q.mem);
    if sw != SW_OK then Outcome(card, Status(sw))
    else Authorize(card, Challenge(Data(c, q.mem)).value, q)
  }

  // ---- routing ----

  function Route(card: Card, c: Command, q: Request): (o: Outcome)
    requires card.WellFormed() && q.Legal() && CommandIn(c, q.mem)
    ensures o.Fits(q.capacity)
  {
    if c.ins == INS_SELECT then Select(card, c, q)
    else if !card.piv.selected then Outcome(card, Status(SW_CONDITIONS_NOT_SATISFIED))
    else if c.ins == INS_VERIFY then Verify(card, c, q)
    else if c.ins == INS_GET_DATA then GetData(card, c, q)
    else if c.ins == INS_GET_RESPONSE then GetResponse(card, c, q)
    else if c.ins == INS_GENERAL_AUTHENTICATE then GeneralAuthenticate(card, c, q)
    else Outcome(card, Status(SW_INS_NOT_SUPPORTED))
  }

  function ProcessApdu(card: Card, q: Request): (o: Outcome)
    requires card.WellFormed() && q.Legal()
    ensures o.Fits(q.capacity)
  {
    match Parse(q.mem, q.rawLen)
    case None => Outcome(card, Status(SW_UNKNOWN))
    case Some(c) => if c.cla != 0 then Outcome(card, Status(SW_CLA_NOT_SUPPORTED)) else Route(card, c, q)
  }

  // ---- sizes ----

  lemma CertObjectSize(cert: seq<byte>)
    requires |cert| <= MAX_CERT_LEN
    ensures |CertObject(cert)| ==
              var inner := 1 + |Tlv.LengthOctets(|cert|)| + |cert| + 5;
              1 + |Tlv.LengthOctets(inner)| + inner
    ensures |CertObject(cert)| <= |cert| + 13 <= BUFFER
  {
    CertElementsOctets(cert);
  }

  /** The content of the certificate object, octet by octet. */
  lemma CertElementsOctets(cert: seq<byte>)
    ensures Tlv.EncodeAll(CertElements(cert))
         == [0x70] + Tlv.LengthOctets(|cert|) + cert + [0x71, 0x01, 0x00, 0xFE, 0x00]
  {
    var es := CertElements(cert);
    assert es == [es[0]] + [es[1], es[2]];
    Tlv.EncodeOneMore(es[0], [es[1], es[2]]);
    assert [es[1], es[2]] == [es[1]] + [es[2]];
    Tlv.EncodeOneMore(es[1], [es[2]]);
    Tlv.EncodeOneMore(es[2], []);
    assert Tlv.Encode(es[1]) == [0x71, 0x01, 0x00] && Tlv.Encode(es[2]) == [0xFE, 0x00];
  }

  lemma ObjectFits(v: Vault, tagLen: byte, tag: seq<byte>)
    requires |tag| == 3
    ensures Lookup(v, tagLen, tag).Some? ==> |Lookup(v, tagLen, tag).value| <= BUFFER
  {
    CertObjectSize(CertDer(v, KEY_REF_9A, MAX_CERT_LEN));
  }
}
