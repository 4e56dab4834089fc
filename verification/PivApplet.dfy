/**
 The PIV applet as the firmware runs it: static fields, buffers filled through a moving position, one reply in place.
 */
module PivApplet {
  import opened Bytes
  import opened Apdu
  import opened DeviceState
  import opened KeyStore
  import opened PivModel
  import Tlv

  /** Writes `bytes` at `pos` and moves on. */
  method Put(buf: array<byte>, pos: nat, bytes: seq<byte>) returns (pos': nat)
    requires pos + |bytes| <= buf.Length
    modifies buf
    ensures pos' == pos + |bytes| && buf[..pos'] == old(buf[..pos]) + bytes
  {
    MemCpy(buf, pos, bytes);
    pos' := pos + |bytes|;
    assert buf[..pos'] == buf[..][..pos'];
  }

  /** A BER length at `pos`. */
  method PutLength(buf: array<byte>, pos: nat, len: nat) returns (pos': nat)
    requires pos + 3 <= buf.Length
    modifies buf
    ensures pos' == pos + |Tlv.LengthOctets(len)| && buf[..pos'] == old(buf[..pos]) + Tlv.LengthOctets(len)
  {
    var used := Tlv.BerLenWrite(buf, pos, len);
    pos' := pos + used;
    assert buf[..pos'] == buf[..][..pos'];
  }

  class Applet {
    var selected: bool
    var pinVerified: bool
    const chainBuf: array<byte>
    var chainLen: nat
    var chainOffset: nat
    const certObj: array<byte>
    const dev: Device
    const crypto: Backend

    ghost predicate Valid()
      reads this, crypto
    {
      && chainBuf.Length == certObj.Length == BUFFER && chainLen <= BUFFER
      && crypto.Valid()
      && chainBuf != certObj && chainBuf != crypto.certDer && certObj != crypto.certDer
    }

    ghost function Model(): (card: Card)
      requires Valid()
      reads this, chainBuf, dev, crypto, crypto.certDer
      ensures card.WellFormed()
    {
      Card(Piv(selected, pinVerified, chainBuf[..], chainLen, chainOffset), dev.Model(), crypto.Model())
    }

    /** `raw` holds the command and `out` takes the reply; neither is one of the applet's own buffers. */
    ghost predicate Buffers(raw: array<byte>, out: array<byte>) {
      && raw != out && out != chainBuf && out != certObj && out != crypto.certDer
      && raw != chainBuf && raw != certObj && raw != crypto.certDer
    }

    /** The call described by `q`: the command lies at `at` in `raw`, the reply goes to `outAt` in `out`. */
    ghost predicate Call(raw: array<byte>, at: nat, out: array<byte>, outAt: nat, capacity: nat, q: Request)
      reads this, crypto, raw, out
    {
      && Valid() && Buffers(raw, out)
      && at <= raw.Length && q.mem == raw[at..] && q.Legal()
      && q.capacity == capacity && outAt + capacity <= out.Length
    }

    /** The reply of `o` was left at `outAt`, nothing else in `out` changed, and the state is that of `o`. */
    ghost predicate Answered(o: Outcome, was: seq<byte>, out: array<byte>, outAt: nat, n: nat)
      reads this, chainBuf, dev, crypto, crypto.certDer, out
    {
      && Valid() && Model() == o.card && n == |o.reply|
      && outAt + n <= |was| && out[..] == Splice(was, outAt, o.reply)
    }

    constructor (dev: Device, crypto: Backend)
      requires crypto.Valid()
      ensures Valid() && this.dev == dev && this.crypto == crypto
      ensures fresh(chainBuf) && fresh(certObj)
      ensures Model() == Card(PivInit(), dev.Model(), crypto.Model())
    {
      this.dev, this.crypto := dev, crypto;
      chainBuf := new byte[BUFFER](_ => 0);
      certObj := new byte[BUFFER](_ => 0);
      selected, pinVerified, chainLen, chainOffset := false, false, 0, 0;
      new;
      assert chainBuf[..] == PivInit().chainBuf;
    }

    /** `piv_init`. */
    method Init()
      requires Valid()
      modifies this, chainBuf
      ensures Valid() && Model() == old(Model()).(piv := PivInit())
    {
      MemSet(chainBuf, 0);
      selected, pinVerified, chainLen, chainOffset := false, false, 0, 0;
      assert chainBuf[..] == PivInit().chainBuf;
    }

    method Refuse(out: array<byte>, outAt: nat, capacity: nat, sw: StatusWord) returns (n: nat)
      requires Valid() && 2 <= capacity && outAt + capacity <= out.Length
      requires out != chainBuf && out != crypto.certDer
      modifies out
      ensures Answered(Outcome(old(Model()), Status(sw)), old(out[..]), out, outAt, n)
    {
      var r := new ResponseBuilder(out, outAt, capacity);
      n := r.Finalize(sw);
    }

    /** Initialise a builder, append one run of octets, finalize; an append that does not fit is silently dropped. */
    method Reply(out: array<byte>, outAt: nat, capacity: nat, body: seq<byte>, sw: StatusWord) returns (n: nat)
      requires Valid() && 2 <= capacity && outAt + capacity <= out.Length
      requires out != chainBuf && out != crypto.certDer
      modifies out
      ensures Answered(Outcome(old(Model()), StartResponse(capacity).Append(body).Finalize(sw)),
                       old(out[..]), out, outAt, n)
    {
      var r := new ResponseBuilder(out, outAt, capacity);
      var _ := r.Append(body);
      n := r.Finalize(sw);
    }

    /** The signature reply, pushed octet by octet. */
    method ReplySignature(out: array<byte>, outAt: nat, capacity: nat, sig: seq<byte>) returns (n: nat)
      requires Valid() && 2 <= capacity && outAt + capacity <= out.Length && |sig| <= MAX_SIGNATURE
      requires out != chainBuf && out != crypto.certDer
      modifies out
      ensures Answered(Outcome(old(Model()), SignatureReply(capacity, sig)), old(out[..]), out, outAt, n)
    {
      var r := new ResponseBuilder(out, outAt, capacity);
      var _ := r.Push(0x7C);
      var _ := r.Push(2 + |sig|);
      var _ := r.Push(0x82);
      var _ := r.Push(|sig|);
      var _ := r.Append(sig);
      n := r.Finalize(SW_OK);
    }

    method HandleSelect(cmd: Command, raw: array<byte>, at: nat, out: array<byte>, outAt: nat, capacity: nat,
                        ghost q: Request)
      returns (n: nat)
      requires Call(raw, at, out, outAt, capacity, q) && CommandIn(cmd, q.mem)
      modifies this, out
      ensures Answered(Select(old(Model()), cmd, q), old(out[..]), out, outAt, n)
    {
      if cmd.p1 != 0x04 {
        n := Refuse(out, outAt, capacity, SW_INCORRECT_P1P2);
        return;
      }
      if !cmd.hasLc || cmd.lc < |AID| {
        n := Refuse(out, outAt, capacity, SW_WRONG_DATA);
        return;
      }
      assert raw[at + 5..at + 5 + |AID|] == Data(cmd, q.mem)[..|AID|];
      if raw[at + cmd.dataAt..at + cmd.dataAt + |AID|] != AID {
        n := Refuse(out, outAt, capacity, SW_FILE_NOT_FOUND);
        return;
      }
      selected := true;
      n := Reply(out, outAt, capacity, FCI, SW_OK);
    }

    method HandleVerify(cmd: Command, raw: array<byte>, at: nat, out: array<byte>, outAt: nat, capacity: nat,
                        ghost q: Request)
      returns (n: nat)
      requires Call(raw, at, out, outAt, capacity, q) && CommandIn(cmd, q.mem)
      modifies this, out
      ensures Answered(Verify(old(Model()), cmd, q), old(out[..]), out, outAt, n)
    {
      if cmd.p1 != 0x00 {
        n := Refuse(out, outAt, capacity, SW_INCORRECT_P1P2);
        return;
      }
      if cmd.p2 != 0x80 {
        n := Refuse(out, outAt, capacity, SW_REFERENCED_DATA_NOT_FOUND);
        return;
      }
      if !cmd.hasLc || cmd.lc == 0 {
        n := Refuse(out, outAt, capacity, 0x63C3);
        return;
      }
      if cmd.lc != 8 {
        n := Refuse(out, outAt, capacity, SW_WRONG_LENGTH);
        return;
      }
      assert raw[at + 5..at + 13] == Data(cmd, q.mem);
      if raw[at + cmd.dataAt..at + cmd.dataAt + 8] != PIN {
        pinVerified := false;
        n := Refuse(out, outAt, capacity, SW_SECURITY_NOT_SATISFIED);
        return;
      }
      pinVerified := true;
      n := Refuse(out, outAt, capacity, SW_OK);
    }

    /** Builds the certificate object with hand-computed lengths. */
    method BuildCertObject(certDer: array<byte>, certLen: nat) returns (pos: nat)
      requires certObj.Length == BUFFER && certDer != certObj
      requires 0 < certLen <= MAX_CERT_LEN && certLen <= certDer.Length
      modifies certObj
      ensures pos <= BUFFER && certObj[..pos] == CertObject(certDer[..certLen])
    {
      CertObjectSize(certDer[..certLen]);
      CertObjectOctets(certDer[..certLen]);
      pos := WriteCertObject(certDer, certLen);
    }

    /** Both tags with their lengths. */
    method WriteCertHead(certLen: nat) returns (pos: nat)
      requires certObj.Length == BUFFER && 0 < certLen <= MAX_CERT_LEN
      modifies certObj
      ensures pos <= 8 && certObj[..pos] == CertHead(certLen)
    {
      pos := Put(certObj, 0, [0x53]);
      var innerLen := 2 + certLen + 3 + 2;
      if certLen >= 0x80 {
        innerLen := innerLen + 1;
      }
      if certLen > 0xFF {
        innerLen := innerLen + 1;
      }
      pos := PutLength(certObj, pos, innerLen);
      pos := Put(certObj, pos, [0x70]);
      pos := PutLength(certObj, pos, certLen);
    }

    /** The octets themselves. */
    method WriteCertObject(certDer: array<byte>, certLen: nat) returns (pos: nat)
      requires certObj.Length == BUFFER && certDer != certObj
      requires 0 < certLen <= MAX_CERT_LEN && certLen <= certDer.Length
      modifies certObj
      ensures pos <= BUFFER && certObj[..pos] == CertOctets(certDer[..certLen])
    {
      pos := WriteCertHead(certLen);
      pos := Put(certObj, pos, certDer[..certLen]);
      pos := Put(certObj, pos, [0x71, 0x01, 0x00]);
      pos := Put(certObj, pos, [0xFE, 0x00]);
    }

    method HandleGetData(cmd: Command, raw: array<byte>, at: nat, out: array<byte>, outAt: nat, capacity: nat,
                         ghost q: Request)
      returns (n: nat)
      requires Call(raw, at, out, outAt, capacity, q) && CommandIn(cmd, q.mem)
      modifies this, chainBuf, certObj, out
      ensures Answered(GetData(old(Model()), cmd, q), old(out[..]), out, outAt, n)
    {
      if cmd.p1 != 0x3F || cmd.p2 != 0xFF {
        n := Refuse(out, outAt, capacity, SW_INCORRECT_P1P2);
        return;
      }
      if !cmd.hasLc || cmd.lc < 3 || raw[at + cmd.dataAt] != 0x5C {
        n := Refuse(out, outAt, capacity, SW_WRONG_DATA);
        return;
      }
      var tagLen := raw[at + cmd.dataAt + 1];
      if tagLen != 3 && tagLen != 1 {
        n := Refuse(out, outAt, capacity, SW_WRONG_DATA);
        return;
      }
      var tag := raw[at + cmd.dataAt + 2..at + cmd.dataAt + 5];
      assert tag == q.mem[7..10] && tagLen == q.mem[6];
      var found, obj := FindObject(tagLen, tag);
      ObjectFits(crypto.Model(), tagLen, tag);
      if !found {
        n := Refuse(out, outAt, capacity, SW_REFERENCED_DATA_NOT_FOUND);
        return;
      }
      n := DeliverObject(cmd, obj, out, outAt, capacity, q);
    }

    /** The object behind a tag, the certificate object built on the fly. */
    method FindObject(tagLen: byte, tag: seq<byte>) returns (found: bool, obj: seq<byte>)
      requires Valid() && |tag| == 3 && (tagLen == 3 || tagLen == 1)
      modifies certObj
      ensures Valid() && Model() == old(Model())
      ensures found == Lookup(crypto.Model(), tagLen, tag).Some?
      ensures found ==> obj == Lookup(crypto.Model(), tagLen, tag).value
    {
      found, obj := true, [];
      if tagLen == 3 {
        if tag == TAG_CCC {
          obj := CCC;
        } else if tag == TAG_CHUID {
          obj := CHUID;
        } else if tag == TAG_CERT_9A {
          var certDer := new byte[MAX_CERT_LEN](_ => 0);
          var certLen := crypto.GetCertDer(KEY_REF_9A, certDer);
          if certLen == 0 {
            return false, [];
          }
          var pos := BuildCertObject(certDer, certLen);
          obj := certObj[..pos];
        } else {
          found := false;
        }
      } else {
        if tag[0] == 0x7E {
          obj := DISCOVERY;
        } else {
          found := false;
        }
      }
    }

    method DeliverObject(cmd: Command, obj: seq<byte>, out: array<byte>, outAt: nat, capacity: nat, ghost q: Request)
      returns (n: nat)
      requires Valid() && q.Legal() && |obj| <= BUFFER && capacity == q.capacity && outAt + capacity <= out.Length
      requires out != chainBuf && out != crypto.certDer
      modifies this, chainBuf, out
      ensures Answered(Deliver(old(Model()), cmd, q, obj), old(out[..]), out, outAt, n)
    {
      var le := if cmd.hasLe then cmd.le else 256;
      if |obj| <= le {
        n := Reply(out, outAt, capacity, obj, SW_OK);
        return;
      }
      MemCpy(chainBuf, 0, obj);
      chainLen := |obj|;
      chainOffset := le;
      var remaining := |obj| - le;
      n := Reply(out, outAt, capacity, obj[..le], SwMoreData(if remaining > 0xFF then 0xFF else remaining));
    }

    method HandleGetResponse(cmd: Command, out: array<byte>, outAt: nat, capacity: nat, ghost q: Request)
      returns (n: nat)
      requires Valid() && q.Legal() && capacity == q.capacity && outAt + capacity <= out.Length
      requires out != chainBuf && out != crypto.certDer
      modifies this, out
      ensures Answered(GetResponse(old(Model()), cmd, q), old(out[..]), out, outAt, n)
    {
      if chainOffset >= chainLen {
        n := Refuse(out, outAt, capacity, SW_CONDITIONS_NOT_SATISFIED);
        return;
      }
      var le := if cmd.hasLe then cmd.le else 256;
      var available := chainLen - chainOffset;
      var sendNow := if available <= le then available else le;
      ghost var pending := Model().piv.Pending();
      assert available == |pending| && sendNow == Min(|pending|, EffectiveLe(cmd));
      var chunk := chainBuf[chainOffset..chainOffset + sendNow];
      SliceOfSlice(chainBuf[..], chainOffset, chainLen, 0, sendNow);
      assert chunk == pending[..sendNow];
      chainOffset := chainOffset + sendNow;
      if chainOffset >= chainLen {
        n := Reply(out, outAt, capacity, chunk, SW_OK);
        return;
      }
      var remaining := chainLen - chainOffset;
      n := Reply(out, outAt, capacity, chunk, SwMoreData(if remaining > 0xFF then 0xFF else remaining));
    }

    /** The template parser: `p` advances and `rem` shrinks; every octet read lies inside the `lc` data octets. */
    method ParseTemplate(raw: array<byte>, data: nat, lc: nat) returns (ok: bool, hash: seq<byte>)
      requires 4 <= lc && data + lc <= raw.Length
      ensures ok == Challenge(raw[data..data + lc]).Some?
      ensures ok ==> hash == Challenge(raw[data..data + lc]).value
    {
      ghost var d := raw[data..data + lc];
      var p, rem := data, lc;
      if raw[p] != 0x7C {
        return false, [];
      }
      p, rem := p + 1, rem - 1;
      if rem == 0 {
        assert false;
      }
      if raw[p] < 0x80 {
        p, rem := p + 1, rem - 1;
      } else if raw[p] == 0x81 && rem >= 2 {
        p, rem := p + 2, rem - 2;
      } else {
        return false, [];
      }
      SliceOfSlice(raw[..], data, data + lc, 1 + TemplateLengthOctets(d[1..]).value, lc);
      assert raw[p..p + rem] == d[1 + TemplateLengthOctets(d[1..]).value..];
      ok, hash := ParseTags(raw, p, rem);
    }

    /** The rest of the template: 82 00 81 n and n octets. */
    method ParseTags(raw: array<byte>, from: nat, len: nat) returns (ok: bool, hash: seq<byte>)
      requires from + len <= raw.Length
      ensures ok == TaggedChallenge(raw[from..from + len]).Some?
      ensures ok ==> hash == TaggedChallenge(raw[from..from + len]).value
    {
      var p, rem := from, len;
      if rem < 2 || raw[p] != 0x82 || raw[p + 1] != 0x00 {
        return false, [];
      }
      p, rem := p + 2, rem - 2;
      if rem < 2 || raw[p] != 0x81 {
        return false, [];
      }
      p, rem := p + 1, rem - 1;
      var hashLen := raw[p] as nat;
      p, rem := p + 1, rem - 1;
      if rem < hashLen || hashLen == 0 || hashLen > 64 {
        return false, [];
      }
      SliceOfSlice(raw[..], from, from + len, 4, 4 + hashLen);
      assert raw[p..p + hashLen] == raw[from..from + len][4..4 + hashLen];
      return true, raw[p..p + hashLen];
    }

    /** The checks before the authorization gate. */
    method CheckAuthenticate(cmd: Command, raw: array<byte>, at: nat, ghost mem: seq<byte>)
      returns (sw: StatusWord, hash: seq<byte>)
      requires Valid() && at <= raw.Length && mem == raw[at..] && CommandIn(cmd, mem)
      ensures sw == AuthenticateStatus(Model(), cmd, mem)
      ensures sw == SW_OK ==> hash == Challenge(Data(cmd, mem)).value
    {
      var alg, keyRef := cmd.p1, cmd.p2;
      if alg != ALG_ECDSA_P256 {
        return SW_INCORRECT_P1P2, [];
      }
      if keyRef != KEY_REF_9A {
        return SW_REFERENCED_DATA_NOT_FOUND, [];
      }
      if !pinVerified {
        return SW_SECURITY_NOT_SATISFIED, [];
      }
      if !cmd.hasLc || cmd.lc < 4 {
        return SW_WRONG_LENGTH, [];
      }
      assert raw[at + 5..at + 5 + cmd.lc] == Data(cmd, mem);
      var ok;
      ok, hash := ParseTemplate(raw, at + cmd.dataAt, cmd.lc);
      return if ok then SW_OK else SW_WRONG_DATA, hash;
    }

    method HandleGeneralAuthenticate(cmd: Command, raw: array<byte>, at: nat, out: array<byte>, outAt: nat,
                                     capacity: nat, now: nat, pk: seq<byte>, ghost q: Request)
      returns (n: nat)
      requires Call(raw, at, out, outAt, capacity, q) && CommandIn(cmd, q.mem) && q.now == now && q.pk == pk
      modifies out, dev, crypto`signed
      ensures Answered(GeneralAuthenticate(old(Model()), cmd, q), old(out[..]), out, outAt, n)
    {
      var sw, hash := CheckAuthenticate(cmd, raw, at, q.mem);
      if sw != SW_OK {
        n := Refuse(out, outAt, capacity, sw);
        return;
      }
      n := SignIfAuthorized(cmd.p2, cmd.p1, hash, out, outAt, capacity, now, pk, q);
    }

    method SignIfAuthorized(keyRef: byte, alg: byte, hash: seq<byte>, out: array<byte>, outAt: nat, capacity: nat,
                            now: nat, pk: seq<byte>, ghost q: Request)
      returns (n: nat)
      requires Valid() && q.Legal() && capacity == q.capacity && outAt + capacity <= out.Length
      requires keyRef == KEY_REF_9A && alg == ALG_ECDSA_P256 && q.now == now && q.pk == pk
      requires out != chainBuf && out != crypto.certDer
      modifies out, dev, crypto`signed
      ensures Answered(Authorize(old(Model()), hash, q), old(out[..]), out, outAt, n)
    {
      var authorized := dev.IsAuthorized();
      if !authorized {
        dev.RequestAuth(now);
        n := Refuse(out, outAt, capacity, SW_CONDITIONS_NOT_SATISFIED);
        return;
      }
      var granted := dev.ConsumeAuth();
      if !granted {
        assert false;  // the second refusal of the code cannot happen
      }
      dev.BeginProcessing();
      var sig := crypto.Sign(keyRef, alg, hash, MAX_SIGNATURE, pk);
      if |sig| == 0 {
        dev.OpComplete();
        n := Refuse(out, outAt, capacity, SW_UNKNOWN);
        return;
      }
      dev.OpComplete();
      n := ReplySignature(out, outAt, capacity, sig);
    }

    /** `piv_process_apdu`. */
    method ProcessApdu(raw: array<byte>, at: nat, rawLen: nat, out: array<byte>, outAt: nat, capacity: nat,
                       now: nat, pk: seq<byte>, ghost q: Request)
      returns (n: nat)
      requires Call(raw, at, out, outAt, capacity, q) && q.rawLen == rawLen && q.now == now && q.pk == pk
      modifies this, chainBuf, certObj, out, dev, crypto`signed
      ensures Answered(PivModel.ProcessApdu(old(Model()), q), old(out[..]), out, outAt, n)
    {
      var ok, cmd := ParseRaw(raw, at, rawLen);
      if !ok {
        n := Refuse(out, outAt, capacity, SW_UNKNOWN);
        return;
      }
      if cmd.cla != 0x00 {
        n := Refuse(out, outAt, capacity, SW_CLA_NOT_SUPPORTED);
        return;
      }
      if cmd.ins == INS_SELECT {
        n := HandleSelect(cmd, raw, at, out, outAt, capacity, q);
        return;
      }
      if selected {
        if cmd.ins == INS_VERIFY {
          n := HandleVerify(cmd, raw, at, out, outAt, capacity, q);
          return;
        } else if cmd.ins == INS_GET_DATA {
          n := HandleGetData(cmd, raw, at, out, outAt, capacity, q);
          return;
        } else if cmd.ins == INS_GET_RESPONSE {
          n := HandleGetResponse(cmd, out, outAt, capacity, q);
          return;
        } else if cmd.ins == INS_GENERAL_AUTHENTICATE {
          n := HandleGeneralAuthenticate(cmd, raw, at, out, outAt, capacity, now, pk, q);
          return;
        }
      }
      n := Refuse(out, outAt, capacity, if selected then SW_INS_NOT_SUPPORTED else SW_CONDITIONS_NOT_SATISFIED);
    }
  }

  /** Both tags of the certificate object with their lengths, the inner length the way the code adds it up. */
  function CertHead(n: nat): seq<byte> {
    var inner := 2 + n + 3 + 2 + (if n >= 0x80 then 1 else 0) + (if n > 0xFF then 1 else 0);
    [0x53] + Tlv.LengthOctets(inner) + [0x70] + Tlv.LengthOctets(n)
  }

  /** The certificate object octet by octet. */
  function CertOctets(cert: seq<byte>): seq<byte> {
    CertHead(|cert|) + cert + [0x71, 0x01, 0x00] + [0xFE, 0x00]
  }

  /** The hand-computed lengths are those of the nested structure. */
  lemma CertObjectOctets(cert: seq<byte>)
    requires |cert| <= MAX_CERT_LEN
    ensures CertObject(cert) == CertOctets(cert)
  {
    CertElementsOctets(cert);
    var inner := Tlv.EncodeAll(CertElements(cert));
    var l, n := Tlv.LengthOctets(|inner|), Tlv.LengthOctets(|cert|);
    var tail := [0x71, 0x01, 0x00, 0xFE, 0x00];
    assert [0x53] + l + ([0x70] + n + cert + tail) == [0x53] + l + [0x70] + n + cert + tail;
    assert [0x71, 0x01, 0x00] + [0xFE, 0x00] == tail;
    assert CertHead(|cert|) == [0x53] + l + [0x70] + n;
  }
}
