/** The key-store sector: its byte layout, saving and loading, and the certificate and signing entry points on top. */
module KeyStore {
  import opened Bytes

  const SECTOR_SIZE := 4096
  const MAGIC := 0xA3B1_C057
  const OFFSET_MAGIC := 0
  const OFFSET_PRIVKEY := 4
  const OFFSET_PUBKEY_X := 36
  const OFFSET_PUBKEY_Y := 68
  const OFFSET_CERT_LEN := 100
  const OFFSET_CERT_DER := 102
  const MAX_CERT_LEN := SECTOR_SIZE - OFFSET_CERT_DER

  const KEY_REF_9A: byte := 0x9A
  const ALG_ECDSA_P256: byte := 0x11
  const MAX_SIGNATURE := 72

  /** The fields kept in flash. */
  datatype Keys = Keys(privkey: seq<byte>, pubkeyX: seq<byte>, pubkeyY: seq<byte>) {
    predicate WellFormed() {
      |privkey| == |pubkeyX| == |pubkeyY| == 32
    }
  }

  /** The sector that `_flash_save` programs. */
  function SectorImage(k: Keys, cert: seq<byte>): (s: seq<byte>)
    requires k.WellFormed()
    ensures |s| == SECTOR_SIZE
  {
    var s0 := seq(SECTOR_SIZE, _ => 0xFF as byte);
    var s1 := Splice(s0, OFFSET_MAGIC, Le32(MAGIC));
    var s2 := Splice(s1, OFFSET_PRIVKEY, k.privkey);
    var s3 := Splice(s2, OFFSET_PUBKEY_X, k.pubkeyX);
    var s4 := Splice(s3, OFFSET_PUBKEY_Y, k.pubkeyY);
    var s5 := Splice(s4, OFFSET_CERT_LEN, Le16(|cert|));
    if 0 < |cert| <= MAX_CERT_LEN then Splice(s5, OFFSET_CERT_DER, cert) else s5
  }

  predicate IsInitialized(flash: seq<byte>)
    requires |flash| == SECTOR_SIZE
  {
    FromLe32(flash[OFFSET_MAGIC..OFFSET_MAGIC + 4]) == MAGIC
  }

  function LoadKeys(flash: seq<byte>): (k: Keys)
    requires |flash| == SECTOR_SIZE
    ensures k.WellFormed()
  {
    Keys(flash[OFFSET_PRIVKEY..OFFSET_PRIVKEY + 32],
         flash[OFFSET_PUBKEY_X..OFFSET_PUBKEY_X + 32],
         flash[OFFSET_PUBKEY_Y..OFFSET_PUBKEY_Y + 32])
  }

  function LoadCert(flash: seq<byte>): (cert: seq<byte>)
    requires |flash| == SECTOR_SIZE
    ensures |cert| <= MAX_CERT_LEN
  {
    var len := FromLe16(flash[OFFSET_CERT_LEN..OFFSET_CERT_LEN + 2]);
    if len > MAX_CERT_LEN then [] else flash[OFFSET_CERT_DER..OFFSET_CERT_DER + len]
  }

  /** The sector as the layout describes it, octet by octet; what no field takes is left erased. */
  predicate HoldsFields(flash: seq<byte>, k: Keys, cert: seq<byte>) {
    && |flash| == 4096
    && flash[..4] == [0x57, 0xC0, 0xB1, 0xA3]
    && flash[4..36] == k.privkey && flash[36..68] == k.pubkeyX && flash[68..100] == k.pubkeyY
    && CertLength(flash) == |cert| % 0x1_0000
    && var n := if |cert| <= 3994 then |cert| else 0;
       flash[102..102 + n] == cert[..n] && forall i :: 102 + n <= i < 4096 ==> flash[i] == 0xFF
  }

  /** The certificate length, low octet first. */
  function CertLength(flash: seq<byte>): nat
    requires |flash| == 4096
  {
    flash[100] as int + 0x100 * flash[101] as int
  }

  /** The regions are disjoint and fit. */
  lemma SaverWritesFields(k: Keys, cert: seq<byte>)
    requires k.WellFormed()
    ensures HoldsFields(SectorImage(k, cert), k, cert)
  {
    var flash := SectorImage(k, cert);
    MagicOctets();
    Le16RoundTrip(|cert|);
    assert flash[..4] == Le32(MAGIC);
    assert flash[4..36] == k.privkey;
    assert flash[36..68] == k.pubkeyX;
    assert flash[68..100] == k.pubkeyY;
    assert flash[100..102] == Le16(|cert|);
    assert flash[100] == flash[100..102][0] && flash[101] == flash[100..102][1];
    var n := if |cert| <= 3994 then |cert| else 0;
    assert flash[102..102 + n] == cert[..n];
    forall i | 102 + n <= i < 4096
      ensures flash[i] == 0xFF
    {
      RestIsErased(k, cert, i);
    }
  }

  lemma RestIsErased(k: Keys, cert: seq<byte>, i: nat)
    requires k.WellFormed() && 102 <= i < 4096 && (|cert| <= 3994 ==> 102 + |cert| <= i)
    ensures SectorImage(k, cert)[i] == 0xFF
  {
    var s0 := seq(SECTOR_SIZE, _ => 0xFF as byte);
    var s1 := Splice(s0, OFFSET_MAGIC, Le32(MAGIC));
    var s2 := Splice(s1, OFFSET_PRIVKEY, k.privkey);
    var s3 := Splice(s2, OFFSET_PUBKEY_X, k.pubkeyX);
    var s4 := Splice(s3, OFFSET_PUBKEY_Y, k.pubkeyY);
    var s5 := Splice(s4, OFFSET_CERT_LEN, Le16(|cert|));
    SpliceLeaves(s0, OFFSET_MAGIC, Le32(MAGIC), i);
    SpliceLeaves(s1, OFFSET_PRIVKEY, k.privkey, i);
    SpliceLeaves(s2, OFFSET_PUBKEY_X, k.pubkeyX, i);
    SpliceLeaves(s3, OFFSET_PUBKEY_Y, k.pubkeyY, i);
    SpliceLeaves(s4, OFFSET_CERT_LEN, Le16(|cert|), i);
    if 0 < |cert| <= MAX_CERT_LEN {
      SpliceLeaves(s5, OFFSET_CERT_DER, cert, i);
    }
  }

  lemma MagicOctets()
    ensures Le32(MAGIC) == [0x57, 0xC0, 0xB1, 0xA3]
  {
  }

  /** What the loader makes of any sector at all. */
  lemma LoaderReads(flash: seq<byte>)
    requires |flash| == 4096
    ensures IsInitialized(flash) <==> flash[..4] == [0x57, 0xC0, 0xB1, 0xA3]
    ensures LoadKeys(flash) == Keys(flash[4..36], flash[36..68], flash[68..100])
    ensures LoadCert(flash) == if CertLength(flash) <= 3994 then flash[102..102 + CertLength(flash)] else []
  {
    MagicOctets();
    Le32RoundTrip(MAGIC);
    Le32Injective(flash[..4]);
  }

  lemma LoaderReadsFields(flash: seq<byte>, k: Keys, cert: seq<byte>)
    requires |cert| < 0x1_0000 && HoldsFields(flash, k, cert)
    ensures IsInitialized(flash) && LoadKeys(flash) == k
    ensures LoadCert(flash) == if |cert| <= MAX_CERT_LEN then cert else []
  {
    LoaderReads(flash);
  }

  /**
   The loader reads every field back from the sector the saver wrote. A certificate too long for the sector is lost,
   and only then.
   */
  lemma LoadInvertsSave(k: Keys, cert: seq<byte>)
    requires k.WellFormed() && |cert| < 0x1_0000
    ensures var flash := SectorImage(k, cert);
            && IsInitialized(flash)
            && LoadKeys(flash) == k
            && LoadCert(flash) == (if |cert| <= MAX_CERT_LEN then cert else [])
  {
    SaverWritesFields(k, cert);
    LoaderReadsFields(SectorImage(k, cert), k, cert);
  }

  /** What the rest of the firmware sees of the backend, with every challenge ever passed to `crypto_sign`. */
  datatype Vault = Vault(initialized: bool, cert: seq<byte>, signed: seq<seq<byte>>)

  /** `crypto_get_cert_der`: nothing when the backend is not up, the key is another one, or the buffer is too small. */
  function CertDer(v: Vault, keyRef: byte, bufLen: nat): seq<byte> {
    if !v.initialized || keyRef != KEY_REF_9A || |v.cert| > bufLen then [] else v.cert
  }

  /** `crypto_sign`; `pk` is what the foreign signer would answer, nothing when it fails. */
  function Signature(v: Vault, keyRef: byte, alg: byte, hash: seq<byte>, outLen: nat, pk: seq<byte>): (s: seq<byte>)
    ensures s == [] || s == pk
  {
    if !v.initialized || keyRef != KEY_REF_9A || alg != ALG_ECDSA_P256 || |hash| != 32 || outLen < MAX_SIGNATURE
    then []
    else pk
  }

  class Backend {
    const flash: array<byte>
    const sector: array<byte>
    const certDer: array<byte>
    var certLen: nat
    var keys: Keys
    var initialized: bool
    ghost var signed: seq<seq<byte>>

    ghost predicate Valid()
      reads this
    {
      && flash.Length == sector.Length == SECTOR_SIZE && certDer.Length == MAX_CERT_LEN
      && flash != sector && flash != certDer && sector != certDer
      && certLen <= MAX_CERT_LEN && keys.WellFormed()
    }

    ghost function Model(): Vault
      requires Valid()
      reads this, certDer
    {
      Vault(initialized, certDer[..certLen], signed)
    }

    /** Power-up: static variables are zero, flash keeps what it held. */
    constructor (contents: seq<byte>)
      requires |contents| == SECTOR_SIZE
      ensures Valid() && flash[..] == contents && Model() == Vault(false, [], [])
      ensures fresh(flash) && fresh(sector) && fresh(certDer)
    {
      flash := new byte[SECTOR_SIZE](i requires 0 <= i < SECTOR_SIZE => contents[i]);
      sector := new byte[SECTOR_SIZE](_ => 0);
      certDer := new byte[MAX_CERT_LEN](_ => 0);
      certLen, initialized, signed := 0, false, [];
      keys := Keys(seq(32, _ => 0), seq(32, _ => 0), seq(32, _ => 0));
    }

    method FlashIsInitialized() returns (yes: bool)
      requires Valid()
      ensures yes == IsInitialized(flash[..])
    {
      assert flash[..][OFFSET_MAGIC..OFFSET_MAGIC + 4] == flash[OFFSET_MAGIC..OFFSET_MAGIC + 4];
      yes := FromLe32(flash[OFFSET_MAGIC..OFFSET_MAGIC + 4]) == MAGIC;
    }

    /** `_flash_save`: build the image in RAM, erase, program. */
    method FlashSave(k: Keys, cert: seq<byte>)
      requires Valid() && k.WellFormed() && |cert| < 0x1_0000
      modifies sector, flash
      ensures flash[..] == SectorImage(k, cert)
    {
      MemSet(sector, 0xFF);
      MemCpy(sector, OFFSET_MAGIC, Le32(MAGIC));
      MemCpy(sector, OFFSET_PRIVKEY, k.privkey);
      MemCpy(sector, OFFSET_PUBKEY_X, k.pubkeyX);
      MemCpy(sector, OFFSET_PUBKEY_Y, k.pubkeyY);
      MemCpy(sector, OFFSET_CERT_LEN, Le16(|cert|));
      if 0 < |cert| && |cert| <= MAX_CERT_LEN {
        MemCpy(sector, OFFSET_CERT_DER, cert);
      }
      MemSet(flash, 0xFF);
      MemCpy(flash, 0, sector[..]);
    }

    /** `_flash_load` up to the point where the fields go to the foreign key context. */
    method FlashLoad()
      requires Valid()
      modifies this, certDer
      ensures Valid() && initialized == old(initialized) && signed == old(signed)
      ensures keys == LoadKeys(flash[..])
      ensures Model().cert == LoadCert(flash[..])
    {
      ghost var image := flash[..];
      var privkey := flash[OFFSET_PRIVKEY..OFFSET_PRIVKEY + 32];
      var pubkeyX := flash[OFFSET_PUBKEY_X..OFFSET_PUBKEY_X + 32];
      var pubkeyY := flash[OFFSET_PUBKEY_Y..OFFSET_PUBKEY_Y + 32];
      certLen := FromLe16(flash[OFFSET_CERT_LEN..OFFSET_CERT_LEN + 2]);
      assert flash[OFFSET_CERT_LEN..OFFSET_CERT_LEN + 2] == image[OFFSET_CERT_LEN..OFFSET_CERT_LEN + 2];
      if certLen > MAX_CERT_LEN {
        certLen := 0;
      }
      if certLen > 0 {
        MemCpy(certDer, 0, flash[OFFSET_CERT_DER..OFFSET_CERT_DER + certLen]);
        assert certDer[..certLen] == image[OFFSET_CERT_DER..OFFSET_CERT_DER + certLen];
      }
      keys := Keys(privkey, pubkeyX, pubkeyY);
    }

    /** The branch of `crypto_backend_init` taken on every boot after the first one. */
    method Boot() returns (loaded: bool)
      requires Valid()
      modifies this, certDer
      ensures Valid() && loaded == IsInitialized(flash[..]) && signed == old(signed)
      ensures loaded ==> keys == LoadKeys(flash[..]) && Model() == Vault(true, LoadCert(flash[..]), signed)
      ensures !loaded ==> Model() == old(Model())
    {
      loaded := FlashIsInitialized();
      if loaded {
        FlashLoad();
        initialized := true;
      }
    }

    method GetCertDer(keyRef: byte, buf: array<byte>) returns (n: nat)
      requires Valid() && buf != certDer
      modifies buf
      ensures n == |CertDer(Model(), keyRef, buf.Length)| <= buf.Length
      ensures buf[..n] == CertDer(Model(), keyRef, buf.Length)
      ensures initialized && keyRef == 0x9A && certLen <= buf.Length ==> buf[..n] == certDer[..certLen]
      ensures !(initialized && keyRef == 0x9A && certLen <= buf.Length) ==> n == 0
    {
      if !initialized || keyRef != KEY_REF_9A {
        return 0;
      }
      if certLen == 0 || certLen > buf.Length {
        return 0;
      }
      MemCpy(buf, 0, certDer[..certLen]);
      assert buf[..certLen] == certDer[..certLen];
      return certLen;
    }

    method Sign(keyRef: byte, alg: byte, hash: seq<byte>, outLen: nat, pk: seq<byte>) returns (sig: seq<byte>)
      requires Valid()
      modifies this`signed
      ensures sig == Signature(old(Model()), keyRef, alg, hash, outLen, pk)
      ensures old(initialized) && keyRef == 0x9A && alg == 0x11 && |hash| == 32 && outLen >= 72 ==> sig == pk
      ensures !(old(initialized) && keyRef == 0x9A && alg == 0x11 && |hash| == 32 && outLen >= 72) ==> sig == []
      ensures Model() == old(Model()).(signed := old(signed) + [hash])
    {
      signed := signed + [hash];
      if !initialized {
        return [];
      }
      if keyRef != KEY_REF_9A || alg != ALG_ECDSA_P256 {
        return [];
      }
      if |hash| != 32 {
        return [];
      }
      if outLen < MAX_SIGNATURE {
        return [];
      }
      return pk;
    }

    /** Save, lose power, boot: the keys and every certificate that fits are back. */
    method SaveThenReboot(k: Keys, cert: seq<byte>) returns (rebooted: Backend)
      requires Valid() && k.WellFormed() && |cert| < 0x1_0000
      modifies sector, flash
      ensures fresh(rebooted) && rebooted.Valid() && rebooted.keys == k
      ensures rebooted.Model() == Vault(true, if |cert| <= MAX_CERT_LEN then cert else [], [])
    {
      FlashSave(k, cert);
      rebooted := new Backend(flash[..]);
      LoadInvertsSave(k, cert);
      var _ := rebooted.Boot();
    }
  }
}
