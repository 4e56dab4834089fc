/** Octets, little-endian fields and the in-place copy that every C buffer operation of the firmware comes down to. */
module Bytes {

  /** A `uint8_t`. */
  type byte = b: int | 0 <= b < 0x100

  datatype Option<+T> = None | Some(value: T)

  /** The octet that a cast to `uint8_t` keeps. */
  function Low(n: nat): byte {
    n % 0x100
  }

  /** `(uint8_t)(n >> 8)`. */
  function High(n: nat): byte {
    n / 0x100 % 0x100
  }

  /** A `uint16_t` as it lies in memory. */
  function Le16(n: nat): (s: seq<byte>)
    ensures |s| == 2
  {
    [Low(n), High(n)]
  }

  function FromLe16(s: seq<byte>): nat
    requires |s| == 2
  {
    (s[0] as int) + 0x100 * (s[1] as int)
  }

  /** A `uint32_t` as it lies in memory. */
  function Le32(n: nat): (s: seq<byte>)
    ensures |s| == 4
  {
    Le16(n) + Le16(n / 0x1_0000)
  }

  function FromLe32(s: seq<byte>): (n: nat)
    requires |s| == 4
    ensures n < 0x1_0000_0000
  {
    FromLe16(s[..2]) + 0x1_0000 * FromLe16(s[2..])
  }

  lemma OctetOfSum(lo: nat, hi: nat)
    requires lo < 0x100
    ensures (lo + 0x100 * hi) / 0x100 == hi && (lo + 0x100 * hi) % 0x100 == lo
  {
  }

  lemma WordOfSum(lo: nat, hi: nat)
    requires lo < 0x1_0000
    ensures (lo + 0x1_0000 * hi) / 0x1_0000 == hi && (lo + 0x1_0000 * hi) % 0x1_0000 == lo
  {
  }

  lemma Le16RoundTrip(n: nat)
    ensures FromLe16(Le16(n)) == n % 0x1_0000
  {
    var q := n / 0x100;
    var r := n % 0x100 + 0x100 * (q % 0x100);
    assert q == 0x100 * (q / 0x100) + q % 0x100;
    assert n == r + 0x1_0000 * (q / 0x100);
    WordOfSum(r, q / 0x100);
  }

  lemma Le32RoundTrip(n: nat)
    requires n < 0x1_0000_0000
    ensures FromLe32(Le32(n)) == n
  {
    Le16RoundTrip(n);
    Le16RoundTrip(n / 0x1_0000);
    assert Le32(n)[..2] == Le16(n) && Le32(n)[2..] == Le16(n / 0x1_0000);
  }

  lemma Le16Injective(s: seq<byte>)
    requires |s| == 2
    ensures FromLe16(s) < 0x1_0000 && Le16(FromLe16(s)) == s
  {
    var lo, hi := s[0] as nat, s[1] as nat;
    OctetOfSum(lo, hi);
    assert hi % 0x100 == hi;
  }

  /** The four octets are those of the number they stand for. */
  lemma Le32Injective(s: seq<byte>)
    requires |s| == 4
    ensures Le32(FromLe32(s)) == s
  {
    var lo, hi := FromLe16(s[..2]), FromLe16(s[2..]);
    Le16Injective(s[..2]);
    Le16Injective(s[2..]);
    WordOfSum(lo, hi);
    Le16OfSum(lo, hi);
    assert s == s[..2] + s[2..];
  }

  lemma Le16OfSum(lo: nat, hi: nat)
    requires lo < 0x1_0000
    ensures Le16(lo + 0x1_0000 * hi) == Le16(lo)
  {
    var n := lo + 0x1_0000 * hi;
    OctetOfSum(lo % 0x100, lo / 0x100 + 0x100 * hi);
    assert n == lo % 0x100 + 0x100 * (lo / 0x100 + 0x100 * hi);
    OctetOfSum(lo / 0x100, hi);
    assert lo / 0x100 % 0x100 == lo / 0x100;
  }

  lemma HighLow(n: nat)
    requires n < 0x1_0000
    ensures 0x100 * (High(n) as int) + Low(n) as int == n
  {
    assert n / 0x100 < 0x100;
  }

  lemma SliceOfSlice(s: seq<byte>, from: nat, to: nat, a: nat, b: nat)
    requires from <= to <= |s| && a <= b <= to - from
    ensures s[from..to][a..b] == s[from + a..from + b]
    ensures a == 0 ==> s[from..to][..b] == s[from..from + b]
    ensures b == to - from ==> s[from..to][a..] == s[from + a..to]
  {
    var t, u, v := s[from..to], s[from..to][a..b], s[from + a..from + b];
    assert u == v by {
      forall k | 0 <= k < b - a
        ensures u[k] == v[k]
      {
        assert u[k] == t[a + k] == s[from + (a + k)];
      }
    }
    assert t[..b] == t[0..b] && t[a..] == t[a..to - from];
  }

  /** `s` with `bytes` written over it from position `at`. */
  function Splice(s: seq<byte>, at: nat, bytes: seq<byte>): (r: seq<byte>)
    requires at + |bytes| <= |s|
    ensures |r| == |s|
    ensures r[at..at + |bytes|] == bytes
    ensures r[..at] == s[..at]
    ensures r[at + |bytes|..] == s[at + |bytes|..]
  {
    s[..at] + bytes + s[at + |bytes|..]
  }

  /** What lies outside stays. */
  lemma SpliceLeaves(s: seq<byte>, at: nat, bytes: seq<byte>, i: nat)
    requires at + |bytes| <= |s| && i < |s| && (i < at || at + |bytes| <= i)
    ensures Splice(s, at, bytes)[i] == s[i]
  {
  }

  /** Writing `a` and then `b` directly behind it is writing `a + b`. */
  lemma SpliceSplice(s: seq<byte>, at: nat, a: seq<byte>, b: seq<byte>)
    requires at + |a| + |b| <= |s|
    ensures Splice(Splice(s, at, a), at + |a|, b) == Splice(s, at, a + b)
  {
  }

  /** Writing `a` alone is writing `a + b` where `b` already stands behind it. */
  lemma SpliceHead(s: seq<byte>, a: seq<byte>, b: seq<byte>)
    requires |a| + |b| <= |s| && s[|a|..|a| + |b|] == b
    ensures Splice(s, 0, a) == Splice(s, 0, a + b)
  {
    assert s[|a|..] == b + s[|a| + |b|..];
  }

  /** `memcpy(dst + at, bytes, |bytes|)`. */
  method MemCpy(dst: array<byte>, at: nat, bytes: seq<byte>)
    requires at + |bytes| <= dst.Length
    modifies dst
    ensures dst[..] == Splice(old(dst[..]), at, bytes)
  {
    for i := 0 to |bytes|
      invariant forall k :: 0 <= k < i ==> dst[at + k] == bytes[k]
      invariant forall k :: 0 <= k < at || at + i <= k < dst.Length ==> dst[k] == old(dst[k])
    {
      dst[at + i] := bytes[i];
    }
    forall k | 0 <= k < dst.Length
      ensures dst[..][k] == Splice(old(dst[..]), at, bytes)[k]
    {
      assert at <= k < at + |bytes| ==> dst[at + (k - at)] == bytes[k - at];
    }
  }

  /** `memset(dst, value, dst.Length)`. */
  method MemSet(dst: array<byte>, value: byte)
    modifies dst
    ensures dst[..] == seq(dst.Length, _ => value)
  {
    for i := 0 to dst.Length
      invariant forall k :: 0 <= k < i ==> dst[k] == value
    {
      dst[i] := value;
    }
  }
}
