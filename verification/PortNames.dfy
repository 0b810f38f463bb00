/** The deterministic grout port names of pkg/cni/portname.go. SHA-256 enters as an
    arbitrary function with 32-byte results. */
module PortNames {
  import opened Base

  type Digest = d: bytes | |d| == 32 witness seq(32, _ => 0)

  /** "grk-" */
  const PORT_PREFIX: bytes := [0x67, 0x72, 0x6b, 0x2d]

  /** A lowercase base32 digit: a..z or 2..7. */
  predicate IsDigit(c: byte) {
    0x61 <= c <= 0x7a || 0x32 <= c <= 0x37
  }

  /** The shape of every name groutPortName can produce: "grk-" and eleven base32 digits. */
  predicate PortShaped(n: bytes) {
    |n| == 15 && HasPrefix(n, PORT_PREFIX) && forall i :: 4 <= i < 15 ==> IsDigit(n[i])
  }

  /** Bit i of a byte string, most significant first; 0 past its end. */
  function Bit(d: bytes, i: nat): (b: int)
    ensures 0 <= b <= 1
  {
    if i / 8 >= |d| then 0
    else
      var v := d[i / 8];
      var shifted := match i % 8
        case 0 => v / 128 case 1 => v / 64 case 2 => v / 32 case 3 => v / 16
        case 4 => v / 8 case 5 => v / 4 case 6 => v / 2 case _ => v;
      shifted % 2
  }

  /** The k-th group of five bits, as in section 6 of RFC 4648. */
  function Quintet(d: bytes, k: nat): (v: int)
    ensures 0 <= v < 32
  {
    16 * Bit(d, 5 * k) + 8 * Bit(d, 5 * k + 1) + 4 * Bit(d, 5 * k + 2) + 2 * Bit(d, 5 * k + 3) + Bit(d, 5 * k + 4)
  }

  /** The standard base32 alphabet: A..Z, 2..7. */
  function Base32Char(v: int): byte
    requires 0 <= v < 32
  {
    if v < 26 then 0x41 + v else 0x32 + (v - 26)
  }

  /** Base32 without padding. */
  function Base32(d: bytes): (r: bytes)
    ensures |r| == (8 * |d| + 4) / 5
    ensures forall k :: 0 <= k < |r| ==> r[k] == Base32Char(Quintet(d, k))
  {
    seq((8 * |d| + 4) / 5, k requires 0 <= k => Base32Char(Quintet(d, k)))
  }

  function Lower(c: byte): byte {
    if 0x41 <= c <= 0x5a then c + 32 else c
  }

  function ToLower(s: bytes): (r: bytes)
    ensures |r| == |s| && forall k :: 0 <= k < |s| ==> r[k] == Lower(s[k])
  {
    seq(|s|, k requires 0 <= k < |s| => Lower(s[k]))
  }

  function PortName(d: Digest): bytes {
    PORT_PREFIX + ToLower(Base32(d))[..11]
  }

  /** What is hashed: container id, NUL, interface name. */
  function Key(a: Attachment): bytes {
    a.container + [0] + a.ifName
  }

  function GroutPortName(sha: bytes -> Digest, a: Attachment): bytes {
    PortName(sha(Key(a)))
  }

  // ---------- properties ----------

  lemma PortNameShape(d: Digest)
    ensures PortShaped(PortName(d))
  {
    var n := PortName(d);
    forall i | 4 <= i < 15
      ensures IsDigit(n[i])
    {
      assert n[i] == Lower(Base32Char(Quintet(d, i - 4)));
    }
  }

  lemma QuintetBits(d: bytes, e: bytes, k: nat)
    ensures Quintet(d, k) == Quintet(e, k) <==> forall j :: 5 * k <= j < 5 * k + 5 ==> Bit(d, j) == Bit(e, j)
  {
    if Quintet(d, k) == Quintet(e, k) {
      assert Bit(d, 5 * k) == Bit(e, 5 * k) && Bit(d, 5 * k + 1) == Bit(e, 5 * k + 1) && Bit(d, 5 * k + 2) == Bit(e, 5 * k + 2);
      assert Bit(d, 5 * k + 3) == Bit(e, 5 * k + 3) && Bit(d, 5 * k + 4) == Bit(e, 5 * k + 4);
    }
  }

  lemma DigitsExact(u: int, v: int)
    requires 0 <= u < 32 && 0 <= v < 32
    ensures Lower(Base32Char(u)) == Lower(Base32Char(v)) <==> u == v
  {
  }

  lemma SameDigit(d: Digest, e: Digest, k: nat)
    requires k < 11
    ensures PortName(d)[k + 4] == PortName(e)[k + 4] <==> Quintet(d, k) == Quintet(e, k)
  {
    assert PortName(d)[k + 4] == Lower(Base32Char(Quintet(d, k))) && PortName(e)[k + 4] == Lower(Base32Char(Quintet(e, k)));
    DigitsExact(Quintet(d, k), Quintet(e, k));
  }

  /** Two port names are equal exactly when the digests agree on their first 55 bits. */
  lemma PortNameExact(d: Digest, e: Digest)
    ensures PortName(d) == PortName(e) <==> forall j :: 0 <= j < 55 ==> Bit(d, j) == Bit(e, j)
  {
    var m, n := PortName(d), PortName(e);
    if m == n {
      forall j | 0 <= j < 55
        ensures Bit(d, j) == Bit(e, j)
      {
        SameDigit(d, e, j / 5);
        QuintetBits(d, e, j / 5);
      }
    }
    if forall j :: 0 <= j < 55 ==> Bit(d, j) == Bit(e, j) {
      forall i | 0 <= i < 15
        ensures m[i] == n[i]
      {
        if i >= 4 {
          QuintetBits(d, e, i - 4);
          SameDigit(d, e, i - 4);
        }
      }
      assert m == n;
    }
  }

  // ---------- what a port name spells ----------

  /** abcdefghijklmnopqrstuvwxyz234567 */
  const ALPHABET: bytes :=
    [0x61, 0x62, 0x63, 0x64, 0x65, 0x66, 0x67, 0x68, 0x69, 0x6a, 0x6b, 0x6c, 0x6d, 0x6e, 0x6f, 0x70,
     0x71, 0x72, 0x73, 0x74, 0x75, 0x76, 0x77, 0x78, 0x79, 0x7a, 0x32, 0x33, 0x34, 0x35, 0x36, 0x37]

  lemma DigitAt(v: int)
    requires 0 <= v < 32
    ensures Lower(Base32Char(v)) == ALPHABET[v]
  {
  }

  /** Each digit of the name stands for five bits of the digest, the most significant first. */
  lemma PortNameRead(d: Digest, k: nat)
    requires k < 11
    ensures PortName(d)[..4] == [0x67, 0x72, 0x6b, 0x2d] && PortName(d)[4 + k] == ALPHABET[Quintet(d, k)]
  {
    DigitAt(Quintet(d, k));
    assert PortName(d)[4 + k] == Lower(Base32Char(Quintet(d, k)));
  }

  /** What is hashed: the container id, a NUL, the interface name. */
  lemma KeyRead(a: Attachment)
    ensures var k, n := Key(a), |a.container|;
            |k| == n + 1 + |a.ifName| && k[..n] == a.container && k[n] == 0 && k[n + 1..] == a.ifName
  {
  }

  // ---------- every port-shaped name is a port name ----------

  ghost predicate IsBits(b: seq<int>) {
    forall i :: 0 <= i < |b| ==> 0 <= b[i] < 2
  }

  ghost function ByteOf(b: seq<int>): byte
    requires |b| == 8 && IsBits(b)
  {
    128 * b[0] + 64 * b[1] + 32 * b[2] + 16 * b[3] + 8 * b[4] + 4 * b[5] + 2 * b[6] + b[7]
  }

  ghost function FromBits(b: seq<int>): (d: Digest)
    requires |b| == 256 && IsBits(b)
    ensures forall i :: 0 <= i < 32 ==> d[i] == ByteOf(b[8 * i..8 * i + 8])
  {
    seq(32, i requires 0 <= i < 32 => ByteOf(b[8 * i..8 * i + 8]))
  }

  lemma ByteBits(c: seq<int>)
    requires |c| == 8 && IsBits(c)
    ensures var v := ByteOf(c);
            && v / 128 % 2 == c[0] && v / 64 % 2 == c[1] && v / 32 % 2 == c[2] && v / 16 % 2 == c[3]
            && v / 8 % 2 == c[4] && v / 4 % 2 == c[5] && v / 2 % 2 == c[6] && v % 2 == c[7]
  {
    var v := ByteOf(c);
    assert v / 2 == 64 * c[0] + 32 * c[1] + 16 * c[2] + 8 * c[3] + 4 * c[4] + 2 * c[5] + c[6];
    assert v / 4 == 32 * c[0] + 16 * c[1] + 8 * c[2] + 4 * c[3] + 2 * c[4] + c[5];
    assert v / 8 == 16 * c[0] + 8 * c[1] + 4 * c[2] + 2 * c[3] + c[4];
    assert v / 16 == 8 * c[0] + 4 * c[1] + 2 * c[2] + c[3];
    assert v / 32 == 4 * c[0] + 2 * c[1] + c[2];
    assert v / 64 == 2 * c[0] + c[1];
    assert v / 128 == c[0];
  }

  /** Bits are counted from the most significant one of the first byte. */
  lemma BitsBack(b: seq<int>, i: nat)
    requires |b| == 256 && IsBits(b) && i < 256
    ensures Bit(FromBits(b), i) == b[i]
  {
    var c := b[8 * (i / 8)..8 * (i / 8) + 8];
    assert FromBits(b)[i / 8] == ByteOf(c) && c[i % 8] == b[i];
    ByteBits(c);
  }

  /** The value of a digit. */
  function DigitValue(c: byte): (v: int)
    requires IsDigit(c)
    ensures 0 <= v < 32 && Lower(Base32Char(v)) == c
  {
    if c >= 0x61 then c - 0x61 else c - 0x32 + 26
  }

  /** Bit j of five, most significant first. */
  ghost function DigitBit(v: int, j: nat): (b: int)
    requires 0 <= v < 32
    ensures 0 <= b < 2
  {
    match j
    case 0 => v / 16 case 1 => v / 8 % 2 case 2 => v / 4 % 2 case 3 => v / 2 % 2 case _ => v % 2
  }

  lemma DigitBits(v: int)
    requires 0 <= v < 32
    ensures v == 16 * DigitBit(v, 0) + 8 * DigitBit(v, 1) + 4 * DigitBit(v, 2) + 2 * DigitBit(v, 3) + DigitBit(v, 4)
  {
  }

  ghost function NameBits(n: bytes): (b: seq<int>)
    requires PortShaped(n)
    ensures |b| == 256 && IsBits(b)
    ensures forall i :: 0 <= i < 55 ==> b[i] == DigitBit(DigitValue(n[4 + i / 5]), i % 5)
  {
    seq(256, i requires 0 <= i < 256 => if i < 55 then DigitBit(DigitValue(n[4 + i / 5]), i % 5) else 0)
  }

  /** Bit j of the k-th group of five bits of d is that of v. */
  ghost predicate BitSpelt(d: bytes, k: nat, v: int, j: nat)
    requires 0 <= v < 32
  {
    Bit(d, 5 * k + j) == DigitBit(v, j)
  }

  lemma NameBitsAt(n: bytes, k: nat, j: nat)
    requires PortShaped(n) && k < 11 && j < 5
    ensures NameBits(n)[5 * k + j] == DigitBit(DigitValue(n[4 + k]), j)
  {
    assert (5 * k + j) / 5 == k && (5 * k + j) % 5 == j;
  }

  lemma BitOf(b: seq<int>, k: nat, v: int, j: nat)
    requires |b| == 256 && IsBits(b) && 0 <= v < 32 && 5 * k + j < 256 && b[5 * k + j] == DigitBit(v, j)
    ensures BitSpelt(FromBits(b), k, v, j)
  {
    BitsBack(b, 5 * k + j);
  }

  lemma NameBit(n: bytes, k: nat, j: nat)
    requires PortShaped(n) && k < 11 && j < 5
    ensures BitSpelt(FromBits(NameBits(n)), k, DigitValue(n[4 + k]), j)
  {
    NameBitsAt(n, k, j);
    BitOf(NameBits(n), k, DigitValue(n[4 + k]), j);
  }

  lemma QuintetSpelt(d: bytes, k: nat, v: int)
    requires 0 <= v < 32 && BitSpelt(d, k, v, 0) && BitSpelt(d, k, v, 1) && BitSpelt(d, k, v, 2)
    requires BitSpelt(d, k, v, 3) && BitSpelt(d, k, v, 4)
    ensures Quintet(d, k) == v
  {
    DigitBits(v);
  }

  lemma QuintetBack(n: bytes, k: nat)
    requires PortShaped(n) && k < 11
    ensures Quintet(FromBits(NameBits(n)), k) == DigitValue(n[4 + k])
  {
    NameBit(n, k, 0);
    NameBit(n, k, 1);
    NameBit(n, k, 2);
    NameBit(n, k, 3);
    NameBit(n, k, 4);
    QuintetSpelt(FromBits(NameBits(n)), k, DigitValue(n[4 + k]));
  }

  /** A digest whose port name is n. */
  ghost function DigestOf(n: bytes): (d: Digest)
    requires PortShaped(n)
    ensures PortName(d) == n
  {
    NameOfBits(n);
    FromBits(NameBits(n))
  }

  /** Every name of the right shape is the port name of some digest. */
  lemma NameOfBits(n: bytes)
    requires PortShaped(n)
    ensures PortName(FromBits(NameBits(n))) == n
  {
    var d := FromBits(NameBits(n));
    var m := PortName(d);
    assert n[..4] == PORT_PREFIX == m[..4];
    forall i | 4 <= i < 15
      ensures m[i] == n[i]
    {
      QuintetBack(n, i - 4);
      assert m[i] == Lower(Base32Char(Quintet(d, i - 4)));
    }
    assert m == m[..4] + m[4..] && n == n[..4] + n[4..];
  }

  // ---------- keys ----------

  predicate NulFree(s: bytes) {
    forall i :: 0 <= i < |s| ==> s[i] != 0
  }

  /** The hashed key tells attachments apart as long as container ids hold no NUL. */
  lemma KeyInjective(a: Attachment, b: Attachment)
    requires NulFree(a.container) && NulFree(b.container)
    ensures Key(a) == Key(b) <==> a == b
  {
    if Key(a) == Key(b) {
      var m, n := |a.container|, |b.container|;
      assert Key(a)[m] == 0 && Key(b)[n] == 0;
      assert m == n;
      assert a.container == Key(a)[..m] == Key(b)[..n] == b.container;
      assert a.ifName == Key(a)[m + 1..] == Key(b)[n + 1..] == b.ifName;
    }
  }

  /** Exactly the attachments with a NUL in the container id or the interface name share their key with
      another one. */
  lemma KeyShared(a: Attachment)
    ensures (exists b: Attachment :: b != a && Key(b) == Key(a)) <==> !NulFree(a.container) || !NulFree(a.ifName)
  {
    if !NulFree(a.container) {
      var i :| 0 <= i < |a.container| && a.container[i] == 0;
      var b := Attachment(a.container[..i], a.container[i + 1..] + [0] + a.ifName);
      assert Key(b) == Key(a);
    } else if !NulFree(a.ifName) {
      var i :| 0 <= i < |a.ifName| && a.ifName[i] == 0;
      var b := Attachment(a.container + [0] + a.ifName[..i], a.ifName[i + 1..]);
      assert Key(b) == Key(a);
    } else {
      forall b: Attachment | Key(b) == Key(a)
        ensures b == a
      {
        SoleKey(a, b);
      }
    }
  }

  lemma SoleKey(a: Attachment, b: Attachment)
    requires NulFree(a.container) && NulFree(a.ifName) && Key(b) == Key(a)
    ensures b == a
  {
    var m, n := |a.container|, |b.container|;
    assert Key(b)[n] == 0;
    assert forall i :: 0 <= i < |Key(a)| && i != m ==> Key(a)[i] != 0;
    assert a.container == Key(a)[..m] == b.container;
    assert a.ifName == Key(a)[m + 1..] == b.ifName;
  }

  /** So there are two with one key. */
  lemma KeyAmbiguous()
    ensures exists a, b: Attachment :: a != b && Key(a) == Key(b)
  {
    var a := Attachment([1, 0, 2], [3]);
    assert a.container[1] == 0;
    KeyShared(a);
  }
}
