/** Bytes and the little-endian integers that packet headers and fields are made of. */
module Bytes {

  type byte = bv8

  function ToByte(n: nat): byte
    requires n < 256
  {
    n as byte
  }

  function ToNat(b: byte): (n: nat)
    ensures n < 256
  {
    b as nat
  }

  function Pow256(n: nat): (p: nat)
    ensures p > 0
  {
    if n == 0 then 1 else 256 * Pow256(n - 1)
  }

  /** The n bytes of v, least significant first: what a store through a cast pointer leaves in the buffer. */
  function LeBytes(v: nat, n: nat): (s: seq<byte>)
    requires v < Pow256(n)
    ensures |s| == n
  {
    if n == 0 then [] else [ToByte(v % 256)] + LeBytes(v / 256, n - 1)
  }

  function LeValue(s: seq<byte>): nat {
    if s == [] then 0 else ToNat(s[0]) + 256 * LeValue(s[1..])
  }

  /** Split by eighths: the solver decides each quickly. */
  lemma BitVectorRoundTrip(n: nat)
    requires n < 256
    ensures (n as bv8) as int == n
  {
    if n < 32 {
    } else if n < 64 {
    } else if n < 96 {
    } else if n < 128 {
    } else if n < 160 {
    } else if n < 192 {
    } else if n < 224 {
    } else {
    }
  }

  lemma ByteRoundTrip(n: nat)
    requires n < 256
    ensures ToNat(ToByte(n)) == n
  {
    BitVectorRoundTrip(n);
  }

  /** An integer stored and loaded again is the same integer. */
  lemma {:induction false} LeValueOfLeBytes(v: nat, n: nat)
    requires v < Pow256(n)
    ensures LeValue(LeBytes(v, n)) == v
  {
    if n == 0 {
    } else {
      LeValueOfLeBytes(v / 256, n - 1);
      var s, low := LeBytes(v, n), v % 256;
      ByteRoundTrip(low);
      assert s[1..] == LeBytes(v / 256, n - 1);
      assert ToNat(s[0]) == low;
      assert LeValue(s) == low + 256 * (v / 256);
    }
  }

  /** Bytes loaded and stored again are the same bytes. */
  lemma {:induction false} LeBytesOfLeValue(s: seq<byte>)
    ensures LeValue(s) < Pow256(|s|)
    ensures LeBytes(LeValue(s), |s|) == s
  {
    if s == [] {
    } else {
      LeBytesOfLeValue(s[1..]);
      assert LeValue(s) / 256 == LeValue(s[1..]) && LeValue(s) % 256 == ToNat(s[0]);
      assert s == [s[0]] + s[1..];
    }
  }

  /** Four bytes as a number: the first is the least significant. */
  lemma FourBytesAre(s: seq<byte>)
    requires |s| == 4
    ensures LeValue(s) == ToNat(s[0]) + 0x100 * ToNat(s[1]) + 0x1_0000 * ToNat(s[2]) + 0x100_0000 * ToNat(s[3])
  {
    assert s[1..][1..] == s[2..] && s[2..][1..] == s[3..] && s[3..][1..] == [];
    assert LeValue(s[3..]) == ToNat(s[3]);
    assert LeValue(s[2..]) == ToNat(s[2]) + 0x100 * LeValue(s[3..]);
    assert LeValue(s[1..]) == ToNat(s[1]) + 0x100 * LeValue(s[2..]);
  }

  /** `*(unsigned short*)&p[0]` */
  function Word(p: seq<byte>): (w: nat)
    requires |p| >= 2
    ensures w < 0x10000
  {
    ToNat(p[0]) + 256 * ToNat(p[1])
  }

  lemma WordIsLeValue(p: seq<byte>)
    requires |p| >= 2
    ensures Word(p) == LeValue(p[..2])
  {
    assert p[..2][1..][1..] == [];
    assert LeValue(p[..2][1..]) == ToNat(p[1]);
  }
}
