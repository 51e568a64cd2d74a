/** Bytes and fixed-width integers, big-endian and little-endian. Writing a number that is too
    wide keeps its low bytes, as Go's conversions do. */
module Bytes {

  type Byte = x: nat | x < 256

  type Bytes = seq<Byte>

  const LIMIT32 := 0x1_0000_0000

  const COLON: Byte := 58

  predicate NoColon(s: Bytes) {
    forall i :: 0 <= i < |s| ==> s[i] != COLON
  }

  function Pow256(n: nat): (p: nat)
    ensures p > 0
  {
    if n == 0 then 1 else 256 * Pow256(n - 1)
  }

  function BigEndian(v: nat, n: nat): (s: Bytes)
    ensures |s| == n
  {
    if n == 0 then [] else BigEndian(v / 256, n - 1) + [v % 256]
  }

  function FromBigEndian(s: Bytes): (v: nat)
    ensures v < Pow256(|s|)
  {
    if s == [] then 0 else FromBigEndian(s[..|s| - 1]) * 256 + s[|s| - 1]
  }

  function LittleEndian(v: nat, n: nat): (s: Bytes)
    ensures |s| == n
  {
    if n == 0 then [] else [v % 256] + LittleEndian(v / 256, n - 1)
  }

  function FromLittleEndian(s: Bytes): (v: nat)
    ensures v < Pow256(|s|)
  {
    if s == [] then 0 else s[0] + FromLittleEndian(s[1..]) * 256
  }

  lemma Widths()
    ensures Pow256(1) == 0x100 && Pow256(2) == 0x1_0000 && Pow256(4) == 0x1_0000_0000
    ensures Pow256(8) == 0x1_0000_0000_0000_0000
  {
    assert Pow256(1) == 0x100;
    assert Pow256(2) == 0x1_0000;
    assert Pow256(3) == 0x100_0000;
    assert Pow256(4) == 0x1_0000_0000;
    assert Pow256(5) == 0x100_0000_0000;
    assert Pow256(6) == 0x1_0000_0000_0000;
    assert Pow256(7) == 0x100_0000_0000_0000;
  }

  /** Which byte counts how much: the first is the highest in big-endian order. */
  lemma BigEndianWeights(s: Bytes)
    ensures |s| == 2 ==> FromBigEndian(s) == s[0] as int * 0x100 + s[1]
    ensures |s| == 4 ==>
            FromBigEndian(s) == s[0] as int * 0x100_0000 + s[1] as int * 0x1_0000 + s[2] as int * 0x100 + s[3]
  {
    if |s| == 2 {
      assert s[..1][..0] == [];
    } else if |s| == 4 {
      BigEndianWeights(s[..2]);
      assert s[..3][..2] == s[..2];
    }
  }

  /** And the lowest in little-endian order. */
  lemma LittleEndianWeights(s: Bytes)
    ensures |s| == 2 ==> FromLittleEndian(s) == s[0] + s[1] as int * 0x100
    ensures |s| == 4 ==>
            FromLittleEndian(s) == s[0] + s[1] as int * 0x100 + s[2] as int * 0x1_0000 + s[3] as int * 0x100_0000
  {
    if |s| == 2 {
      assert s[1..][1..] == [];
    } else if |s| == 4 {
      LittleEndianWeights(s[2..]);
      assert s[1..][1..] == s[2..];
    }
  }

  lemma {:induction false} BigEndianInjective(s: Bytes, t: Bytes)
    requires |s| == |t| && FromBigEndian(s) == FromBigEndian(t)
    ensures s == t
  {
    if s != [] {
      var n := |s| - 1;
      var a, b := FromBigEndian(s[..n]), FromBigEndian(t[..n]);
      assert a * 256 + s[n] == b * 256 + t[n];
      assert a == b && s[n] == t[n];
      BigEndianInjective(s[..n], t[..n]);
      assert s == s[..n] + [s[n]] && t == t[..n] + [t[n]];
    }
  }

  lemma {:induction false} BigEndianValue(v: nat, n: nat)
    requires v < Pow256(n)
    ensures FromBigEndian(BigEndian(v, n)) == v
  {
    if n > 0 {
      BigEndianValue(v / 256, n - 1);
      assert BigEndian(v, n)[..n - 1] == BigEndian(v / 256, n - 1);
    }
  }

  lemma {:induction false} LittleEndianValue(v: nat, n: nat)
    requires v < Pow256(n)
    ensures FromLittleEndian(LittleEndian(v, n)) == v
  {
    if n > 0 {
      LittleEndianValue(v / 256, n - 1);
      assert LittleEndian(v, n)[1..] == LittleEndian(v / 256, n - 1);
    }
  }

  /** A number written in `n` bytes comes back reduced modulo 256^n. */
  lemma {:induction false} BigEndianTruncates(v: nat, n: nat)
    ensures FromBigEndian(BigEndian(v, n)) == v % Pow256(n)
  {
    if n > 0 {
      BigEndianTruncates(v / 256, n - 1);
      assert BigEndian(v, n)[..n - 1] == BigEndian(v / 256, n - 1);
      ModStep(v, Pow256(n - 1));
    }
  }

  lemma ModStep(v: nat, p: nat)
    requires p > 0
    ensures (v / 256 % p) * 256 + v % 256 == v % (256 * p)
  {
    var q, r := v / 256 / p, (v / 256 % p) * 256 + v % 256;
    assert v == 256 * (v / 256) + v % 256;
    assert v / 256 == p * q + v / 256 % p;
    assert v == (256 * p) * q + r;
    assert 0 <= r < 256 * p;
    DivUnique(v, 256 * p, q, r);
  }

  lemma DivUnique(v: nat, d: nat, q: nat, r: nat)
    requires d > 0 && v == d * q + r && r < d
    ensures v % d == r
  {
    var k := v / d - q;
    assert d * k == d * (v / d) - d * q == r - v % d;
    SmallMultiple(d, k);
  }

  lemma SmallMultiple(d: int, k: int)
    requires -d < d * k < d
    ensures k == 0
  {
    assert k >= 1 ==> d * k >= d;
    assert k <= -1 ==> d * k <= -d;
  }
}
