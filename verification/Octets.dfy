/** Octets and little-endian numbers. */
module Octets {
  type Octet = x: nat | x < 256

  function ToBytes(s: seq<Octet>): (r: seq<bv8>)
    ensures |r| == |s|
  {
    seq(|s|, i requires 0 <= i < |s| => s[i] as bv8)
  }

  function Pow256(n: nat): (r: nat)
    ensures r >= 1
  {
    if n == 0 then 1 else 256 * Pow256(n - 1)
  }

  /** The `n` low octets of a number, least significant first. */
  function Le(v: nat, n: nat): (s: seq<Octet>)
    ensures |s| == n
    decreases n
  {
    if n == 0 then [] else [v % 256] + Le(v / 256, n - 1)
  }

  function FromLe(s: seq<Octet>): (v: nat)
    ensures v < Pow256(|s|)
  {
    if s == [] then 0 else s[0] + 256 * FromLe(s[1..])
  }

  lemma {:induction false} FromLeOfLe(v: nat, n: nat)
    requires v < Pow256(n)
    ensures FromLe(Le(v, n)) == v
    decreases n
  {
    if n > 0 {
      FromLeOfLe(v / 256, n - 1);
      assert Le(v, n)[1..] == Le(v / 256, n - 1);
    }
  }

  lemma {:induction false} LeOfFromLe(s: seq<Octet>)
    ensures Le(FromLe(s), |s|) == s
  {
    if s != [] {
      LeOfFromLe(s[1..]);
      assert s == [s[0]] + s[1..];
    }
  }

  lemma Widths()
    ensures Pow256(1) == 0x100 && Pow256(2) == 0x1_0000
    ensures Pow256(4) == 0x1_0000_0000 && Pow256(8) == 0x1_0000_0000_0000_0000
  {
    assert Pow256(3) == 0x100_0000 && Pow256(5) == 0x100_0000_0000;
    assert Pow256(6) == 0x1_0000_0000_0000 && Pow256(7) == 0x100_0000_0000_0000;
  }

  const U16_MAX: nat := 0xFFFF
  const U32_MAX: nat := 0xFFFF_FFFF
  const U64_MAX: nat := 0xFFFF_FFFF_FFFF_FFFF

  /** A part of a longer string, at its place. */
  predicate At(s: seq<Octet>, p: nat, part: seq<Octet>) {
    p + |part| <= |s| && s[p..p + |part|] == part
  }

  lemma AtSplit(s: seq<Octet>, p: nat, a: seq<Octet>, b: seq<Octet>)
    requires At(s, p, a + b)
    ensures At(s, p, a) && At(s, p + |a|, b)
  {
    assert s[p..p + |a + b|][..|a|] == s[p..p + |a|];
    assert s[p..p + |a + b|][|a|..] == s[p + |a|..p + |a| + |b|];
  }

  /** A little-endian field reads back. */
  lemma FieldAt(s: seq<Octet>, p: nat, v: nat, n: nat)
    requires v < Pow256(n) && At(s, p, Le(v, n))
    ensures p + n <= |s| && FromLe(s[p..p + n]) == v
  {
    FromLeOfLe(v, n);
  }
}
