/** Bytes and the bit order of DEFLATE: bit 0 of a byte is its least significant bit. */
module Bits {
  type Byte = bv8
  type Bits = seq<bool>

  predicate Bit(b: Byte, i: nat)
    requires i < 8
  {
    (b >> i) & 1 == 1
  }

  // The byte operations of the source. Proofs hide them and use the lemmas that say what each does to a bit.
  function Shl(b: Byte, k: nat): Byte
    requires k <= 8
  {
    b << k
  }

  function Shr(b: Byte, k: nat): Byte
    requires k <= 8
  {
    b >> k
  }

  function Or(a: Byte, b: Byte): Byte {
    a | b
  }

  function And(a: Byte, b: Byte): Byte {
    a & b
  }

  function Not(a: Byte): Byte {
    !a
  }

  function OneHot(k: nat): Byte
    requires k < 8
  {
    1 << k
  }

  function LowMask(t: nat): Byte
    requires t < 8
  {
    (1 << t) - 1
  }

  function BitAt(bytes: seq<Byte>, i: nat): bool
    requires i < 8 * |bytes|
  {
    Bit(bytes[i / 8], i % 8)
  }

  /** The bit string held in a byte string. */
  function BitsOf(bytes: seq<Byte>): (s: Bits)
    ensures |s| == 8 * |bytes|
  {
    seq(8 * |bytes|, i requires 0 <= i < 8 * |bytes| => BitAt(bytes, i))
  }

  function BitsOfByte(b: Byte): (s: Bits)
    ensures |s| == 8
  {
    seq(8, i requires 0 <= i < 8 => Bit(b, i))
  }

  function Zeros(n: nat): (s: Bits)
    ensures |s| == n && forall i :: 0 <= i < n ==> !s[i]
  {
    seq(n, i => false)
  }

  /** The number of zero bits that bring `n` to a byte boundary. */
  function PadTo8(n: nat): (p: nat)
    ensures p < 8 && (n + p) % 8 == 0
  {
    (8 - n % 8) % 8
  }

  /** The number of bytes that hold `n` bits. */
  function ByteCount(n: nat): (k: nat)
    ensures 8 * k == n + PadTo8(n)
  {
    (n + 7) / 8
  }

  lemma BitsOfAppend(a: seq<Byte>, b: seq<Byte>)
    ensures BitsOf(a + b) == BitsOf(a) + BitsOf(b)
  {
    forall i | 0 <= i < |BitsOf(a + b)|
      ensures BitsOf(a + b)[i] == (BitsOf(a) + BitsOf(b))[i]
    {
      if i >= 8 * |a| {
        assert i / 8 - |a| == (i - 8 * |a|) / 8 && i % 8 == (i - 8 * |a|) % 8;
      }
    }
  }

  lemma BitsOfAt(a: seq<Byte>, i: nat)
    requires i < 8 * |a|
    ensures BitsOf(a)[i] == BitAt(a, i)
  {
  }

  lemma BitsOfSingle(b: Byte)
    ensures BitsOf([b]) == BitsOfByte(b)
  {
  }

  lemma BitsOfSlice(a: seq<Byte>, lo: nat, hi: nat)
    requires lo <= hi <= |a|
    ensures BitsOf(a[lo..hi]) == BitsOf(a)[8 * lo..8 * hi]
  {
    hide Bit;
    forall i: nat | i < 8 * (hi - lo)
      ensures BitAt(a[lo..hi], i) == BitAt(a, 8 * lo + i)
    {
      SkipBytes(lo, i);
      assert a[lo..hi][i / 8] == a[lo + i / 8];
    }
  }

  lemma SkipBytes(lo: nat, i: nat)
    ensures (8 * lo + i) / 8 == lo + i / 8 && (8 * lo + i) % 8 == i % 8
  {
  }

  lemma SliceOfSlice<T>(s: seq<T>, lo: nat, hi: nat, a: nat, b: nat)
    requires lo <= hi <= |s| && a <= b <= hi - lo
    ensures s[lo..hi][a..b] == s[lo + a..lo + b]
  {
    forall i | 0 <= i < b - a
      ensures s[lo..hi][a..b][i] == s[lo + a..lo + b][i]
    {
      assert s[lo..hi][a + i] == s[lo + (a + i)];
    }
  }

  lemma ShiftLeftBit(b: Byte, k: nat, i: nat)
    requires k <= 8 && i < 8
    ensures Bit(Shl(b, k), i) == (i >= k && Bit(b, i - k))
  {
    if k == 0 {} else if k == 1 {} else if k == 2 {} else if k == 3 {} else if k == 4 {}
    else if k == 5 {} else if k == 6 {} else if k == 7 {} else {}
    if i == 0 {} else if i == 1 {} else if i == 2 {} else if i == 3 {} else if i == 4 {}
    else if i == 5 {} else if i == 6 {} else {}
  }

  lemma ShiftRightBit(b: Byte, k: nat, i: nat)
    requires k <= 8 && i < 8
    ensures Bit(Shr(b, k), i) == (i + k < 8 && Bit(b, i + k))
  {
    if k == 0 {} else if k == 1 {} else if k == 2 {} else if k == 3 {} else if k == 4 {}
    else if k == 5 {} else if k == 6 {} else if k == 7 {} else {}
    if i == 0 {} else if i == 1 {} else if i == 2 {} else if i == 3 {} else if i == 4 {}
    else if i == 5 {} else if i == 6 {} else {}
  }

  lemma OrLow(a: Byte, b: Byte)
    ensures Bit(Or(a, b), 0) == (Bit(a, 0) || Bit(b, 0)) && Bit(Or(a, b), 1) == (Bit(a, 1) || Bit(b, 1))
    ensures Bit(Or(a, b), 2) == (Bit(a, 2) || Bit(b, 2)) && Bit(Or(a, b), 3) == (Bit(a, 3) || Bit(b, 3))
  {
  }

  lemma OrHigh(a: Byte, b: Byte)
    ensures Bit(Or(a, b), 4) == (Bit(a, 4) || Bit(b, 4)) && Bit(Or(a, b), 5) == (Bit(a, 5) || Bit(b, 5))
    ensures Bit(Or(a, b), 6) == (Bit(a, 6) || Bit(b, 6)) && Bit(Or(a, b), 7) == (Bit(a, 7) || Bit(b, 7))
  {
  }

  lemma OrBit(a: Byte, b: Byte, i: nat)
    requires i < 8
    ensures Bit(Or(a, b), i) == (Bit(a, i) || Bit(b, i))
  {
    hide Bit, Or;
    OrLow(a, b);
    OrHigh(a, b);
    if i == 0 {} else if i == 1 {} else if i == 2 {} else if i == 3 {} else if i == 4 {}
    else if i == 5 {} else if i == 6 {} else {}
  }

  lemma AndLow(a: Byte, b: Byte)
    ensures Bit(And(a, b), 0) == (Bit(a, 0) && Bit(b, 0)) && Bit(And(a, b), 1) == (Bit(a, 1) && Bit(b, 1))
    ensures Bit(And(a, b), 2) == (Bit(a, 2) && Bit(b, 2)) && Bit(And(a, b), 3) == (Bit(a, 3) && Bit(b, 3))
  {
  }

  lemma AndHigh(a: Byte, b: Byte)
    ensures Bit(And(a, b), 4) == (Bit(a, 4) && Bit(b, 4)) && Bit(And(a, b), 5) == (Bit(a, 5) && Bit(b, 5))
    ensures Bit(And(a, b), 6) == (Bit(a, 6) && Bit(b, 6)) && Bit(And(a, b), 7) == (Bit(a, 7) && Bit(b, 7))
  {
  }

  lemma AndBit(a: Byte, b: Byte, i: nat)
    requires i < 8
    ensures Bit(And(a, b), i) == (Bit(a, i) && Bit(b, i))
  {
    hide Bit, And;
    AndLow(a, b);
    AndHigh(a, b);
    if i == 0 {} else if i == 1 {} else if i == 2 {} else if i == 3 {} else if i == 4 {}
    else if i == 5 {} else if i == 6 {} else {}
  }

  lemma NotBit(a: Byte, i: nat)
    requires i < 8
    ensures Bit(Not(a), i) == !Bit(a, i)
  {
    if i == 0 {} else if i == 1 {} else if i == 2 {} else if i == 3 {} else if i == 4 {}
    else if i == 5 {} else if i == 6 {} else {}
  }

  lemma OneHotBit(k: nat, i: nat)
    requires k < 8 && i < 8
    ensures Bit(OneHot(k), i) == (i == k)
  {
    if k == 0 {} else if k == 1 {} else if k == 2 {} else if k == 3 {} else if k == 4 {}
    else if k == 5 {} else if k == 6 {} else {}
    if i == 0 {} else if i == 1 {} else if i == 2 {} else if i == 3 {} else if i == 4 {}
    else if i == 5 {} else if i == 6 {} else {}
  }

  lemma LowMaskBit(t: nat, i: nat)
    requires t < 8 && i < 8
    ensures Bit(LowMask(t), i) == (i < t)
  {
    if t == 0 {} else if t == 1 {} else if t == 2 {} else if t == 3 {} else if t == 4 {}
    else if t == 5 {} else if t == 6 {} else {}
    if i == 0 {} else if i == 1 {} else if i == 2 {} else if i == 3 {} else if i == 4 {}
    else if i == 5 {} else if i == 6 {} else {}
  }

  lemma ZeroByteBit(i: nat)
    requires i < 8
    ensures !Bit(0, i)
  {
  }

  lemma ShiftOne(k: nat, i: nat)
    requires k < 8 && i < 8
    ensures Bit(Shl(1, k), i) == (i == k)
  {
    OneHotBit(k, i);
  }

  function Ones(n: nat): (s: Bits)
    ensures |s| == n && forall i :: 0 <= i < n ==> s[i]
  {
    seq(n, i => true)
  }

  lemma ConstantByteBits()
    ensures BitsOfByte(0) == Zeros(8) && BitsOfByte(0xff) == Ones(8)
  {
  }

  // ---- Changing single bits of a byte string ----------------------------------------------------

  function SetBitAt(a: seq<Byte>, k: nat): (r: seq<Byte>)
    requires k < 8 * |a|
    ensures |r| == |a|
  {
    a[k / 8 := Or(a[k / 8], OneHot(k % 8))]
  }

  function ClearBitAt(a: seq<Byte>, k: nat): (r: seq<Byte>)
    requires k < 8 * |a|
    ensures |r| == |a|
  {
    a[k / 8 := And(a[k / 8], Not(OneHot(k % 8)))]
  }

  lemma SameByteSameBit(k: nat, i: nat)
    requires k / 8 == i / 8
    ensures k % 8 == i % 8 <==> k == i
  {
  }

  lemma SetBit(a: seq<Byte>, k: nat)
    requires k < 8 * |a|
    ensures BitsOf(SetBitAt(a, k)) == BitsOf(a)[k := true]
  {
    hide Bit, Or, OneHot;
    forall i: nat | i < 8 * |a|
      ensures BitAt(SetBitAt(a, k), i) == (i == k || BitAt(a, i))
    {
      if i / 8 == k / 8 {
        OrBit(a[k / 8], OneHot(k % 8), i % 8);
        OneHotBit(k % 8, i % 8);
        SameByteSameBit(k, i);
      }
    }
  }

  lemma ClearBit(a: seq<Byte>, k: nat)
    requires k < 8 * |a|
    ensures BitsOf(ClearBitAt(a, k)) == BitsOf(a)[k := false]
  {
    hide Bit, And, Not, OneHot;
    forall i: nat | i < 8 * |a|
      ensures BitAt(ClearBitAt(a, k), i) == (i != k && BitAt(a, i))
    {
      if i / 8 == k / 8 {
        AndBit(a[k / 8], Not(OneHot(k % 8)), i % 8);
        NotBit(OneHot(k % 8), i % 8);
        OneHotBit(k % 8, i % 8);
        SameByteSameBit(k, i);
      }
    }
  }

  /** Keeping the low `t` bits of the last byte. */
  function MaskLast(a: seq<Byte>, t: nat): (r: seq<Byte>)
    requires a != [] && t < 8
    ensures |r| == |a|
  {
    a[|a| - 1 := And(a[|a| - 1], LowMask(t))]
  }

  lemma MaskLastBits(a: seq<Byte>, t: nat)
    requires a != [] && 0 < t < 8
    ensures BitsOf(MaskLast(a, t)) == BitsOf(a)[..8 * (|a| - 1) + t] + Zeros(8 - t)
  {
    hide Bit, And, LowMask;
    var m := |a| - 1;
    forall i: nat | i < 8 * |a|
      ensures BitAt(MaskLast(a, t), i) == (i < 8 * m + t && BitAt(a, i))
    {
      if i / 8 == m {
        AndBit(a[m], LowMask(t), i % 8);
        LowMaskBit(t, i % 8);
      }
    }
  }
}
