/** CRC-32 (section 8 of RFC 1952) and the combination of the checksums of two byte strings. */
module Crc {
  type Word = bv32
  type Byte = bv8

  const POLY: Word := 0xedb8_8320
  const ONES: Word := 0xffff_ffff

  // ---- The checksum -----------------------------------------------------------------------------

  // The word operations of the source. Proofs hide them and use the rules below.
  function Xor(a: Word, b: Word): Word {
    a ^ b
  }

  function Half(a: Word): Word {
    a >> 1
  }

  function Double(a: Word): Word {
    a << 1
  }

  function And(a: Word, b: Word): Word {
    a & b
  }

  predicate Odd(a: Word) {
    a & 1 != 0
  }

  function Widen(b: Byte): Word {
    b as Word
  }

  /** One step of the shift register on a zero bit. */
  function Shift(r: Word): Word {
    if Odd(r) then Xor(Half(r), POLY) else Half(r)
  }

  function ShiftBy(r: Word, n: nat): Word
    decreases n
  {
    if n == 0 then r else ShiftBy(Shift(r), n - 1)
  }

  /** The register after the given bytes. */
  function Register(r: Word, data: seq<Byte>): Word
    decreases |data|
  {
    if data == [] then r else Register(ShiftBy(Xor(r, Widen(data[0])), 8), data[1..])
  }

  function Crc32(data: seq<Byte>): Word {
    Xor(Register(ONES, data), ONES)
  }

  // ---- Word algebra -----------------------------------------------------------------------------

  lemma RawAssociates(a: Word, b: Word, c: Word)
    ensures (a ^ b) ^ c == a ^ (b ^ c)
  {
  }

  lemma XorAssociates(a: Word, b: Word, c: Word)
    ensures Xor(Xor(a, b), c) == Xor(a, Xor(b, c))
  {
    RawAssociates(a, b, c);
  }

  lemma XorCommutes(a: Word, b: Word)
    ensures Xor(a, b) == Xor(b, a)
  {
  }

  lemma XorZero(a: Word)
    ensures Xor(a, 0) == a && Xor(0, a) == a && Xor(a, a) == 0
  {
  }

  lemma RawHalf(a: Word, b: Word)
    ensures (a ^ b) >> 1 == (a >> 1) ^ (b >> 1) && (a ^ b) << 1 == (a << 1) ^ (b << 1)
  {
  }

  lemma RawLow(a: Word, b: Word)
    ensures (a ^ b) & 1 == (a & 1) ^ (b & 1)
  {
  }

  lemma XorHalf(a: Word, b: Word)
    ensures Half(Xor(a, b)) == Xor(Half(a), Half(b)) && Double(Xor(a, b)) == Xor(Double(a), Double(b))
  {
    RawHalf(a, b);
  }

  lemma XorOdd(a: Word, b: Word)
    ensures Odd(Xor(a, b)) == (Odd(a) != Odd(b))
  {
    RawLow(a, b);
  }

  /** Four summands in another order. */
  lemma XorExchange(a: Word, b: Word, c: Word, d: Word)
    ensures Xor(Xor(a, b), Xor(c, d)) == Xor(Xor(a, c), Xor(b, d))
  {
    hide Xor;
    XorAssociates(a, b, Xor(c, d));
    XorAssociates(b, c, d);
    XorCommutes(b, c);
    XorAssociates(c, b, d);
    XorAssociates(a, c, Xor(b, d));
  }

  lemma XorCancel(a: Word, b: Word)
    ensures Xor(Xor(a, b), b) == a
  {
    hide Xor;
    XorAssociates(a, b, b);
    XorZero(b);
    XorZero(a);
  }

  // ---- The register is linear over GF(2) --------------------------------------------------------

  lemma XorShift(a: Word, b: Word)
    ensures Shift(Xor(a, b)) == Xor(Shift(a), Shift(b))
  {
    hide Xor, Half, Odd, Double;
    XorHalf(a, b);
    XorOdd(a, b);
    XorExchange(Half(a), POLY, Half(b), POLY);
    XorZero(POLY);
    XorZero(Xor(Half(a), Half(b)));
    XorAssociates(Half(a), Half(b), POLY);
    XorCommutes(Half(b), POLY);
    XorAssociates(Half(a), POLY, Half(b));
  }

  lemma {:induction false} XorShiftBy(a: Word, b: Word, n: nat)
    ensures ShiftBy(Xor(a, b), n) == Xor(ShiftBy(a, n), ShiftBy(b, n))
    decreases n
  {
    hide Shift, Xor;
    if n > 0 {
      XorShift(a, b);
      XorShiftBy(Shift(a), Shift(b), n - 1);
    }
  }

  lemma {:induction false} ShiftByAdd(r: Word, m: nat, n: nat)
    ensures ShiftBy(r, m + n) == ShiftBy(ShiftBy(r, m), n)
    decreases m
  {
    hide Shift;
    if m > 0 {
      ShiftByAdd(Shift(r), m - 1, n);
    }
  }

  lemma ShiftByZero(x: Word)
    ensures ShiftBy(x, 0) == x
  {
  }

  /** A change of the starting register comes out shifted past the data. */
  lemma {:induction false} RegisterXor(r: Word, x: Word, data: seq<Byte>)
    ensures Register(Xor(r, x), data) == Xor(Register(r, data), ShiftBy(x, 8 * |data|))
    decreases |data|
  {
    hide ShiftBy, Xor, Widen;
    if data == [] {
      ShiftByZero(x);
    } else {
      var c := Widen(data[0]);
      XorAssociates(r, x, c);
      XorCommutes(x, c);
      XorAssociates(r, c, x);
      XorShiftBy(Xor(r, c), x, 8);
      RegisterXor(ShiftBy(Xor(r, c), 8), ShiftBy(x, 8), data[1..]);
      ShiftByAdd(x, 8, 8 * |data[1..]|);
    }
  }

  lemma {:induction false} RegisterAppend(r: Word, a: seq<Byte>, b: seq<Byte>)
    ensures Register(r, a + b) == Register(Register(r, a), b)
    decreases |a|
  {
    hide ShiftBy, Xor, Widen;
    if a == [] {
      assert a + b == b;
    } else {
      assert (a + b)[1..] == a[1..] + b;
      RegisterAppend(ShiftBy(Xor(r, Widen(a[0])), 8), a[1..], b);
    }
  }

  /** The algebra behind combining: the checksum of a concatenation is the first checksum shifted past the
      second string, added to the second checksum. */
  lemma Crc32Append(a: seq<Byte>, b: seq<Byte>)
    ensures Crc32(a + b) == Xor(ShiftBy(Crc32(a), 8 * |b|), Crc32(b))
  {
    hide ShiftBy, Register, Xor;
    var ra, rb, z := Register(ONES, a), Register(ONES, b), ShiftBy(Crc32(a), 8 * |b|);
    RegisterAppend(ONES, a, b);
    XorCancel(ra, ONES);
    XorCommutes(Crc32(a), ONES);
    RegisterXor(ONES, Crc32(a), b);
    XorCommutes(rb, z);
    XorAssociates(z, rb, ONES);
  }

  // ---- Bit positions ----------------------------------------------------------------------------

  /** All ones, shifted right `idx` times. */
  function Mask(idx: nat): Word
    decreases idx
  {
    if idx == 0 then ONES else Half(Mask(idx - 1))
  }

  /** The word has no bit outside the mask. */
  predicate Under(v: Word, m: Word) {
    And(v, m) == v
  }

  function ShiftLeft(v: Word, idx: nat): Word
    decreases idx
  {
    if idx == 0 then v else ShiftLeft(Double(v), idx - 1)
  }

  /** The bit at position `idx`, as a word. */
  function Unit(idx: nat): Word {
    ShiftLeft(1, idx)
  }

  lemma MaskEnds()
    ensures Mask(31) == 1 && Mask(32) == 0
  {
    assert Mask(8) == 0x00ff_ffff;
    assert Mask(16) == 0x0000_ffff;
    assert Mask(24) == 0x0000_00ff;
  }

  lemma RawAndHalf(v: Word, m: Word)
    ensures (v & m) >> 1 == (v >> 1) & (m >> 1)
  {
  }

  lemma AndHalf(v: Word, m: Word)
    ensures Half(And(v, m)) == And(Half(v), Half(m))
  {
    RawAndHalf(v, m);
  }

  lemma UnderHalf(v: Word, m: Word)
    requires Under(v, m)
    ensures Under(Half(v), Half(m))
  {
    hide And, Half;
    AndHalf(v, m);
  }

  lemma UnderEnds(v: Word)
    ensures Under(v, ONES) && (Under(v, 0) ==> v == 0) && Under(1, 1)
  {
  }

  lemma RawUnderDouble(x: Word, m: Word)
    requires x & (m >> 1) == x
    ensures (x << 1) & m == x << 1 && (x << 1) >> 1 == x && (x << 1) & 1 == 0
  {
  }

  lemma UnderDouble(x: Word, m: Word)
    requires Under(x, Half(m))
    ensures Under(Double(x), m) && Half(Double(x)) == x && !Odd(Double(x))
  {
    RawUnderDouble(x, m);
  }

  lemma RawSplit(v: Word)
    ensures v == (v & 1) ^ ((v >> 1) << 1) && (v & 1 == 0 || v & 1 == 1)
  {
  }

  /** A word is its lowest bit and twice its half. */
  lemma SplitLow(v: Word)
    ensures v == Xor(if Odd(v) then 1 else 0, Double(Half(v)))
  {
    RawSplit(v);
  }

  lemma {:induction false} UnitOutside(idx: nat, v: Word)
    ensures ShiftLeft(Double(v), idx) == Double(ShiftLeft(v, idx))
    decreases idx
  {
    hide Double;
    if idx > 0 {
      UnitOutside(idx - 1, Double(v));
    }
  }

  lemma {:induction false} UnitUnder(k: nat)
    requires k <= 31
    ensures Under(Unit(k), Mask(31 - k))
    decreases k
  {
    hide Double, Half, Under, ShiftLeft;
    if k == 0 {
      UnitZero();
      MaskEnds();
      UnderEnds(1);
    } else {
      UnitUnder(k - 1);
      UnitNext(k - 1);
      UnderDouble(Unit(k - 1), Mask(31 - k));
    }
  }

  lemma UnitZero()
    ensures Unit(0) == 1
  {
  }

  lemma UnitNext(k: nat)
    ensures Unit(k + 1) == Double(Unit(k))
  {
    hide Double;
    UnitOutside(k, 1);
  }

  lemma {:induction false} XorShiftLeft(a: Word, b: Word, idx: nat)
    ensures ShiftLeft(Xor(a, b), idx) == Xor(ShiftLeft(a, idx), ShiftLeft(b, idx))
    decreases idx
  {
    hide Double, Xor;
    if idx > 0 {
      XorHalf(a, b);
      XorShiftLeft(Double(a), Double(b), idx - 1);
    }
  }

  lemma ZeroShifts(idx: nat)
    ensures ShiftLeft(0, idx) == 0 && ShiftBy(0, idx) == 0
  {
    hide Xor, ShiftLeft, ShiftBy;
    XorZero(0);
    XorShiftLeft(0, 0, idx);
    XorShiftBy(0, 0, idx);
    XorZero(ShiftLeft(0, idx));
    XorZero(ShiftBy(0, idx));
  }

  // ---- Matrices over GF(2) ----------------------------------------------------------------------

  /** The sum of the columns from `idx` on that the bits of `v` select. */
  function MatrixTimes(mat: seq<Word>, idx: nat, v: Word): Word
    requires |mat| == 32 && idx <= 32 && Under(v, Mask(idx))
    decreases 32 - idx
  {
    TimesContinues(v, idx);
    if v == 0 then 0
    else Xor(if Odd(v) then mat[idx] else 0, MatrixTimes(mat, idx + 1, Half(v)))
  }

  /** The matrix applied to a word. */
  function Times(mat: seq<Word>, v: Word): Word
    requires |mat| == 32
  {
    UnderEnds(v);
    MatrixTimes(mat, 0, v)
  }

  lemma TimesContinues(v: Word, idx: nat)
    requires idx <= 32 && Under(v, Mask(idx))
    ensures v != 0 ==> idx < 32 && Under(Half(v), Mask(idx + 1))
  {
    hide Under, Half;
    MaskEnds();
    UnderEnds(v);
    UnderHalf(v, Mask(idx));
  }

  /** Column `i` of the matrix is where bit `i` goes after `n` zero bits. */
  predicate Represents(mat: seq<Word>, n: nat) {
    |mat| == 32 && forall i :: 0 <= i < 32 ==> mat[i] == ShiftBy(Unit(i), n)
  }

  /** A matrix that is right on single bits is right on every word. */
  lemma {:induction false} TimesIsShift(mat: seq<Word>, n: nat, idx: nat, v: Word)
    requires Represents(mat, n) && idx <= 32 && Under(v, Mask(idx))
    ensures MatrixTimes(mat, idx, v) == ShiftBy(ShiftLeft(v, idx), n)
    decreases 32 - idx
  {
    hide Under, Half, Odd, Xor, Double, Mask, ShiftBy, Shift;
    ZeroShifts(idx);
    ZeroShifts(n);
    TimesContinues(v, idx);
    if v != 0 {
      var low: Word := if Odd(v) then 1 else 0;
      SplitLow(v);
      XorShiftLeft(low, Double(Half(v)), idx);
      XorShiftBy(ShiftLeft(low, idx), ShiftLeft(Double(Half(v)), idx), n);
      TimesIsShift(mat, n, idx + 1, Half(v));
    }
  }

  method Gf2MatrixTimes(mat: array<Word>, vec0: Word) returns (sum: Word)
    requires mat.Length == 32
    ensures sum == Times(mat[..], vec0)
  {
    hide Under, Half, Odd, Xor;
    UnderEnds(vec0);
    var vec, idx := vec0, 0;
    sum := 0;
    XorZero(MatrixTimes(mat[..], 0, vec0));
    while vec != 0
      invariant idx <= 32 && Under(vec, Mask(idx))
      invariant MatrixTimes(mat[..], 0, vec0) == Xor(sum, MatrixTimes(mat[..], idx, vec))
      decreases 32 - idx
    {
      TimesContinues(vec, idx);
      ghost var rest := MatrixTimes(mat[..], idx + 1, Half(vec));
      if Odd(vec) {
        XorAssociates(sum, mat[idx], rest);
        sum := Xor(sum, mat[idx]);
      } else {
        XorZero(rest);
      }
      vec := Half(vec);
      idx := idx + 1;
    }
    XorZero(sum);
  }

  /** Applying a matrix that stands for `n` zero bits runs the register over them. */
  lemma TimesRuns(mat: seq<Word>, n: nat, v: Word)
    requires Represents(mat, n)
    ensures Times(mat, v) == ShiftBy(v, n)
  {
    hide Under, Represents, MatrixTimes, ShiftBy;
    UnderEnds(v);
    TimesIsShift(mat, n, 0, v);
  }

  method Gf2MatrixSquare(square: array<Word>, mat: array<Word>)
    requires square.Length == 32 && mat.Length == 32 && square != mat
    modifies square
    ensures forall i :: 0 <= i < 32 ==> square[i] == Times(mat[..], mat[i])
  {
    hide Times;
    for index := 0 to 32
      invariant mat[..] == old(mat[..])
      invariant forall i :: 0 <= i < index ==> square[i] == Times(mat[..], mat[i])
    {
      square[index] := Gf2MatrixTimes(mat, mat[index]);
    }
  }

  /** Squaring composes: the square of the matrix for `n` zero bits stands for `2 * n` of them. */
  lemma SquareDoubles(square: seq<Word>, mat: seq<Word>, n: nat)
    requires Represents(mat, n) && |square| == 32
    requires forall i :: 0 <= i < 32 ==> square[i] == Times(mat, mat[i])
    ensures Represents(square, 2 * n)
  {
    hide ShiftBy, Unit, Times;
    forall i | 0 <= i < 32
      ensures square[i] == ShiftBy(Unit(i), 2 * n)
    {
      TimesRuns(mat, n, mat[i]);
      ShiftByAdd(Unit(i), n, n);
    }
  }

  lemma FirstColumns(i: nat)
    requires i < 31
    ensures ShiftBy(Unit(0), 1) == POLY && ShiftBy(Unit(i + 1), 1) == Unit(i)
  {
    hide Unit, Under, Half, Double, Odd, Xor, Mask;
    UnitZero();
    assert Half(1) == 0 && Odd(1) by {
      OneIsOdd();
    }
    XorZero(POLY);
    UnitNext(i);
    UnitUnder(i);
    assert Mask(31 - i) == Half(Mask(30 - i)) by {
      MaskNext(30 - i);
    }
    UnderDouble(Unit(i), Mask(30 - i));
    assert ShiftBy(Unit(0), 1) == Shift(Unit(0)) && ShiftBy(Unit(i + 1), 1) == Shift(Unit(i + 1));
  }

  lemma OneIsOdd()
    ensures Half(1) == 0 && Odd(1)
  {
  }

  lemma MaskNext(k: nat)
    ensures Mask(k + 1) == Half(Mask(k))
  {
  }

  /** The matrix of a single zero bit. */
  method ZeroBitMatrix() returns (odd: array<Word>)
    ensures fresh(odd) && odd.Length == 32 && Represents(odd[..], 1)
  {
    hide ShiftBy, Unit, Double;
    odd := new Word[32](_ => 0);
    odd[0] := POLY;
    FirstColumns(0);
    var row: Word := 1;
    UnitZero();
    for i := 1 to 32
      invariant odd[0] == POLY && row == Unit(i - 1)
      invariant forall k :: 1 <= k < i ==> odd[k] == ShiftBy(Unit(k), 1)
    {
      FirstColumns(i - 1);
      odd[i] := row;
      UnitNext(i - 1);
      row := Double(row);
    }
  }

  /** The loop halves the number of bytes while the matrices double their number of zero bits. */
  lemma HalveStep(acc: Word, e: nat, remaining: nat)
    ensures ShiftBy(acc, e * remaining)
         == ShiftBy(if remaining % 2 != 0 then ShiftBy(acc, e) else acc, 2 * e * (remaining / 2))
  {
    hide ShiftBy;
    var half := remaining / 2;
    if remaining % 2 != 0 {
      assert e * remaining == e + 2 * e * half by {
        assert remaining == 2 * half + 1;
        Distribute(e, 2 * half, 1);
        assert e * (2 * half) == 2 * e * half;
      }
      ShiftByAdd(acc, e, 2 * e * half);
    } else {
      assert remaining == 2 * half && e * (2 * half) == 2 * e * half;
    }
  }

  lemma Distribute(a: nat, b: nat, c: nat)
    ensures a * (b + c) == a * b + a * c
  {
  }

  /** Runs the register over `len` zero bytes by repeated squaring. */
  method AdvanceZeroBytes(crc: Word, len: nat) returns (acc: Word)
    requires len > 0
    ensures acc == ShiftBy(crc, 8 * len)
  {
    hide ShiftBy, Times, Represents;
    var odd := ZeroBitMatrix();
    var even := new Word[32](_ => 0);
    Gf2MatrixSquare(even, odd);
    SquareDoubles(even[..], odd[..], 1);
    Gf2MatrixSquare(odd, even);
    SquareDoubles(odd[..], even[..], 2);
    acc := crc;
    var remaining := len;
    ghost var e := 4;
    while true
      invariant Represents(odd[..], e) && odd.Length == even.Length == 32 && odd != even && fresh(odd) && fresh(even)
      invariant remaining > 0 && ShiftBy(crc, 8 * len) == ShiftBy(acc, 2 * e * remaining)
      decreases remaining
    {
      Gf2MatrixSquare(even, odd);
      SquareDoubles(even[..], odd[..], e);
      HalveStep(acc, 2 * e, remaining);
      if remaining % 2 != 0 {
        TimesRuns(even[..], 2 * e, acc);
        acc := Gf2MatrixTimes(even, acc);
      }
      remaining := remaining / 2;
      assert ShiftBy(crc, 8 * len) == ShiftBy(acc, 4 * e * remaining);
      if remaining == 0 {
        break;
      }
      Gf2MatrixSquare(odd, even);
      SquareDoubles(odd[..], even[..], 2 * e);
      HalveStep(acc, 4 * e, remaining);
      if remaining % 2 != 0 {
        TimesRuns(odd[..], 4 * e, acc);
        acc := Gf2MatrixTimes(odd, acc);
      }
      remaining := remaining / 2;
      e := 4 * e;
      if remaining == 0 {
        break;
      }
    }
    ShiftByZero(acc);
  }

  /** What combining computes from two checksums and the length of the second string. */
  function Combined(crc1: Word, crc2: Word, len2: nat): Word {
    if len2 == 0 then crc1 else Xor(ShiftBy(crc1, 8 * len2), crc2)
  }

  method Crc32Combine(crc1: Word, crc2: Word, len2: nat) returns (crc: Word)
    ensures crc == Combined(crc1, crc2, len2)
  {
    if len2 == 0 {
      return crc1;
    }
    var acc := AdvanceZeroBytes(crc1, len2);
    return Xor(acc, crc2);
  }

  lemma CrcOfNothing()
    ensures Crc32([]) == 0
  {
    hide Xor;
    XorZero(ONES);
  }

  /** Combining the checksums of two byte strings gives the checksum of their concatenation. */
  lemma CombinedIsAppend(a: seq<Byte>, b: seq<Byte>)
    ensures Combined(Crc32(a), Crc32(b), |b|) == Crc32(a + b)
  {
    hide Crc32, Xor, ShiftBy;
    Crc32Append(a, b);
    assert b == [] ==> a + b == a;
  }

  function Concat(parts: seq<seq<Byte>>, k: nat): seq<Byte>
    requires k <= |parts|
  {
    if k == 0 then [] else Concat(parts, k - 1) + parts[k - 1]
  }

  datatype Slot = Slot(crc: Word, len: nat)

  /** The checksum slots of the decoded chunks, folded from left to right. */
  method CombineSlots(slots: seq<Slot>, ghost parts: seq<seq<Byte>>) returns (crc: Word, len: nat)
    requires |slots| == |parts|
    requires forall i :: 0 <= i < |slots| ==> slots[i] == Slot(Crc32(parts[i]), |parts[i]|)
    ensures crc == Crc32(Concat(parts, |parts|)) && len == |Concat(parts, |parts|)|
  {
    hide Crc32, Xor;
    crc, len := 0, 0;
    CrcOfNothing();
    for idx := 0 to |slots|
      invariant crc == Crc32(Concat(parts, idx)) && len == |Concat(parts, idx)|
    {
      var slot := slots[idx];
      ghost var before := Concat(parts, idx);
      if idx == 0 {
        assert Concat(parts, 1) == before + parts[0] == parts[0];
        crc, len := slot.crc, slot.len;
        continue;
      }
      CombinedIsAppend(before, parts[idx]);
      crc := Crc32Combine(crc, slot.crc, slot.len);
      len := len + slot.len;
    }
  }
}
