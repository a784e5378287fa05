/** Which checksum `Crc32` is: the generator polynomial, the register as arithmetic modulo it, and the check value. */
module CrcPolynomial {
  import opened Crc

  /** The powers of x below 32 in the generator polynomial of CRC-32; x to the 32 is left out. */
  const GENERATOR: set<nat> := {0, 1, 2, 4, 5, 7, 8, 10, 11, 12, 16, 22, 23, 26}

  /** The bit at position `k`, from the lowest. */
  predicate BitOf(r: Word, k: nat) {
    if k == 0 then Odd(r) else BitOf(Half(r), k - 1)
  }

  /** The coefficient of x to the `i` of the polynomial that a register holds: the highest bit is the constant. */
  predicate Coefficient(r: Word, i: nat)
    requires i < 32
  {
    BitOf(r, 31 - i)
  }

  lemma RawNextBit(v: Word, m: Word)
    requires m <= 0x40
    ensures ((v >> 1) & m != 0) == (v & (m << 1) != 0)
  {
  }

  lemma NextBit(v: Word, m: Word, twice: Word)
    requires m <= 0x40 && twice == m << 1
    ensures Half(v) & m != 0 <==> v & twice != 0
  {
    RawNextBit(v, m);
  }

  function SingleBit(k: nat): (m: Word)
    requires k < 8
    ensures k == 0 ==> m == 1
    ensures 0 < k ==> m == SingleBit(k - 1) << 1 && SingleBit(k - 1) <= 0x40
  {
    [1, 2, 4, 8, 16, 32, 64, 128][k]
  }

  /** The bits of the lowest octet. */
  lemma {:induction false} LowBit(v: Word, k: nat)
    requires k < 8
    ensures BitOf(v, k) <==> v & SingleBit(k) != 0
    decreases k
  {
    hide SingleBit, Half;
    if k > 0 {
      LowBit(Half(v), k - 1);
      NextBit(v, SingleBit(k - 1), SingleBit(k));
    }
  }

  lemma {:induction false} BitBehind(v: Word, n: nat, k: nat)
    ensures BitOf(v, n + k) <==> BitOf(HalfBy(v, n), k)
    decreases n
  {
    hide Half, Odd;
    if n > 0 {
      BitBehind(Half(v), n - 1, k);
    }
  }

  function HalfBy(v: Word, n: nat): Word {
    if n == 0 then v else HalfBy(Half(v), n - 1)
  }

  lemma OctetsOfPoly()
    ensures HalfBy(POLY, 8) == 0xed_b883 && HalfBy(0xed_b883, 8) == 0xedb8 && HalfBy(0xedb8, 8) == 0xed
  {
  }

  /** The bits of the register step's constant are the coefficients of the generator. */
  lemma PolyIsGenerator(i: nat)
    requires i < 32
    ensures Coefficient(POLY, i) <==> i in GENERATOR
  {
    hide BitOf, HalfBy;
    OctetsOfPoly();
    if i >= 24 {
      LowBit(POLY, 31 - i);
    } else if i >= 16 {
      BitBehind(POLY, 8, 23 - i);
      LowBit(0xed_b883, 23 - i);
    } else {
      BitBehind(POLY, 8, 23 - i);
      BitBehind(0xed_b883, 8, 15 - i);
      if i >= 8 {
        LowBit(0xedb8, 15 - i);
      } else {
        BitBehind(0xedb8, 8, 7 - i);
        LowBit(0xed, 7 - i);
      }
    }
  }

  lemma {:induction false} BitOfSum(a: Word, b: Word, k: nat)
    ensures BitOf(Xor(a, b), k) <==> BitOf(a, k) != BitOf(b, k)
    decreases k
  {
    hide Xor, Half, Odd;
    XorHalf(a, b);
    XorOdd(a, b);
    if k > 0 {
      BitOfSum(Half(a), Half(b), k - 1);
    }
  }

  /** Nothing is above the mask. */
  lemma {:induction false} NoBitAbove(v: Word, k: nat)
    requires k <= 32 && Under(v, Mask(32 - k))
    ensures !BitOf(v, k)
    decreases k
  {
    hide Under, Half, Mask;
    if k == 0 {
      MaskEnds();
      UnderEnds(v);
      ZeroIsEven();
    } else {
      UnderHalf(v, Mask(32 - k));
      MaskNext(32 - k);
      NoBitAbove(Half(v), k - 1);
    }
  }

  lemma ZeroIsEven()
    ensures !Odd(0)
  {
  }

  /** Halving a word multiplies the polynomial by x, without its highest power. */
  lemma CoefficientOfHalf(a: Word, i: nat)
    requires i < 32
    ensures Coefficient(Half(a), i) <==> i > 0 && Coefficient(a, i - 1)
  {
    hide Half, Odd, Under, Mask;
    if i == 0 {
      UnderEnds(a);
      FullMask();
      NoBitAbove(a, 32);
    }
  }

  lemma FullMask()
    ensures Mask(0) == ONES
  {
  }

  /** The highest power stands in the lowest bit. */
  lemma LowestIsHighestPower(r: Word)
    ensures Coefficient(r, 31) <==> Odd(r)
  {
  }

  /** One register step multiplies by x modulo the generator: every coefficient moves up by one power, and where x to
      the 32 comes out, the generator is subtracted. */
  lemma ShiftIsTimesX(r: Word, i: nat)
    requires i < 32
    ensures Coefficient(Shift(r), i) <==> (i > 0 && Coefficient(r, i - 1)) != (Coefficient(r, 31) && i in GENERATOR)
  {
    hide BitOf, Half, Odd, Xor;
    assert Coefficient(r, 31) <==> Odd(r) by {
      LowestIsHighestPower(r);
    }
    CoefficientOfHalf(r, i);
    BitOfSum(Half(r), POLY, 31 - i);
    PolyIsGenerator(i);
  }

  lemma EightSteps(r: Word)
    ensures ShiftBy(r, 8) == Shift(Shift(Shift(Shift(Shift(Shift(Shift(Shift(r))))))))
  {
    hide Shift;
    assert ShiftBy(r, 8) == ShiftBy(Shift(Shift(Shift(Shift(r)))), 4) by {
      FourSteps(r, 4);
    }
    FourSteps(Shift(Shift(Shift(Shift(r)))), 0);
    ShiftByZero(Shift(Shift(Shift(Shift(Shift(Shift(Shift(Shift(r)))))))));
  }

  lemma FourSteps(r: Word, n: nat)
    ensures ShiftBy(r, n + 4) == ShiftBy(Shift(Shift(Shift(Shift(r)))), n)
  {
    hide Shift;
    assert ShiftBy(r, n + 4) == ShiftBy(Shift(r), n + 3) == ShiftBy(Shift(Shift(r)), n + 2);
  }

  const DIGITS: seq<Byte> := [0x31, 0x32, 0x33, 0x34, 0x35, 0x36, 0x37, 0x38, 0x39]

  /** The register over one more digit. */
  lemma DigitStep(r: Word, k: nat, next: Word)
    requires k < |DIGITS|
    requires next == Shift(Shift(Shift(Shift(Shift(Shift(Shift(Shift(Xor(r, Widen(DIGITS[k]))))))))))
    ensures Register(r, DIGITS[k..]) == Register(next, DIGITS[k + 1..])
  {
    hide Shift, Xor, Widen, ShiftBy;
    EightSteps(Xor(r, Widen(DIGITS[k])));
    assert DIGITS[k..][1..] == DIGITS[k + 1..];
  }

  lemma NothingLeft(r: Word, none: seq<Byte>)
    requires none == []
    ensures Register(r, none) == r
  {
  }

  lemma OneToThree()
    ensures Register(0xffff_ffff, DIGITS[0..]) == Register(0x77b7_9c2d, DIGITS[3..])
  {
    hide Register;
    DigitStep(0xffff_ffff, 0, 0x7c23_1048);
    DigitStep(0x7c23_1048, 1, 0xb0ac_bb32);
    DigitStep(0xb0ac_bb32, 2, 0x77b7_9c2d);
  }

  lemma FourToSix()
    ensures Register(0x77b7_9c2d, DIGITS[3..]) == Register(0xf68d_2c9e, DIGITS[6..])
  {
    hide Register;
    DigitStep(0x77b7_9c2d, 3, 0x641c_1f5c);
    DigitStep(0x641c_1f5c, 4, 0x340a_c5e3);
    DigitStep(0x340a_c5e3, 5, 0xf68d_2c9e);
  }

  lemma SevenToNine()
    ensures Register(0xf68d_2c9e, DIGITS[6..]) == Register(0x340b_c6d9, DIGITS[9..])
  {
    hide Register;
    DigitStep(0xf68d_2c9e, 6, 0xaffc_9660);
    DigitStep(0xaffc_9660, 7, 0x651f_2550);
    DigitStep(0x651f_2550, 8, 0x340b_c6d9);
  }

  /** The check value of CRC-32: the checksum of the digits from 1 to 9 in ASCII. */
  lemma CheckValue()
    ensures Crc32(DIGITS) == 0xcbf4_3926
  {
    hide Register;
    assert DIGITS[0..] == DIGITS;
    OneToThree();
    FourToSix();
    SevenToNine();
    NothingLeft(0x340b_c6d9, DIGITS[9..]);
  }

  // ---- What the checksum notices -----------------------------------------------------------------

  lemma OnlyZeroVanishes(x: Word)
    ensures Shift(x) == 0 ==> x == 0
  {
  }

  lemma {:induction false} OnlyZeroVanishesBy(x: Word, n: nat)
    ensures ShiftBy(x, n) == 0 ==> x == 0
    decreases n
  {
    hide Shift;
    if n > 0 {
      OnlyZeroVanishes(x);
      OnlyZeroVanishesBy(Shift(x), n - 1);
    }
  }

  lemma XorZeroIff(a: Word, b: Word)
    ensures Xor(a, b) == 0 <==> a == b
  {
  }

  /** Different registers stay different. */
  lemma ShiftByApart(a: Word, b: Word, n: nat)
    ensures ShiftBy(a, n) == ShiftBy(b, n) ==> a == b
  {
    hide ShiftBy, Xor;
    XorShiftBy(a, b, n);
    XorZeroIff(ShiftBy(a, n), ShiftBy(b, n));
    XorZeroIff(a, b);
    OnlyZeroVanishesBy(Xor(a, b), n);
  }

  lemma RegistersApart(a: Word, b: Word, data: seq<Byte>)
    ensures Register(a, data) == Register(b, data) ==> a == b
  {
    hide ShiftBy, Xor, Register;
    var x := Xor(b, a);
    assert Xor(a, x) == b by {
      XorCommutes(b, a);
      XorAssociates(a, a, b);
      XorZero(a);
      XorZero(b);
    }
    RegisterXor(a, x, data);
    XorCancel(Register(a, data), ShiftBy(x, 8 * |data|));
    if Register(a, data) == Register(b, data) {
      var r, z := Register(a, data), ShiftBy(x, 8 * |data|);
      assert z == 0 by {
        XorAssociates(r, r, z);
        XorZero(r);
        XorZero(z);
      }
      OnlyZeroVanishesBy(x, 8 * |data|);
      XorZeroIff(b, a);
    }
  }

  /** The differences of two octet strings, put together to a word, the first one lowest. */
  function Difference(d: seq<Byte>, d': seq<Byte>): Word
    requires |d| == |d'|
  {
    if d == [] then 0 else Xor(Xor(Widen(d[0]), Widen(d'[0])), Difference(d[1..], d'[1..]) << 8)
  }

  lemma RawDifference(x: Byte, y: Byte, m: Word)
    ensures m == 0 ==> ((x as Word) ^ (y as Word)) ^ (m << 8) <= 0xff
    ensures m <= 0xff ==> ((x as Word) ^ (y as Word)) ^ (m << 8) <= 0xffff
    ensures m <= 0xffff ==> ((x as Word) ^ (y as Word)) ^ (m << 8) <= 0xff_ffff
    ensures m <= 0xff_ffff && ((x as Word) ^ (y as Word)) ^ (m << 8) == 0 ==> x == y && m == 0
  {
  }

  lemma DifferenceStep(d: seq<Byte>, d': seq<Byte>)
    requires |d| == |d'| > 0
    ensures Difference(d, d') ==
            ((d[0] as Word) ^ (d'[0] as Word)) ^ (Difference(d[1..], d'[1..]) << 8)
  {
  }

  lemma {:induction false} DifferenceSmall(d: seq<Byte>, d': seq<Byte>)
    requires |d| == |d'| <= 3
    ensures Difference(d, d') <= [0, 0xff, 0xffff, 0xff_ffff][|d|]
  {
    if d != [] {
      DifferenceSmall(d[1..], d'[1..]);
      DifferenceStep(d, d');
      RawDifference(d[0], d'[0], Difference(d[1..], d'[1..]));
    }
  }

  lemma {:induction false} DifferenceZero(d: seq<Byte>, d': seq<Byte>)
    requires |d| == |d'| <= 4 && Difference(d, d') == 0
    ensures d == d'
  {
    if d != [] {
      DifferenceSmall(d[1..], d'[1..]);
      DifferenceStep(d, d');
      RawDifference(d[0], d'[0], Difference(d[1..], d'[1..]));
      DifferenceZero(d[1..], d'[1..]);
      assert d == [d[0]] + d[1..] && d' == [d'[0]] + d'[1..];
    }
  }

  /** Eight steps take a word back that was moved up by eight places. */
  lemma StepsBack(e: Word)
    requires e <= 0xff_ffff
    ensures ShiftBy(e << 8, 8) == e
  {
    hide ShiftBy;
    EightSteps(e << 8);
  }

  /** Registers that meet behind up to four octets differed by the octets' differences. */
  lemma {:induction false} MeetingRegisters(a: Word, b: Word, d: seq<Byte>, d': seq<Byte>)
    requires |d| == |d'| <= 4 && Register(a, d) == Register(b, d')
    ensures Xor(a, b) == Difference(d, d')
    decreases |d|
  {
    hide ShiftBy, Xor, Widen;
    if d == [] {
      XorZeroIff(a, b);
    } else {
      var x, y, e := Xor(a, Widen(d[0])), Xor(b, Widen(d'[0])), Difference(d[1..], d'[1..]);
      MeetingRegisters(ShiftBy(x, 8), ShiftBy(y, 8), d[1..], d'[1..]);
      XorShiftBy(x, y, 8);
      DifferenceSmall(d[1..], d'[1..]);
      StepsBack(e);
      ShiftByApart(Xor(x, y), e << 8, 8);
      XorExchange(a, Widen(d[0]), b, Widen(d'[0]));
      MoveOver(Xor(a, b), Xor(Widen(d[0]), Widen(d'[0])), e << 8);
    }
  }

  lemma MoveOver(a: Word, b: Word, c: Word)
    requires Xor(a, b) == c
    ensures a == Xor(b, c)
  {
    hide Xor;
    XorCancel(a, b);
    XorCommutes(b, c);
  }

  /** Two strings of the same length differ within a stretch of at most four octets. */
  predicate DifferWithin(data: seq<Byte>, other: seq<Byte>, p: nat, n: nat) {
    && n <= 4 && |data| == |other| && p + n <= |data| && data != other
    && data[..p] == other[..p] && data[p + n..] == other[p + n..]
  }

  /** Every change within four neighbouring octets changes the checksum. */
  lemma ChangeIsNoticed(data: seq<Byte>, other: seq<Byte>, p: nat, n: nat)
    requires DifferWithin(data, other, p, n)
    ensures Crc32(data) != Crc32(other)
  {
    hide Register, Xor, Difference;
    var r, tail := Register(ONES, data[..p]), data[p + n..];
    var d, d' := data[p..p + n], other[p..p + n];
    assert data == data[..p] + (d + tail) && other == data[..p] + (d' + tail);
    RegisterAppend(ONES, data[..p], d + tail);
    RegisterAppend(ONES, data[..p], d' + tail);
    RegisterAppend(r, d, tail);
    RegisterAppend(r, d', tail);
    XorCancel(Register(ONES, data), ONES);
    XorCancel(Register(ONES, other), ONES);
    if Crc32(data) == Crc32(other) {
      RegistersApart(Register(r, d), Register(r, d'), tail);
      MeetingRegisters(r, r, d, d');
      XorZero(r);
      DifferenceZero(d, d');
      assert false;
    }
  }
}
