/** Planning does not always succeed: frequencies that double from symbol to symbol have only one optimal code, and it
    is too long. */
module SkewedPlan {
  import opened Format
  import opened Sums
  import opened MinimalMerge
  import opened CodeLengths
  import opened HuffmanLengths
  import opened Canonical
  import opened DynamicHeader
  import opened DynamicPlan

  /** The symbol `s` occurs `2^s` times, for 17 symbols; nothing else occurs. */
  function Doubling(): (freq: seq<nat>)
    ensures |freq| == LITLEN_SYMBOL_COUNT
  {
    seq(LITLEN_SYMBOL_COUNT, s requires 0 <= s < LITLEN_SYMBOL_COUNT => if s < 17 then Pow2(s) else 0)
  }

  /** The lengths of the optimal code: 17 for the end of the block and the rarest literal, one less for every
      doubling. */
  function Ideal(): (lengths: seq<nat>)
    ensures |lengths| == LITLEN_SYMBOL_COUNT
  {
    seq(LITLEN_SYMBOL_COUNT, s requires 0 <= s < LITLEN_SYMBOL_COUNT =>
      if s < 17 then 17 - s else if s == 256 then 17 else 0)
  }

  /** The symbols in use. */
  function Codes18(): set<nat> {
    Below(17) + {256}
  }

  lemma InCodes18(s: nat)
    ensures s in Codes18() <==> s < 17 || s == 256
    ensures 256 !in Below(17)
  {
  }

  lemma UsedAreCodes18(freq: seq<nat>)
    requires |freq| == LITLEN_SYMBOL_COUNT && forall s :: 0 <= s < |freq| ==> (freq[s] > 0 <==> s < 17 || s == 256)
    ensures Used(freq) == Codes18()
  {
    hide Codes18;
    forall s: nat
      ensures s in Used(freq) <==> s in Codes18()
    {
      InCodes18(s);
    }
  }

  /** The frequencies that are planned for: one end of the block more. */
  lemma PlannedFor(freq: seq<nat>)
    requires OneMoreEnd(Doubling(), freq)
    ensures |freq| == LITLEN_SYMBOL_COUNT && CodeFor(freq, Ideal())
    ensures forall s :: 0 <= s < 17 || s == 256 ==> freq[s] == Share(Ideal(), 17)(s) == Pow2(17 - Ideal()[s]) > 0
    ensures forall s :: 0 <= s < |freq| ==> (freq[s] > 0 <==> s < 17 || s == 256)
  {
    hide Pow2;
    assert Pow2(0) == 1 by {
      OneIsPow();
    }
  }

  lemma OneIsPow()
    ensures Pow2(0) == 1
  {
  }

  /** The first powers of two add up to the next one less one. */
  lemma {:induction false} PowersSum(n: nat, f: nat -> int)
    requires forall s: nat :: s < n ==> f(s) == Pow2(s)
    ensures Sum(Below(n), f) == Pow2(n) - 1
  {
    hide Sum, Below;
    BelowStep(n);
    if n == 0 {
      SumOfNothing(f);
      OneIsPow();
    } else {
      PowersSum(n - 1, f);
      SumAdd<nat>(Below(n - 1), f, n - 1);
    }
  }

  lemma BelowStep(n: nat)
    ensures if n == 0 then Below(0) == {} else n - 1 !in Below(n - 1) && Below(n) == Below(n - 1) + {n - 1}
  {
  }

  lemma SumOfFrequencies(freq: seq<nat>, f: nat -> int)
    requires OneMoreEnd(Doubling(), freq) && forall s :: 0 <= s < 17 || s == 256 ==> f(s) == freq[s]
    ensures Sum(Used(freq), f) == Pow2(17)
  {
    hide Sum, Pow2, Below, Used, Share;
    PlannedFor(freq);
    UsedAreCodes18(freq);
    hide Ideal, CodeFor;
    PowersSum(17, f);
    InCodes18(256);
    SumAdd<nat>(Below(17), f, 256);
    OneIsPow();
  }

  lemma {:induction false} PowGrows(k: nat)
    ensures Pow2(k) >= 1 + k && (k >= 2 ==> Pow2(k) >= 2 + k)
  {
    if k > 0 {
      PowGrows(k - 1);
    }
  }

  /** A length that is too long takes less space, and costs at least as much more. */
  lemma LongerLength(l: nat, ideal: nat)
    requires ideal < l <= 17
    ensures var f := Pow2(17 - ideal); f * l >= f + f * ideal
  {
    hide Pow2;
    var f := Pow2(17 - ideal);
    Costs(f, l, ideal + 1);
    OneTimesMore(f, ideal);
  }

  lemma OneTimesMore(f: nat, k: nat)
    ensures f * (k + 1) == f + f * k && f * (k + 2) == f + f + f * k
  {
  }

  /** A length that is too short takes more space than it saves, and strictly more from two bits on. */
  lemma ShorterLength(l: nat, ideal: nat)
    requires l <= ideal <= 17
    ensures var f := Pow2(17 - ideal);
            && Pow2(17 - l) + f * l >= f + f * ideal
            && (l + 2 <= ideal ==> Pow2(17 - l) + f * l > f + f * ideal)
  {
    hide Pow2;
    var f, k := Pow2(17 - ideal), ideal - l;
    PowSum(17 - ideal, k);
    PowGrows(k);
    Costs(f, Pow2(k), k + 1);
    OneTimesMore(f, k);
    SplitTimes(f, l, k);
    if k >= 2 {
      Costs(f, Pow2(k), k + 2);
      PowPositive(17 - ideal);
    }
  }

  lemma SplitTimes(f: nat, l: nat, k: nat)
    ensures f * (l + k) == f * l + f * k
  {
  }

  lemma PowPositive(n: nat)
    ensures Pow2(n) > 0
  {
  }

  /** In units of codes of 17 bits: the space and the cost of a length together are least at the ideal length. */
  lemma ShareOrCost(l: nat, ideal: nat)
    requires l <= 17 && ideal <= 17
    ensures var f := Pow2(17 - ideal);
            && Pow2(17 - l) + f * l >= f + f * ideal
            && (l + 2 <= ideal ==> Pow2(17 - l) + f * l > f + f * ideal)
  {
    hide Pow2;
    if l > ideal {
      LongerLength(l, ideal);
    } else {
      ShorterLength(l, ideal);
    }
  }

  lemma Costs(f: nat, a: nat, b: nat)
    requires a >= b
    ensures f * a >= f * b
  {
  }

  lemma {:induction false} PowSum(a: nat, b: nat)
    ensures Pow2(a + b) == Pow2(a) * Pow2(b)
  {
    if b > 0 {
      PowSum(a, b - 1);
    }
  }

  /** Sums of sums. */
  lemma {:induction false} SumOfTwo(s: set<nat>, f: nat -> int, g: nat -> int, h: nat -> int)
    requires forall x :: x in s ==> h(x) == f(x) + g(x)
    ensures Sum(s, h) == Sum(s, f) + Sum(s, g)
    decreases |s|
  {
    hide Sum;
    if x :| x in s {
      SumPick(s, f, x);
      SumPick(s, g, x);
      SumPick(s, h, x);
      SumOfTwo(s - {x}, f, g, h);
    } else {
      assert s == {};
      SumOfNothing(f);
      SumOfNothing(g);
      SumOfNothing(h);
    }
  }

  lemma {:induction false} SumLess(s: set<nat>, f: nat -> int, g: nat -> int)
    requires forall x :: x in s ==> f(x) <= g(x)
    ensures Sum(s, f) <= Sum(s, g)
    decreases |s|
  {
    hide Sum;
    if x :| x in s {
      SumPick(s, f, x);
      SumPick(s, g, x);
      SumLess(s - {x}, f, g);
    } else {
      assert s == {};
      SumOfNothing(f);
      SumOfNothing(g);
    }
  }

  function Plus(f: nat -> int, g: nat -> int): nat -> int {
    (x: nat) => f(x) + g(x)
  }

  lemma Pointwise(freq: seq<nat>, lengths: seq<nat>, x: nat)
    requires OneMoreEnd(Doubling(), freq) && CodeFor(freq, lengths) && Kraft(lengths, 15) && (x < 17 || x == 256)
    ensures var a := Plus(Share(Ideal(), 17), Price(freq, Ideal()))(x);
            var b := Plus(Share(lengths, 17), Price(freq, lengths))(x);
            a <= b && (x == 256 ==> a < b)
  {
    hide Pow2, Ideal, KraftSum;
    PlannedFor(freq);
    LengthsIn(lengths, freq, x);
    ShareOrCost(lengths[x], Ideal()[x]);
  }

  /** Lengths of at most 15 bits cost more than the ideal ones. */
  lemma ShortCostsMore(freq: seq<nat>, lengths: seq<nat>)
    requires OneMoreEnd(Doubling(), freq) && CodeFor(freq, lengths) && Kraft(lengths, 15)
    ensures MessageLength(Used(freq), freq, lengths) > MessageLength(Used(freq), freq, Ideal())
  {
    hide Sum, Pow2, KraftSum, Ideal, Used, Codes18, OneMoreEnd, Kraft;
    PlannedFor(freq);
    UsedAreCodes18(freq);
    var used := Used(freq);
    var share, cost, ideal := Share(lengths, 17), Price(freq, lengths), Price(freq, Ideal());
    var f := Share(Ideal(), 17);
    SpaceOf17(freq, lengths);
    SumOfFrequencies(freq, f);
    forall x | x in used
      ensures Plus(f, ideal)(x) <= Plus(share, cost)(x)
      ensures x == 256 ==> Plus(f, ideal)(x) < Plus(share, cost)(x)
    {
      InCodes18(x);
      Pointwise(freq, lengths, x);
    }
    InCodes18(256);
    SumPick(used, Plus(f, ideal), 256);
    SumPick(used, Plus(share, cost), 256);
    SumLess(used - {256}, Plus(f, ideal), Plus(share, cost));
    SumOfTwo(used, f, ideal, Plus(f, ideal));
    SumOfTwo(used, share, cost, Plus(share, cost));
  }

  lemma LengthsIn(lengths: seq<nat>, freq: seq<nat>, x: nat)
    requires CodeFor(freq, lengths) && Kraft(lengths, 15) && x < |freq| == LITLEN_SYMBOL_COUNT
    ensures lengths[x] <= 15 && Ideal()[x] <= 17 && (x == 256 ==> Ideal()[x] == 17)
  {
  }

  /** Lengths of at most 15 bits leave the space of codes of 17 bits as it is. */
  lemma SpaceOf17(freq: seq<nat>, lengths: seq<nat>)
    requires CodeFor(freq, lengths) && Kraft(lengths, 15)
    ensures Sum(Used(freq), Share(lengths, 17)) <= Pow2(17)
  {
    hide Sum, Share;
    KraftBySymbol(lengths, 17);
    assert Positive(lengths) == Used(freq);
    NoneLonger(lengths, 16);
    NoneLonger(lengths, 17);
    assert KraftSum(lengths, 17) == 4 * KraftSum(lengths, 15) by {
      hide Count;
      assert KraftSum(lengths, 16) == 2 * KraftSum(lengths, 15);
    }
    assert Pow2(17) == 4 * Pow2(15);
  }

  lemma {:induction false} NoneLonger(lengths: seq<nat>, b: nat)
    requires forall i :: 0 <= i < |lengths| ==> lengths[i] < b
    ensures Count(lengths, b) == 0
  {
    if lengths != [] {
      NoneLonger(lengths[..|lengths| - 1], b);
    }
  }

  /** The ideal lengths are those of a code. */
  lemma IdealIsValid(freq: seq<nat>)
    requires OneMoreEnd(Doubling(), freq)
    ensures Valid(Used(freq), Ideal(), 17) && Sum(Used(freq), Freq(freq)) == Pow2(17)
  {
    hide Sum, Pow2, Below, Share, Ideal, Used, Codes18, CodeFor;
    PlannedFor(freq);
    SumOfFrequencies(freq, Share(Ideal(), 17));
    SumOfFrequencies(freq, Freq(freq));
    UsedAreCodes18(freq);
    forall x | x in Used(freq)
      ensures x < |Ideal()| && Ideal()[x] <= 17
    {
      InCodes18(x);
      IdealAtMost(x);
    }
  }

  lemma IdealAtMost(x: nat)
    requires x < LITLEN_SYMBOL_COUNT
    ensures Ideal()[x] <= 17
  {
  }

  lemma SmallSum()
    ensures Pow2(17) <= U32_MAX
  {
    assert Pow2(8) == 256 && Pow2(16) == 65536 by {
      assert Pow2(4) == 16;
      assert Pow2(12) == 4096;
    }
  }

  /** No code of at most 15 bits is a shortest one. */
  lemma NoneIsShortest(freq: seq<nat>, lengths: seq<nat>)
    requires OneMoreEnd(Doubling(), freq) && CodeFor(freq, lengths) && Kraft(lengths, 15)
    ensures !Shortest(freq, lengths)
  {
    hide Sum, Pow2, Ideal, Kraft, Used, MessageLength, Valid, Freq;
    PlannedFor(freq);
    IdealIsValid(freq);
    SmallSum();
    ShortCostsMore(freq, lengths);
  }

  /** Five bits for every symbol in use. */
  function Flat(): (lengths: seq<nat>)
    ensures |lengths| == LITLEN_SYMBOL_COUNT
  {
    seq(LITLEN_SYMBOL_COUNT, s requires 0 <= s < LITLEN_SYMBOL_COUNT => if s < 17 || s == 256 then 5 else 0)
  }

  lemma {:induction false} HowMany(n: nat)
    ensures |Below(n)| == n
  {
    hide Below;
    BelowStep(n);
    if n > 0 {
      HowMany(n - 1);
    }
  }

  /** There is a code for these frequencies that the format can carry. */
  lemma FlatCode(freq: seq<nat>)
    requires OneMoreEnd(Doubling(), freq)
    ensures CodeFor(freq, Flat()) && Kraft(Flat(), MAX_BITS)
  {
    hide Sum, Pow2, KraftSum, Below, Codes18, Ideal, Share;
    PlannedFor(freq);
    UsedAreCodes18(freq);
    assert Positive(Flat()) == Used(freq);
    CountCodes18();
    KraftBySymbol(Flat(), 15);
    forall x | x in Positive(Flat())
      ensures Share(Flat(), 15)(x) <= Pow2(10)
    {
      FiveBits(x);
    }
    SumAtMost<nat>(Positive(Flat()), Share(Flat(), 15), Pow2(10));
    TenBits();
  }

  lemma CountCodes18()
    ensures |Codes18()| == 18
  {
    hide Below;
    HowMany(17);
    InCodes18(256);
  }

  lemma FiveBits(x: nat)
    requires x in Positive(Flat())
    ensures Share(Flat(), 15)(x) <= Pow2(10)
  {
    hide Pow2;
  }

  lemma TenBits()
    ensures 18 * Pow2(10) <= Pow2(15)
  {
    assert Pow2(15) == 32 * Pow2(10) by {
      assert Pow2(12) == 4 * Pow2(10);
      assert Pow2(14) == 4 * Pow2(12);
    }
  }

  /** A single distance has a tree that is not deep. */
  lemma OneDistance(freq: seq<nat>, t: Tree)
    requires |freq| == DIST_SYMBOL_COUNT && OneForNone(Repeat(0, DIST_SYMBOL_COUNT), freq) && BestTree(t, freq)
    ensures !TooDeep(t, MAX_BITS)
  {
    hide Sum;
    assert Used(freq) == {0};
    if t.Fork? {
      var x := SomeSymbol(t.l);
      var y := SomeSymbol(t.r);
    }
  }

  /** The planner refuses these frequencies, although there are codes for them that the format can carry. */
  method SkewedIsRefused() returns (r: PlanResult)
    ensures r == Refused(NoLitlenLengths)
  {
    hide Kraft, BestTree, TooDeep, Shortest, ServesLiterals, ServesDistances, OneMoreEnd, OneForNone, Carries, Holds;
    hide CountsRuns, Doubling, WithEndOfBlock, SomeUsed;
    ghost var h, lit, dist, deep;
    var none: seq<nat> := Repeat(0, DIST_SYMBOL_COUNT);
    r, h, lit, dist, deep := BuildDynamicHuffmanPlan(Doubling(), none);
    if r.Planned? || r == Refused(NoCodelenLengths) {
      ServesPlanned(Doubling(), lit);
      NoneIsShortest(WithEndOfBlock(Doubling()), lit);
    } else if r == Refused(NoDistLengths) {
      SameSize(none, deep.0);
      OneDistance(deep.0, deep.1);
    } else {
      FourErrors(r.error);
    }
  }

  lemma FourErrors(e: PlanError)
    ensures e == BadTableSize || e == NoLitlenLengths || e == NoDistLengths || e == NoCodelenLengths
  {
  }

  lemma SameSize(before: seq<nat>, after: seq<nat>)
    requires OneForNone(before, after)
    ensures |after| == |before|
  {
  }

  lemma ServesPlanned(freq: seq<nat>, lit: seq<nat>)
    requires ServesLiterals(freq, lit)
    ensures OneMoreEnd(freq, WithEndOfBlock(freq)) && CodeFor(WithEndOfBlock(freq), lit)
  {
    hide SatAdd32;
    var more := WithEndOfBlock(freq);
    hide WithEndOfBlock;
    if freq[256] >= U32_MAX {
      Positive32();
    }
  }

  lemma Positive32()
    ensures U32_MAX > 0
  {
  }
}
