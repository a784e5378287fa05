/** How long a coded message can be: an optimal code is no longer than a flat one. */
module CodeSizes {
  import opened Format
  import opened Sums
  import opened MinimalMerge
  import opened CodeLengths
  import opened HuffmanLengths
  import opened DynamicHeader

  predicate AllBelow(symbols: seq<nat>, n: nat) {
    forall k :: 0 <= k < |symbols| ==> symbols[k] < n
  }

  /** The lengths of the symbols' codes, added up. */
  function CodedSize(symbols: seq<nat>, lengths: seq<nat>): nat
    requires AllBelow(symbols, |lengths|)
  {
    if symbols == [] then 0 else CodedSize(symbols[..|symbols| - 1], lengths) + lengths[symbols[|symbols| - 1]]
  }

  function Occurs(symbols: seq<nat>, s: nat): nat {
    if symbols == [] then 0
    else Occurs(symbols[..|symbols| - 1], s) + if symbols[|symbols| - 1] == s then 1 else 0
  }

  lemma {:induction false} OccursAtMost(symbols: seq<nat>, s: nat)
    ensures Occurs(symbols, s) <= |symbols|
    decreases |symbols|
  {
    if symbols != [] {
      OccursAtMost(symbols[..|symbols| - 1], s);
    }
  }

  lemma NothingOccurs(s: nat)
    ensures Occurs([], s) == 0
  {
  }

  lemma OccursMore(symbols: seq<nat>, x: nat, s: nat)
    ensures Occurs(symbols + [x], s) == Occurs(symbols, s) + if x == s then 1 else 0
  {
    assert (symbols + [x])[..|symbols|] == symbols;
  }

  /** The frequencies are those of the symbols. */
  predicate Tallies(freq: seq<nat>, symbols: seq<nat>) {
    AllBelow(symbols, |freq|) && forall s :: 0 <= s < |freq| ==> freq[s] == Occurs(symbols, s)
  }

  lemma {:induction false} SizeAtMost(symbols: seq<nat>, lengths: seq<nat>, n: nat)
    requires AllBelow(symbols, |lengths|) && forall s :: 0 <= s < |lengths| ==> lengths[s] <= n
    ensures CodedSize(symbols, lengths) <= n * |symbols|
    decreases |symbols|
  {
    if symbols != [] {
      SizeAtMost(symbols[..|symbols| - 1], lengths, n);
      assert n * |symbols| == n * (|symbols| - 1) + n;
    }
  }

  // ---- Adding up by positions and by symbols -----------------------------------------------------

  /** The numbers below `n`. */
  function All(n: nat): (all: set<nat>)
    ensures forall s: nat :: s in all <==> s < n
  {
    if n == 0 then {} else All(n - 1) + {n - 1}
  }

  /** What each symbol adds to the size. */
  function Part(symbols: seq<nat>, lengths: seq<nat>): nat -> int {
    (s: nat) => if s < |lengths| then Occurs(symbols, s) * lengths[s] else 0
  }

  lemma SumOfZeros(s: set<nat>, f: nat -> int)
    requires forall x :: x in s ==> f(x) == 0
    ensures Sum(s, f) == 0
  {
    SumAtMost(s, f, 0);
    SumNonNegative(s, f);
  }

  lemma OneMore(before: nat, length: nat)
    ensures (before + 1) * length == before * length + length
  {
  }

  lemma {:induction false} SizeBySymbols(symbols: seq<nat>, lengths: seq<nat>)
    requires AllBelow(symbols, |lengths|)
    ensures Sum(All(|lengths|), Part(symbols, lengths)) == CodedSize(symbols, lengths)
    decreases |symbols|
  {
    hide Sum;
    var all, f := All(|lengths|), Part(symbols, lengths);
    if symbols == [] {
      forall s | s in all
        ensures f(s) == 0
      {
        assert 0 * lengths[s] == 0;
      }
      SumOfZeros(all, f);
    } else {
      var init, x := symbols[..|symbols| - 1], symbols[|symbols| - 1];
      var g := Part(init, lengths);
      SizeBySymbols(init, lengths);
      SumPick(all, f, x);
      SumPick(all, g, x);
      SumSame(all - {x}, f, g);
      OneMore(Occurs(init, x), lengths[x]);
    }
  }

  lemma {:induction false} SizeOfOnes(symbols: seq<nat>, ones: seq<nat>)
    requires AllBelow(symbols, |ones|) && forall s :: 0 <= s < |ones| ==> ones[s] == 1
    ensures CodedSize(symbols, ones) == |symbols|
    decreases |symbols|
  {
    if symbols != [] {
      SizeOfOnes(symbols[..|symbols| - 1], ones);
    }
  }

  /** Symbols that are not in use add nothing. */
  lemma OnlyUsed(freq: seq<nat>, f: nat -> int, g: nat -> int)
    requires forall s :: 0 <= s < |freq| ==> f(s) == g(s) && (freq[s] == 0 ==> g(s) == 0)
    ensures Sum(Used(freq), f) == Sum(All(|freq|), g)
  {
    hide Sum;
    var unused := All(|freq|) - Used(freq);
    assert Used(freq) + unused == All(|freq|);
    SumUnion(Used(freq), unused, g);
    SumOfZeros(unused, g);
    SumSame(Used(freq), f, g);
  }

  /** The length of the message and the number of its symbols, by symbols and by positions. */
  lemma TallyMessage(symbols: seq<nat>, freq: seq<nat>, lengths: seq<nat>)
    requires Tallies(freq, symbols) && |lengths| == |freq|
    ensures MessageLength(Used(freq), freq, lengths) == CodedSize(symbols, lengths)
  {
    hide Sum, CodedSize;
    var f, g := Price(freq, lengths), Part(symbols, lengths);
    forall s | 0 <= s < |freq|
      ensures f(s) == g(s) && (freq[s] == 0 ==> g(s) == 0)
    {
      assert 0 * lengths[s] == 0;
    }
    OnlyUsed(freq, f, g);
    SizeBySymbols(symbols, lengths);
  }

  lemma TallyCount(symbols: seq<nat>, freq: seq<nat>)
    requires Tallies(freq, symbols)
    ensures Sum(Used(freq), Freq(freq)) == |symbols|
  {
    hide Sum, CodedSize;
    var ones := seq(|freq|, s => 1);
    var f, g := Freq(freq), Part(symbols, ones);
    forall s | 0 <= s < |freq|
      ensures f(s) == g(s)
    {
      assert Occurs(symbols, s) * 1 == Occurs(symbols, s);
    }
    OnlyUsed(freq, f, g);
    SizeBySymbols(symbols, ones);
    SizeOfOnes(symbols, ones);
  }

  // ---- The flat code -----------------------------------------------------------------------------

  function Flat(freq: seq<nat>, n: nat): (lengths: seq<nat>)
    ensures |lengths| == |freq|
    ensures forall s :: 0 <= s < |freq| ==> lengths[s] == if freq[s] > 0 then n else 0
  {
    seq(|freq|, s requires 0 <= s < |freq| => if freq[s] > 0 then n else 0)
  }

  lemma {:induction false} UsedAtMost(freq: seq<nat>)
    ensures |Used(freq)| <= |freq|
    decreases |freq|
  {
    if freq != [] {
      var k: nat := |freq| - 1;
      UsedAtMost(freq[..k]);
      if freq[k] > 0 {
        assert Used(freq) == Used(freq[..k]) + {k};
      } else {
        assert Used(freq) == Used(freq[..k]);
      }
    } else {
      assert Used(freq) == {};
    }
  }

  lemma FlatIsValid(freq: seq<nat>, n: nat)
    requires |freq| <= Pow2(n)
    ensures Valid(Used(freq), Flat(freq, n), n)
  {
    hide Sum, Flat;
    var f := Share(Flat(freq, n), n);
    forall x | x in Used(freq)
      ensures f(x) <= 1
    {
      assert Pow2(n - n) == 1;
    }
    SumAtMost<nat>(Used(freq), f, 1);
    UsedAtMost(freq);
  }

  /** A shortest code takes at most `n` bits for a symbol on average when `n` bits can tell the symbols apart. */
  lemma ShortestSize(symbols: seq<nat>, freq: seq<nat>, lengths: seq<nat>, n: nat)
    requires Tallies(freq, symbols) && |symbols| <= U32_MAX && |lengths| == |freq| && 1 <= n && |freq| <= Pow2(n)
    requires Shortest(freq, lengths)
    ensures CodedSize(symbols, lengths) <= n * |symbols|
  {
    hide Sum, MessageLength, CodedSize, Valid, Pow2, Flat;
    TallyCount(symbols, freq);
    TallyMessage(symbols, freq, lengths);
    var flat := Flat(freq, n);
    FlatIsValid(freq, n);
    assert CodeFor(freq, flat);
    TallyMessage(symbols, freq, flat);
    SizeAtMost(symbols, flat, n);
  }
}
