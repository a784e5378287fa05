/** How long the GPU coders' output can be: in either code a chunk fits the buffer that it gets. */
module GpuSizes {
  import opened Options
  import opened Format
  import CodeLengths
  import opened Canonical
  import opened DynamicHeader
  import opened DynamicPlan
  import opened DynamicBlock
  import opened CodeTables
  import opened CodeSizes
  import opened GpuSymbols
  import opened GpuCoder

  // ---- The symbols of the tokens -----------------------------------------------------------------

  function LitSymbol(w: Coded): nat {
    if w.Octet? then w.value else 257 + w.lenIndex
  }

  function LitSymbols(ws: seq<Coded>): (r: seq<nat>)
    ensures |r| == |ws|
  {
    if ws == [] then [] else LitSymbols(ws[..|ws| - 1]) + [LitSymbol(ws[|ws| - 1])]
  }

  function DistSymbols(ws: seq<Coded>): seq<nat> {
    if ws == [] then []
    else DistSymbols(ws[..|ws| - 1]) + if ws[|ws| - 1].Copy? then [ws[|ws| - 1].distSym] else []
  }

  lemma {:induction false} UsesOccur(ws: seq<Coded>, s: nat)
    ensures LitUses(ws, s) == Occurs(LitSymbols(ws), s) && DistUses(ws, s) == Occurs(DistSymbols(ws), s)
    decreases |ws|
  {
    hide Occurs;
    if ws == [] {
      NothingOccurs(s);
    } else {
      var init, w := ws[..|ws| - 1], ws[|ws| - 1];
      UsesOccur(init, s);
      OccursMore(LitSymbols(init), LitSymbol(w), s);
      if w.Copy? {
        OccursMore(DistSymbols(init), w.distSym, s);
      } else {
        assert DistSymbols(ws) == DistSymbols(init);
      }
    }
  }

  // ---- The row of the tokens ---------------------------------------------------------------------

  lemma OneToken(w: Coded, lit: seq<nat>, dist: seq<nat>)
    requires InRange(w) && HasCode(w, lit, dist)
    ensures LitSymbol(w) < |lit| && (w.Copy? ==> w.distSym < |dist|)
    ensures |TokenBits(w, lit, dist)| <= lit[LitSymbol(w)] + if w.Copy? then dist[w.distSym] + 18 else 0
  {
    hide Pow2, NatBits, Code;
    if w.Copy? {
      if w.lenIndex < 28 { LengthRanges(w.lenIndex); }
      DistanceRanges(w.distSym);
    }
  }

  /** The tokens take the bits of their symbols' codes, and at most 18 extra bits for every match. */
  lemma {:induction false} RowSize(ws: seq<Coded>, lit: seq<nat>, dist: seq<nat>)
    requires AllHaveCodes(ws, lit, dist)
    ensures AllBelow(LitSymbols(ws), |lit|) && AllBelow(DistSymbols(ws), |dist|)
    ensures |TokenRow(ws, lit, dist)|
            <= CodedSize(LitSymbols(ws), lit) + CodedSize(DistSymbols(ws), dist) + 18 * |DistSymbols(ws)|
    decreases |ws|
  {
    hide InRange, HasCode, TokenBits, LitSymbol;
    if ws != [] {
      var init, w := ws[..|ws| - 1], ws[|ws| - 1];
      assert ws == init + [w];
      RowSize(init, lit, dist);
      TokenRowMore(init, w, lit, dist);
      OneToken(w, lit, dist);
      hide TokenRow;
      assert LitSymbols(ws)[..|init|] == LitSymbols(init);
      if w.Copy? {
        assert DistSymbols(ws)[..|DistSymbols(init)|] == DistSymbols(init);
      } else {
        assert DistSymbols(ws) == DistSymbols(init);
      }
    }
  }

  // ---- The length of what the tokens stand for ---------------------------------------------------

  function Span(t: Token): nat {
    match t
    case Literal(_) => 1
    case Match(length, _) => length
  }

  function Spans(tokens: seq<Token>): nat {
    if tokens == [] then 0 else Span(tokens[0]) + Spans(tokens[1..])
  }

  lemma {:induction false} ExpandSpans(tokens: seq<Token>, out: seq<nat>)
    requires Expand(tokens, out).Some?
    ensures |Expand(tokens, out).value| == |out| + Spans(tokens)
    decreases |tokens|
  {
    hide CopyMatch;
    if tokens != [] {
      match tokens[0]
      case Literal(b) => ExpandSpans(tokens[1..], out + [b]);
      case Match(length, distance) => ExpandSpans(tokens[1..], CopyMatch(out, length, distance));
    }
  }

  lemma {:induction false} SpansMore(tokens: seq<Token>, t: Token)
    ensures Spans(tokens + [t]) == Spans(tokens) + Span(t)
    decreases |tokens|
  {
    hide Span;
    if tokens == [] {
      assert (tokens + [t])[1..] == [];
    } else {
      SpansMore(tokens[1..], t);
      assert (tokens + [t])[1..] == tokens[1..] + [t];
    }
  }

  lemma LongEnough(t: Token, w: Coded)
    requires CodeOf(t, w)
    ensures Span(t) >= if w.Copy? then 3 else 1
  {
    hide Pow2;
    if w.Copy? && w.lenIndex < 28 {
      LengthRanges(0);
      if w.lenIndex > 0 { LengthsAscend(0, w.lenIndex); }
    }
  }

  /** A match stands for three octets at least. */
  lemma {:induction false} MatchesAreLong(tokens: seq<Token>, ws: seq<Coded>)
    requires CodesOf(tokens, ws)
    ensures |ws| + 2 * |DistSymbols(ws)| <= Spans(tokens)
    decreases |ws|
  {
    hide CodeOf, Span;
    if ws != [] {
      var n := |ws| - 1;
      MatchesAreLong(tokens[..n], ws[..n]);
      SpansMore(tokens[..n], tokens[n]);
      assert tokens[..n] + [tokens[n]] == tokens;
      LongEnough(tokens[n], ws[n]);
    }
  }

  // ---- Both codes --------------------------------------------------------------------------------

  /** With nine bits for every literal or length symbol and five for every distance symbol on average, the row has at
      most twelve bits for every octet of the data. */
  lemma TwelvePerOctet(tokens: seq<Token>, ws: seq<Coded>, lit: seq<nat>, dist: seq<nat>, data: seq<nat>, more: nat)
    requires CodesOf(tokens, ws) && Expand(tokens, []) == Some(data) && AllHaveCodes(ws, lit, dist)
    requires AllBelow(LitSymbols(ws), |lit|) && AllBelow(DistSymbols(ws), |dist|)
    requires CodedSize(LitSymbols(ws), lit) + more <= 9 * |ws| + 9
    requires CodedSize(DistSymbols(ws), dist) <= 5 * |DistSymbols(ws)|
    ensures |TokenRow(ws, lit, dist)| + more <= 12 * |data| + 9
  {
    hide CodesOf, Expand, AllHaveCodes, CodedSize, TokenRow, Spans, LitSymbols, DistSymbols;
    RowSize(ws, lit, dist);
    ExpandSpans(tokens, []);
    MatchesAreLong(tokens, ws);
  }

  /** In the fixed codes. */
  lemma FixedRowSmall(tokens: seq<Token>, ws: seq<Coded>, data: seq<nat>)
    requires CodesOf(tokens, ws) && Expand(tokens, []) == Some(data)
    requires AllHaveCodes(ws, FixedTrees().lit, FixedTrees().dist)
    ensures |TokenRow(ws, FixedTrees().lit, FixedTrees().dist)| <= 12 * |data| + 9
  {
    hide CodesOf, Expand, AllHaveCodes, CodedSize, TokenRow, LitSymbols, DistSymbols;
    var lit, dist := FixedTrees().lit, FixedTrees().dist;
    RowSize(ws, lit, dist);
    SizeAtMost(LitSymbols(ws), lit, 9);
    SizeAtMost(DistSymbols(ws), dist, 5);
    TwelvePerOctet(tokens, ws, lit, dist, data, 0);
  }

  lemma {:induction false} LitTallied(ws: seq<Coded>, litlenFreq: seq<nat>, distFreq: seq<nat>)
    requires CountsUses(litlenFreq, distFreq, ws) && AllBelow(LitSymbols(ws), 286) && |ws| < CodeLengths.U32_MAX
    ensures Tallies(WithEndOfBlock(litlenFreq), LitSymbols(ws) + [256])
  {
    hide LitUses, DistUses, WithEndOfBlock, LitSymbols;
    var symbols, freq := LitSymbols(ws) + [256], WithEndOfBlock(litlenFreq);
    assert symbols[..|ws|] == LitSymbols(ws);
    forall s: nat | s < 286
      ensures freq[s] == Occurs(symbols, s)
    {
      UsesOccur(ws, s);
      OccursAtMost(LitSymbols(ws), s);
    }
  }

  lemma DistTallied(ws: seq<Coded>, litlenFreq: seq<nat>, distFreq: seq<nat>)
    requires CountsUses(litlenFreq, distFreq, ws) && AllBelow(DistSymbols(ws), 30) && DistSymbols(ws) != []
    ensures Tallies(SomeUsed(distFreq), DistSymbols(ws))
  {
    hide LitUses, DistUses, DistSymbols;
    forall s: nat | s < 30
      ensures distFreq[s] == Occurs(DistSymbols(ws), s)
    {
      UsesOccur(ws, s);
    }
    var symbols := DistSymbols(ws);
    assert distFreq[symbols[|symbols| - 1]] > 0;
  }

  lemma FlatWidths()
    ensures Pow2(9) == 512 && Pow2(5) == 32
  {
    assert Pow2(7) == 128 && Pow2(3) == 8 by {
      assert Pow2(3) == 8;
    }
  }

  /** In planned codes, with the end of the block. */
  lemma PlannedRowSmall(tokens: seq<Token>, ws: seq<Coded>, litlenFreq: seq<nat>, distFreq: seq<nat>, lit: seq<nat>,
      dist: seq<nat>, data: seq<nat>)
    requires CodesOf(tokens, ws) && Expand(tokens, []) == Some(data) && AllHaveCodes(ws, lit, dist)
    requires CountsUses(litlenFreq, distFreq, ws) && |data| < CodeLengths.U32_MAX && |lit| == 286 && |dist| == 30
    requires Shortest(WithEndOfBlock(litlenFreq), lit) && Shortest(SomeUsed(distFreq), dist)
    ensures |TokenRow(ws, lit, dist)| + lit[256] <= 12 * |data| + 9
  {
    hide CodesOf, Expand, AllHaveCodes, TokenRow, LitSymbols, DistSymbols, Tallies, CodedSize, Shortest, Spans;
    hide LitUses, DistUses, WithEndOfBlock, SomeUsed, Pow2, CountsUses;
    SameSizes(litlenFreq, distFreq, ws);
    RowSize(ws, lit, dist);
    ExpandSpans(tokens, []);
    MatchesAreLong(tokens, ws);
    LitTallied(ws, litlenFreq, distFreq);
    FlatWidths();
    ShortestSize(LitSymbols(ws) + [256], WithEndOfBlock(litlenFreq), lit, 9);
    SizeMore(LitSymbols(ws), 256, lit);
    if DistSymbols(ws) == [] {
      NoSize(dist);
    } else {
      DistTallied(ws, litlenFreq, distFreq);
      ShortestSize(DistSymbols(ws), SomeUsed(distFreq), dist, 5);
    }
    TwelvePerOctet(tokens, ws, lit, dist, data, lit[256]);
  }

  lemma SameSizes(litlenFreq: seq<nat>, distFreq: seq<nat>, ws: seq<Coded>)
    requires CountsUses(litlenFreq, distFreq, ws)
    ensures |litlenFreq| == 286 && |distFreq| == 30
    ensures |WithEndOfBlock(litlenFreq)| == 286 && |SomeUsed(distFreq)| == 30
  {
    hide LitUses, DistUses, WithEndOfBlock, SomeUsed;
  }

  lemma SizeMore(symbols: seq<nat>, s: nat, lengths: seq<nat>)
    requires AllBelow(symbols, |lengths|) && s < |lengths|
    ensures AllBelow(symbols + [s], |lengths|)
    ensures CodedSize(symbols + [s], lengths) == CodedSize(symbols, lengths) + lengths[s]
  {
    assert (symbols + [s])[..|symbols|] == symbols;
  }

  lemma NoSize(lengths: seq<nat>)
    ensures CodedSize([], lengths) == 0
  {
  }
}
