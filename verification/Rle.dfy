/** The run-length coding of code lengths (section 3.2.7 of RFC 1951): the encoder, and what a reader makes of it. */
module Rle {
  import opened Options
  import opened Bits
  import opened Format
  import opened Canonical

  /** A symbol of the code length alphabet with the value of its extra bits. */
  datatype RleItem = RleItem(symbol: nat, extra: nat)

  function ExtraWidth(symbol: nat): nat {
    if symbol == 16 then 2 else if symbol == 17 then 3 else if symbol == 18 then 7 else 0
  }

  function Min(a: nat, b: nat): nat {
    if a <= b then a else b
  }

  predicate ItemOk(item: RleItem) {
    item.symbol <= 18 && item.extra < Pow2(ExtraWidth(item.symbol))
  }

  /** The lengths an item stands for behind the lengths `acc`; none when there is nothing to repeat. */
  function ItemRun(item: RleItem, acc: seq<nat>): (r: Option<seq<nat>>) {
    if item.symbol <= 15 then Some([item.symbol])
    else if item.symbol == 16 then
      if acc == [] then None else Some(Repeat(acc[|acc| - 1], item.extra + 3))
    else if item.symbol == 17 then Some(Repeat(0, item.extra + 3))
    else if item.symbol == 18 then Some(Repeat(0, item.extra + 11))
    else None
  }

  /** The lengths that a list of items stands for. */
  function Unrolled(items: seq<RleItem>): Option<seq<nat>> {
    if items == [] then Some([])
    else
      match Unrolled(items[..|items| - 1])
      case None => None
      case Some(acc) =>
        match ItemRun(items[|items| - 1], acc)
        case None => None
        case Some(run) => Some(acc + run)
  }

  predicate ItemsOk(items: seq<RleItem>) {
    forall k :: 0 <= k < |items| ==> ItemOk(items[k])
  }

  /** Adding an item that stands for `count` times `v`. */
  lemma AddRun(items: seq<RleItem>, acc: seq<nat>, item: RleItem, v: nat, count: nat)
    requires Unrolled(items) == Some(acc) && ItemRun(item, acc) == Some(Repeat(v, count))
    requires ItemsOk(items) && ItemOk(item)
    ensures Unrolled(items + [item]) == Some(acc + Repeat(v, count)) && ItemsOk(items + [item])
  {
    hide ItemRun, ItemOk;
    assert (items + [item])[..|items|] == items;
  }

  lemma RepeatSplit(acc: seq<nat>, v: nat, a: nat, b: nat)
    ensures acc + Repeat(v, a) + Repeat(v, b) == acc + Repeat(v, a + b)
  {
  }

  lemma SmallPowers()
    ensures Pow2(0) == 1 && Pow2(2) == 4 && Pow2(3) == 8 && Pow2(7) == 128
  {
    assert Pow2(5) == 32;
  }

  lemma LiteralItem(v: nat, acc: seq<nat>)
    requires v <= 15
    ensures ItemOk(RleItem(v, 0)) && ItemRun(RleItem(v, 0), acc) == Some(Repeat(v, 1))
  {
    SmallPowers();
    assert [v] == Repeat(v, 1);
  }

  /** A run of zero lengths. */
  method EncodeZeroRun(items: seq<RleItem>, run: nat, ghost acc: seq<nat>) returns (out: seq<RleItem>)
    ensures items <= out
    ensures Unrolled(items) == Some(acc) && ItemsOk(items)
          ==> Unrolled(out) == Some(acc + Repeat(0, run)) && ItemsOk(out)
  {
    hide Unrolled, ItemOk, Repeat, ItemsOk;
    ghost var good := Unrolled(items) == Some(acc) && ItemsOk(items);
    out := items;
    var remaining: nat := run;
    assert acc == acc + Repeat(0, 0);
    while remaining > 0
      invariant remaining <= run && items <= out
      invariant good ==> Unrolled(out) == Some(acc + Repeat(0, run - remaining)) && ItemsOk(out)
      decreases remaining
    {
      ghost var done := acc + Repeat(0, run - remaining);
      var count: nat, item := 1, RleItem(0, 0);
      if remaining >= 11 {
        count := Min(remaining, 138);
        item := RleItem(18, count - 11);
      } else if remaining >= 3 {
        count := Min(remaining, 10);
        item := RleItem(17, count - 3);
      }
      ZeroItem(item, count, done);
      if good {
        AddRun(out, done, item, 0, count);
      }
      RepeatSplit(acc, 0, run - remaining, count);
      out := out + [item];
      remaining := remaining - count;
    }
  }

  lemma ZeroItem(item: RleItem, count: nat, acc: seq<nat>)
    requires || (item == RleItem(0, 0) && count == 1)
             || (11 <= count <= 138 && item == RleItem(18, count - 11))
             || (3 <= count <= 10 && item == RleItem(17, count - 3))
    ensures ItemOk(item) && ItemRun(item, acc) == Some(Repeat(0, count))
  {
    SmallPowers();
    LiteralItem(0, acc);
  }

  /** A run of one length that is not zero: the length itself, then repetitions of it. */
  method EncodeLengthRun(items: seq<RleItem>, current: nat, run: nat, ghost acc: seq<nat>) returns (out: seq<RleItem>)
    requires run >= 1
    ensures items + [RleItem(current, 0)] <= out
    ensures Unrolled(items) == Some(acc) && ItemsOk(items) && current <= 15 ==>
              Unrolled(out) == Some(acc + Repeat(current, run)) && ItemsOk(out)
  {
    hide Unrolled, ItemOk, Repeat, ItemsOk;
    ghost var good := Unrolled(items) == Some(acc) && ItemsOk(items) && current <= 15;
    if good {
      LiteralItem(current, acc);
      AddRun(items, acc, RleItem(current, 0), current, 1);
    }
    out := items + [RleItem(current, 0)];
    var remaining: nat := run - 1;
    while remaining > 0
      invariant remaining <= run - 1 && items + [RleItem(current, 0)] <= out
      invariant good ==> Unrolled(out) == Some(acc + Repeat(current, run - remaining)) && ItemsOk(out)
      decreases remaining
    {
      ghost var done := acc + Repeat(current, run - remaining);
      var count: nat, item := 1, RleItem(current, 0);
      if remaining >= 3 {
        count := Min(remaining, 6);
        item := RleItem(16, count - 3);
      }
      if good {
        RepeatItem(item, current, count, acc, run - remaining);
        AddRun(out, done, item, current, count);
      }
      RepeatSplit(acc, current, run - remaining, count);
      out := out + [item];
      remaining := remaining - count;
    }
  }

  lemma RepeatItem(item: RleItem, v: nat, count: nat, acc: seq<nat>, done: nat)
    requires v <= 15 && done >= 1
    requires (item == RleItem(v, 0) && count == 1) || (3 <= count <= 6 && item == RleItem(16, count - 3))
    ensures ItemOk(item) && ItemRun(item, acc + Repeat(v, done)) == Some(Repeat(v, count))
  {
    SmallPowers();
    LiteralItem(v, acc + Repeat(v, done));
  }

  /** The items stand for something that is not `lengths`, and so does whatever starts with them. */
  ghost predicate Broken(items: seq<RleItem>, lengths: seq<nat>) {
    match Unrolled(items)
    case None => true
    case Some(x) => exists k :: 0 <= k < |x| && (k >= |lengths| || x[k] != lengths[k])
  }

  lemma {:induction false} BrokenStays(items: seq<RleItem>, longer: seq<RleItem>, lengths: seq<nat>)
    requires Broken(items, lengths) && items <= longer
    ensures Broken(longer, lengths)
    decreases |longer|
  {
    hide ItemRun;
    if |items| < |longer| {
      var init := longer[..|longer| - 1];
      BrokenStays(items, init, lengths);
      if Unrolled(longer).Some? {
        var x := Unrolled(init).value;
        var k :| 0 <= k < |x| && (k >= |lengths| || x[k] != lengths[k]);
        assert Unrolled(longer).value[k] == x[k];
      }
    } else {
      assert longer == items;
    }
  }

  /** A length above 15 is taken for a repetition, or for nothing at all. */
  lemma LargeBreaks(items: seq<RleItem>, lengths: seq<nat>, i: nat)
    requires i < |lengths| && lengths[i] > 15 && Decodable(lengths[..i]) && Unrolled(items) == Some(lengths[..i])
    ensures Broken(items + [RleItem(lengths[i], 0)], lengths)
  {
    var acc, item := lengths[..i], RleItem(lengths[i], 0);
    assert (items + [item])[..|items|] == items;
    var run := ItemRun(item, acc);
    if run.Some? {
      assert Unrolled(items + [item]) == Some(acc + run.value);
      assert (acc + run.value)[i] == run.value[0] <= 15;
    }
  }

  lemma DecodableMore(lengths: seq<nat>, i: nat, run: nat, v: nat)
    requires run >= 1 && i + run <= |lengths| && forall k :: i <= k < i + run ==> lengths[k] == v
    ensures Decodable(lengths[..i + run]) <==> Decodable(lengths[..i]) && v <= 15
  {
    assert lengths[..i + run][i] == v;
    forall k | 0 <= k < i
      ensures lengths[..i + run][k] == lengths[..i][k]
    {
    }
  }

  /** The items stand for exactly the given lengths, and every extra value fits its field, exactly when no length is
      above 15; a larger one would be read as a repetition. */
  method EncodeCodeLengthsRle(lengths: seq<nat>) returns (out: seq<RleItem>)
    ensures Decodable(lengths) ==> ItemsOk(out)
    ensures Unrolled(out) == Some(lengths) <==> Decodable(lengths)
  {
    hide Unrolled, ItemsOk, ItemOk, Decodable, Broken;
    out := [];
    NothingUnrolled();
    var i := 0;
    while i < |lengths|
      invariant i <= |lengths|
      invariant Decodable(lengths[..i]) ==> Unrolled(out) == Some(lengths[..i]) && ItemsOk(out)
      invariant !Decodable(lengths[..i]) ==> Broken(out, lengths)
    {
      var current, run := lengths[i], 1;
      while i + run < |lengths| && lengths[i + run] == current
        invariant i + run <= |lengths| && run >= 1 && forall k :: i <= k < i + run ==> lengths[k] == current
      {
        run := run + 1;
      }
      ghost var before := out;
      DecodableMore(lengths, i, run, current);
      if current == 0 {
        out := EncodeZeroRun(out, run, lengths[..i]);
      } else {
        if current > 15 && Decodable(lengths[..i]) {
          LargeBreaks(out, lengths, i);
        }
        out := EncodeLengthRun(out, current, run, lengths[..i]);
        if current > 15 && Decodable(lengths[..i]) {
          BrokenStays(before + [RleItem(current, 0)], out, lengths);
        }
      }
      if !Decodable(lengths[..i]) {
        BrokenStays(before, out, lengths);
      }
      assert lengths[..i] + Repeat(current, run) == lengths[..i + run];
      i := i + run;
    }
    assert lengths[..i] == lengths;
    BrokenIsNot(out, lengths);
  }

  lemma BrokenIsNot(items: seq<RleItem>, lengths: seq<nat>)
    ensures Broken(items, lengths) ==> Unrolled(items) != Some(lengths)
  {
  }

  lemma NothingUnrolled()
    ensures Unrolled([]) == Some([]) && ItemsOk([]) && Decodable([])
  {
  }

  // ---- Reading the items back -------------------------------------------------------------------

  /** An item in the stream: its code, then its extra bits. */
  function ItemBits(codelen: seq<nat>, item: RleItem): Bits
    requires item.symbol < |codelen|
  {
    SymbolBits(codelen, item.symbol) + NatBits(item.extra, ExtraWidth(item.symbol))
  }

  function ItemsBits(codelen: seq<nat>, items: seq<RleItem>): Bits
    requires |codelen| == 19 && ItemsOk(items)
  {
    if items == [] then []
    else ItemsBits(codelen, items[..|items| - 1]) + ItemBits(codelen, items[|items| - 1])
  }

  lemma FieldReadsBack(s: Bits, p: nat, v: nat, n: nat)
    requires v < Pow2(n) && p + n <= |s| && s[p..p + n] == NatBits(v, n)
    ensures ReadBits(s, p, n) == Ok(v, p + n)
  {
    ValueOfNatBits(v, n);
    if n == 0 {
      assert v == 0;
    }
  }

  lemma RunReadsBack(s: Bits, p: nat, item: RleItem, acc: seq<nat>)
    requires ItemOk(item) && ItemRun(item, acc).Some?
    requires var w := ExtraWidth(item.symbol); p + w <= |s| && s[p..p + w] == NatBits(item.extra, w)
    ensures RunOf(s, p, item.symbol, acc) == Ok(ItemRun(item, acc).value, p + ExtraWidth(item.symbol))
  {
    hide ReadBits;
    FieldReadsBack(s, p, item.extra, ExtraWidth(item.symbol));
  }

  /** One step of the reader over one item. */
  lemma ItemReadsBack(s: Bits, p: nat, codelen: seq<nat>, maxBits: nat, total: nat, item: RleItem, acc: seq<nat>)
    requires Kraft(codelen, maxBits) && |codelen| == 19 && ItemOk(item) && codelen[item.symbol] > 0
    requires var bits := ItemBits(codelen, item); p + |bits| <= |s| && s[p..p + |bits|] == bits
    requires ItemRun(item, acc).Some? && |acc| < |acc + ItemRun(item, acc).value| <= total
    ensures ReadLengths(s, p, codelen, total, acc) ==
            ReadLengths(s, p + |ItemBits(codelen, item)|, codelen, total, acc + ItemRun(item, acc).value)
  {
    hide Code, DecodeSymbol, ItemRun, ItemOk, RunOf, Kraft, ExtraWidth;
    ExtraOk(item);
    var n, w := codelen[item.symbol], ExtraWidth(item.symbol);
    assert s[p..p + n + w][..n] == s[p..p + n] && s[p..p + n + w][n..] == s[p + n..p + n + w];
    DecodeCode(s, p, codelen, maxBits, item.symbol);
    RunReadsBack(s, p + n, item, acc);
  }

  lemma ExtraOk(item: RleItem)
    requires ItemOk(item)
    ensures item.extra < Pow2(ExtraWidth(item.symbol)) && item.symbol <= 18
  {
  }

  /** Every item has a code. */
  predicate AllCoded(codelen: seq<nat>, items: seq<RleItem>)
    requires |codelen| == 19 && ItemsOk(items)
  {
    forall k :: 0 <= k < |items| ==> codelen[items[k].symbol] > 0
  }

  lemma UnrolledPrefix(items: seq<RleItem>)
    requires Unrolled(items).Some? && items != []
    ensures var init := items[..|items| - 1];
            && Unrolled(init).Some? && ItemRun(items[|items| - 1], Unrolled(init).value).Some?
            && Unrolled(items).value == Unrolled(init).value + ItemRun(items[|items| - 1], Unrolled(init).value).value
            && |ItemRun(items[|items| - 1], Unrolled(init).value).value| >= 1
  {
  }

  /** The reader turns the bits of the items back into the lengths, whatever surrounds them, also where a run
      of equal lengths crosses from one table into the next. */
  lemma {:induction false} ItemsReadBack(s: Bits, p: nat, codelen: seq<nat>, maxBits: nat, total: nat,
      items: seq<RleItem>)
    requires Kraft(codelen, maxBits) && |codelen| == 19 && ItemsOk(items) && AllCoded(codelen, items)
    requires var bits := ItemsBits(codelen, items); p + |bits| <= |s| && s[p..p + |bits|] == bits
    requires Unrolled(items).Some? && |Unrolled(items).value| <= total
    ensures ReadLengths(s, p, codelen, total, []) ==
            ReadLengths(s, p + |ItemsBits(codelen, items)|, codelen, total, Unrolled(items).value)
    decreases |items|
  {
    hide ItemBits, ItemOk, ItemRun, Unrolled, ReadLengths, Kraft;
    if items == [] {
      NothingUnrolled();
    } else {
      var init, last := items[..|items| - 1], items[|items| - 1];
      UnrolledPrefix(items);
      ExtraOk(last);
      var a, b := ItemsBits(codelen, init), ItemBits(codelen, last);
      assert s[p..p + |a| + |b|][..|a|] == s[p..p + |a|];
      assert s[p..p + |a| + |b|][|a|..] == s[p + |a|..p + |a| + |b|];
      ItemsReadBack(s, p, codelen, maxBits, total, init);
      ItemReadsBack(s, p + |a|, codelen, maxBits, total, last, Unrolled(init).value);
    }
  }
}
