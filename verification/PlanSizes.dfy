/** How long a planned header can be. */
module PlanSizes {
  import opened Format
  import opened CodeLengths
  import opened Canonical
  import opened Rle
  import opened DynamicHeader
  import opened DynamicPlan
  import opened CodeSizes

  function Symbols(items: seq<RleItem>): (r: seq<nat>)
    ensures |r| == |items| && forall k :: 0 <= k < |r| ==> r[k] == items[k].symbol
  {
    seq(|items|, k requires 0 <= k < |items| => items[k].symbol)
  }

  /** The extra bits of all items. */
  function Extras(items: seq<RleItem>): nat {
    if items == [] then 0 else Extras(items[..|items| - 1]) + ExtraWidth(items[|items| - 1].symbol)
  }

  lemma LastItem(items: seq<RleItem>)
    requires items != [] && ItemsOk(items)
    ensures ItemsOk(items[..|items| - 1]) && ItemOk(items[|items| - 1])
    ensures Symbols(items)[..|items| - 1] == Symbols(items[..|items| - 1])
  {
    hide ItemOk;
  }

  /** The items take the bits of their codes and their extra bits. */
  lemma {:induction false} ItemsSize(cl: seq<nat>, items: seq<RleItem>)
    requires |cl| == 19 && ItemsOk(items)
    ensures AllBelow(Symbols(items), 19)
    ensures |ItemsBits(cl, items)| == CodedSize(Symbols(items), cl) + Extras(items)
    decreases |items|
  {
    hide SymbolBits, NatBits, ItemsOk, Symbols;
    if items == [] {
      assert Symbols(items) == [];
    } else {
      LastItem(items);
      ItemsSize(cl, items[..|items| - 1]);
      OneItem(cl, items[|items| - 1]);
    }
  }

  lemma OneItem(cl: seq<nat>, item: RleItem)
    requires |cl| == 19 && ItemOk(item)
    ensures |ItemBits(cl, item)| == cl[item.symbol] + ExtraWidth(item.symbol)
  {
    hide NatBits, Code;
  }

  /** Five bits for every item and its extra bits are at most five bits for every length that the items stand for. */
  lemma {:induction false} FivePerLength(items: seq<RleItem>)
    requires Unrolled(items).Some?
    ensures 5 * |items| + Extras(items) <= 5 * |Unrolled(items).value|
    decreases |items|
  {
    if items != [] {
      FivePerLength(items[..|items| - 1]);
    }
  }

  lemma {:induction false} PlacesOccur(items: seq<RleItem>, s: nat)
    ensures |Places(items, s)| == Occurs(Symbols(items), s)
    decreases |items|
  {
    if items == [] {
      assert Places(items, s) == {};
    } else {
      var last: nat := |items| - 1;
      PlacesOccur(items[..last], s);
      assert Symbols(items)[..last] == Symbols(items[..last]);
      if items[last].symbol == s {
        assert Places(items, s) == Places(items[..last], s) + {last};
      } else {
        assert Places(items, s) == Places(items[..last], s);
      }
    }
  }

  lemma RunsTallied(freq: seq<nat>, items: seq<RleItem>)
    requires CountsPlaces(freq, items) && ItemsOk(items) && |items| <= U32_MAX
    ensures Tallies(freq, Symbols(items))
  {
    hide Places, Occurs;
    forall s: nat | s < 19
      ensures freq[s] == Occurs(Symbols(items), s)
    {
      PlacesOccur(items, s);
      OccursAtMost(Symbols(items), s);
    }
  }

  lemma ThirtyTwo()
    ensures Pow2(5) == 32 && 316 <= U32_MAX
  {
    assert Pow2(3) == 8;
  }

  /** A planned header has at most 1654 bits. */
  lemma HeaderSmall(h: Header, lit: seq<nat>, dist: seq<nat>)
    requires Carries(h, lit, dist) && Lean(h, lit, dist)
    ensures |h.Written()| <= 17 + 3 * 19 + 5 * 316
  {
    hide Unrolled, ItemsOk, Kraft, Covers, AllCoded, CountsPlaces, CodedSize, Tallies, ItemsBits, Symbols, Shortest;
    hide Header.Fields;
    ItemsSize(h.codelen, h.items);
    FivePerLength(h.items);
    ThirtyTwo();
    var freq :| CountsPlaces(freq, h.items) && Shortest(freq, h.codelen);
    RunsTallied(freq, h.items);
    NineteenRuns(freq, h.items);
    ShortestSize(Symbols(h.items), freq, h.codelen, 5);
  }

  lemma NineteenRuns(freq: seq<nat>, items: seq<RleItem>)
    requires CountsPlaces(freq, items)
    ensures |freq| == 19 && |Symbols(items)| == |items|
  {
    hide Places;
  }
}
