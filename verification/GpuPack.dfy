/** The GPU's bit packing: every token's code is combined with the output words by a bitwise or at the token's own
    offset, in any order. */
module GpuPack {
  import opened Bits
  import opened Format
  import opened Canonical
  import opened HuffmanEncoder
  import opened Totals
  import opened GpuScan

  // ---- Words and their bits ----------------------------------------------------------------------

  const WORD: nat := 0x1_0000_0000

  lemma WordIsPow()
    ensures Pow2(32) == WORD
  {
    Pow2Of8();
    Pow2Add(8, 8);
    Pow2Add(16, 16);
  }

  function WordBits(words: seq<nat>): (s: Bits)
    ensures |s| == 32 * |words|
  {
    if words == [] then [] else WordBits(words[..|words| - 1]) + NatBits(words[|words| - 1], 32)
  }

  lemma {:induction false} WordBitAt(words: seq<nat>, k: nat)
    requires k < 32 * |words|
    ensures WordBits(words)[k] == NatBits(words[k / 32], 32)[k % 32]
    decreases |words|
  {
    hide NatBits;
    var n := |words| - 1;
    if k < 32 * n {
      WordBitAt(words[..n], k);
    }
  }

  /** The bitwise or of the `n` low bits. */
  function OrBits(a: nat, b: nat, n: nat): nat {
    if n == 0 then 0 else (if a % 2 == 1 || b % 2 == 1 then 1 else 0) + 2 * OrBits(a / 2, b / 2, n - 1)
  }

  lemma {:induction false} OrBitsAre(a: nat, b: nat, n: nat)
    ensures OrBits(a, b, n) < Pow2(n)
    ensures forall i :: 0 <= i < n ==> NatBits(OrBits(a, b, n), n)[i] == (NatBits(a, n)[i] || NatBits(b, n)[i])
    decreases n
  {
    if n > 0 {
      OrBitsAre(a / 2, b / 2, n - 1);
      var r := OrBits(a, b, n);
      assert r / 2 == OrBits(a / 2, b / 2, n - 1);
      assert r % 2 == if a % 2 == 1 || b % 2 == 1 then 1 else 0;
    }
  }

  /** A 32-bit shift to the left. */
  function Shl32(v: nat, k: nat): nat
    requires k < 32
  {
    v * Pow2(k) % WORD
  }

  function Quotient(v: nat, w: nat): nat
    requires w > 0
  {
    v / w
  }

  function Shr32(v: nat, k: nat): nat {
    Quotient(v, Pow2(k))
  }

  lemma {:induction false} LowBitsOnly(v: nat, m: nat, n: nat)
    ensures NatBits(v % Pow2(m + n), m) == NatBits(v, m)
    decreases m
  {
    if m > 0 {
      var w := Pow2(m - 1 + n);
      assert Pow2(m + n) == 2 * w;
      HalfMod(v, w, Pow2(m + n));
      LowBitsOnly(v / 2, m - 1, n);
    }
  }

  lemma HalfMod(v: nat, w: nat, m: nat)
    requires w > 0 && m == 2 * w
    ensures v % m / 2 == v / 2 % w && v % m % 2 == v % 2
  {
    Divided(v, m);
    HalfRest(v, w, m, v / m, v % m);
  }

  lemma Divided(v: nat, m: nat)
    requires m > 0
    ensures v / m >= 0 && v == m * (v / m) + v % m && v % m < m
  {
  }

  lemma HalfRest(v: nat, w: nat, m: nat, q: nat, r: nat)
    requires w > 0 && m == 2 * w && v == m * q + r && r < m
    ensures r / 2 == v / 2 % w && r % 2 == v % 2
  {
    Regroup(w, q);
    HalfSum(v, w * q, r);
    RemainderIs(v / 2, w, q, r / 2);
  }

  lemma Regroup(w: nat, q: nat)
    ensures (2 * w) * q == 2 * (w * q)
  {
  }

  lemma RemainderIs(x: nat, w: nat, q: nat, r: nat)
    requires w > 0 && x == w * q + r && r < w
    ensures x % w == r
  {
    DivUnique(x, w, q, r);
  }

  lemma HalfSum(v: nat, p: nat, r: nat)
    requires v == 2 * p + r
    ensures v / 2 == p + r / 2 && v % 2 == r % 2
  {
  }

  /** The bits move up, and the lowest ones are zero. */
  lemma ShiftedUp(v: nat, k: nat)
    requires k < 32
    ensures NatBits(Shl32(v, k), 32) == Zeros(k) + NatBits(v, 32 - k)
  {
    hide NatBits, Pow2;
    WordIsPow();
    LowBitsOnly(v * Pow2(k), 32, 0);
    Pow2Of0(k);
    NatBitsConcat(0, k, v, 32 - k);
    NatBitsOfZero(k);
  }

  lemma Pow2Of0(k: nat)
    ensures 0 < Pow2(k)
  {
  }

  /** The bits move down. */
  lemma {:induction false} ShiftedDown(v: nat, k: nat, n: nat)
    ensures NatBits(v, k + n) == NatBits(v, k) + NatBits(Shr32(v, k), n)
    decreases k
  {
    if k == 0 {
      assert v / 1 == v;
    } else {
      ShiftedDown(v / 2, k - 1, n);
      DivTwice(v, Pow2(k - 1));
    }
  }

  lemma {:induction false} HighBitsZero(v: nat, m: nat, n: nat)
    requires v < Pow2(m)
    ensures NatBits(v, m + n) == NatBits(v, m) + Zeros(n)
  {
    hide NatBits, Pow2;
    NatBitsConcat(v, m, 0, n);
    NatBitsOfZero(n);
  }

  // ---- A code into the words ---------------------------------------------------------------------

  /** The field, at its place, sets the bit. */
  predicate SetAt(field: Bits, offset: nat, k: nat) {
    offset <= k < offset + |field| && field[k - offset]
  }

  /** The field has been combined with the bits at its place, and the other bits are as before. */
  predicate Combined(before: Bits, after: Bits, offset: nat, field: Bits) {
    |after| == |before| && forall k :: 0 <= k < |before| ==> after[k] == (before[k] || SetAt(field, offset, k))
  }

  method OrInto(words: array<nat>, index: nat, value: nat)
    requires index < words.Length
    modifies words
    ensures Combined(old(WordBits(words[..])), WordBits(words[..]), 32 * index, NatBits(value, 32))
  {
    hide NatBits, OrBits, WordBits;
    ghost var before := words[..];
    words[index] := OrBits(words[index], value, 32);
    OrBitsAre(before[index], value, 32);
    forall k | 0 <= k < 32 * words.Length
      ensures WordBits(words[..])[k] == (WordBits(before)[k] || SetAt(NatBits(value, 32), 32 * index, k))
    {
      WordBitAt(before, k);
      WordBitAt(words[..], k);
    }
  }

  /** Two combined parts that make up the field. */
  lemma CombinedTwice(a: Bits, b: Bits, c: Bits, offset: nat, field: Bits, p: nat, x: Bits, q: nat, y: Bits)
    requires Combined(a, b, p, x) && Combined(b, c, q, y)
    requires forall k :: 0 <= k < |a| ==> (SetAt(field, offset, k) <==> SetAt(x, p, k) || SetAt(y, q, k))
    ensures Combined(a, c, offset, field)
  {
  }

  lemma CombinedSame(a: Bits, b: Bits, offset: nat, field: Bits, p: nat, x: Bits)
    requires Combined(a, b, p, x)
    requires forall k :: 0 <= k < |a| ==> (SetAt(field, offset, k) <==> SetAt(x, p, k))
    ensures Combined(a, b, offset, field)
  {
  }

  /** A code of up to 32 bits: shifted into its word, and what does not fit into the next one. */
  method PackCode(words: array<nat>, bitOffset: nat, code: nat, bits: nat)
    requires bits <= 32 && code < Pow2(bits) && bitOffset + bits <= 32 * words.Length && bits > 0
    modifies words
    ensures Combined(old(WordBits(words[..])), WordBits(words[..]), bitOffset, NatBits(code, bits))
  {
    hide NatBits, WordBits, Pow2, Shl32, Shr32, Combined;
    var wordIndex, shift := bitOffset / 32, bitOffset % 32;
    ghost var a := WordBits(words[..]);
    OrInto(words, wordIndex, Shl32(code, shift));
    ghost var b := WordBits(words[..]);
    ShiftedUp(code, shift);
    ghost var x := NatBits(Shl32(code, shift), 32);
    if shift > 0 && shift + bits > 32 {
      OrInto(words, wordIndex + 1, Shr32(code, 32 - shift));
      FieldInTwoWords(a, b, WordBits(words[..]), wordIndex, shift, code, bits);
    } else {
      FieldInOneWord(a, b, wordIndex, shift, code, bits);
    }
  }

  lemma FieldInOneWord(a: Bits, b: Bits, w: nat, shift: nat, code: nat, bits: nat)
    requires 0 < bits && shift + bits <= 32 && code < Pow2(bits) && 32 * w + 32 <= |a|
    requires Combined(a, b, 32 * w, NatBits(Shl32(code, shift), 32))
    ensures Combined(a, b, 32 * w + shift, NatBits(code, bits))
  {
    hide NatBits, Pow2, Shl32, Combined;
    ShiftedUp(code, shift);
    HighBitsZero(code, bits, 32 - shift - bits);
    var x, field := NatBits(Shl32(code, shift), 32), NatBits(code, bits);
    assert x == Zeros(shift) + (field + Zeros(32 - shift - bits));
    CombinedSame(a, b, 32 * w + shift, field, 32 * w, x);
  }

  lemma FieldInTwoWords(a: Bits, b: Bits, c: Bits, w: nat, shift: nat, code: nat, bits: nat)
    requires bits <= 32 && 0 < shift < 32 < shift + bits && code < Pow2(bits) && 32 * w + 64 <= |a|
    requires Combined(a, b, 32 * w, NatBits(Shl32(code, shift), 32))
    requires Combined(b, c, 32 * (w + 1), NatBits(Shr32(code, 32 - shift), 32))
    ensures Combined(a, c, 32 * w + shift, NatBits(code, bits))
  {
    hide NatBits, Pow2, Shl32, Shr32, Combined;
    var low := 32 - shift;
    var high: nat := bits - low;
    ShiftedUp(code, shift);
    ShiftedDown(code, low, high);
    ShiftedDown(code, low, 32);
    HighBitsZero(code, bits, low + 32 - bits);
    var x, y, field := NatBits(Shl32(code, shift), 32), NatBits(Shr32(code, low), 32), NatBits(code, bits);
    assert x == Zeros(shift) + NatBits(code, low);
    assert field == NatBits(code, low) + NatBits(Shr32(code, low), high);
    assert y == NatBits(Shr32(code, low), high) + Zeros(32 - high) by {
      assert NatBits(code, low + 32)[low..] == y;
      assert (field + Zeros(low + 32 - bits))[low..] == NatBits(Shr32(code, low), high) + Zeros(32 - high);
    }
    CombinedTwice(a, b, c, 32 * w + shift, field, 32 * w, x, 32 * (w + 1), y);
  }

  /** What a token is written as: up to 64 bits in two words. */
  datatype Field = Field(low: nat, high: nat, bits: nat) {
    predicate Ok() {
      && bits <= 64 && low < WORD && (bits <= 32 ==> low < Pow2(bits) && high == 0)
      && (bits > 32 ==> high < Pow2(bits - 32))
    }

    function Written(): (s: Bits)
      requires Ok()
      ensures |s| == bits
    {
      if bits <= 32 then NatBits(low, bits) else NatBits(low, 32) + NatBits(high, bits - 32)
    }
  }

  lemma CombinedInTurn(a: Bits, b: Bits, c: Bits, offset: nat, x: Bits, y: Bits)
    requires Combined(a, b, offset, x) && Combined(b, c, offset + |x|, y)
    ensures Combined(a, c, offset, x + y)
  {
    forall k | 0 <= k < |a|
      ensures SetAt(x + y, offset, k) <==> SetAt(x, offset, k) || SetAt(y, offset + |x|, k)
    {
    }
    CombinedTwice(a, b, c, offset, x + y, offset, x, offset + |x|, y);
  }

  /** A token's code at its place: its low word, then its high word 32 bits further. */
  method PackField(words: array<nat>, bitOffset: nat, f: Field)
    requires f.Ok() && bitOffset + f.bits <= 32 * words.Length
    modifies words
    ensures Combined(old(WordBits(words[..])), WordBits(words[..]), bitOffset, f.Written())
  {
    hide NatBits, WordBits, Pow2, Combined;
    ghost var a := WordBits(words[..]);
    WordIsPow();
    if f.bits == 0 {
      NoField(a, bitOffset, f.Written());
      return;
    }
    if f.bits <= 32 {
      PackCode(words, bitOffset, f.low, f.bits);
    } else {
      PackCode(words, bitOffset, f.low, 32);
      ghost var b := WordBits(words[..]);
      PackCode(words, bitOffset + 32, f.high, f.bits - 32);
      CombinedInTurn(a, b, WordBits(words[..]), bitOffset, NatBits(f.low, 32), NatBits(f.high, f.bits - 32));
    }
  }

  lemma NoField(a: Bits, offset: nat, field: Bits)
    requires field == []
    ensures Combined(a, a, offset, field)
  {
  }

  // ---- All tokens, in any order ------------------------------------------------------------------

  predicate FieldsOk(fields: seq<Field>) {
    forall i :: 0 <= i < |fields| ==> fields[i].Ok()
  }

  function Lengths(fields: seq<Field>): (r: seq<nat>)
    ensures |r| == |fields| && forall i :: 0 <= i < |r| ==> r[i] == fields[i].bits
  {
    seq(|fields|, i requires 0 <= i < |fields| => fields[i].bits)
  }

  /** The fields one behind the other. */
  function Row(fields: seq<Field>): Bits
    requires FieldsOk(fields)
  {
    if fields == [] then [] else Row(fields[..|fields| - 1]) + fields[|fields| - 1].Written()
  }

  lemma {:induction false} RowLength(fields: seq<Field>, n: nat)
    requires FieldsOk(fields) && n <= |fields|
    ensures |Row(fields[..n])| == Total(Lengths(fields)[..n])
  {
    hide Field.Ok, Field.Written;
    if n > 0 {
      RowLength(fields, n - 1);
      assert fields[..n][..n - 1] == fields[..n - 1] && Lengths(fields)[..n][..n - 1] == Lengths(fields)[..n - 1];
    }
  }

  /** Every field stands in the row behind those in front of it. */
  lemma {:induction false} FieldInRow(fields: seq<Field>, i: nat)
    requires FieldsOk(fields) && i < |fields|
    ensures var o := |Row(fields[..i])|;
            o + fields[i].bits <= |Row(fields)| && Row(fields)[o..o + fields[i].bits] == fields[i].Written()
    decreases |fields|
  {
    hide Field.Ok, Field.Written;
    var n := |fields| - 1;
    if i < n {
      FieldInRow(fields[..n], i);
      assert fields[..n][..i] == fields[..i];
      var o := |Row(fields[..i])|;
      assert Row(fields)[o..o + fields[i].bits] == Row(fields[..n])[o..o + fields[i].bits];
    }
  }

  /** Every bit of the row belongs to a field. */
  lemma {:induction false} RowCovered(fields: seq<Field>, k: nat) returns (i: nat)
    requires FieldsOk(fields) && k < |Row(fields)|
    ensures i < |fields| && |Row(fields[..i])| <= k < |Row(fields[..i])| + fields[i].bits
    decreases |fields|
  {
    hide Field.Ok, Field.Written;
    var n := |fields| - 1;
    if k < |Row(fields[..n])| {
      i := RowCovered(fields[..n], k);
      assert fields[..n][..i] == fields[..i];
    } else {
      i := n;
    }
  }

  /** The field covers a bit at its place and sets it. */
  predicate Sets(fields: seq<Field>, i: nat, base: nat, k: nat)
    requires FieldsOk(fields) && i < |fields|
  {
    SetAt(fields[i].Written(), base + |Row(fields[..i])|, k)
  }

  /** The bits are those from before with the fields of the done tokens. */
  ghost predicate Packed(before: Bits, after: Bits, fields: seq<Field>, base: nat, done: set<nat>)
    requires FieldsOk(fields) && forall i :: i in done ==> i < |fields|
  {
    && |after| == |before|
    && forall k :: 0 <= k < |before| ==> after[k] == (before[k] || exists i :: i in done && Sets(fields, i, base, k))
  }

  lemma PackedMore(a: Bits, b: Bits, c: Bits, fields: seq<Field>, base: nat, done: set<nat>, i: nat)
    requires FieldsOk(fields) && i < |fields| && (forall j :: j in done ==> j < |fields|)
    requires Packed(a, b, fields, base, done) && Combined(b, c, base + |Row(fields[..i])|, fields[i].Written())
    ensures Packed(a, c, fields, base, done + {i})
  {
    hide Row, Field.Ok, Field.Written;
    forall k | 0 <= k < |a|
      ensures c[k] == (a[k] || exists j :: j in done + {i} && Sets(fields, j, base, k))
    {
      if b[k] && !a[k] {
        var j :| j in done && Sets(fields, j, base, k);
        assert j in done + {i};
      }
      if c[k] && !b[k] {
        assert Sets(fields, i, base, k);
      }
    }
  }

  /** When all tokens are packed, the row stands behind the first `base` bits. */
  lemma AllPacked(before: Bits, after: Bits, fields: seq<Field>, base: nat, done: set<nat>)
    requires FieldsOk(fields) && (forall i :: i in done <==> 0 <= i < |fields|)
    requires Packed(before, after, fields, base, done) && base + |Row(fields)| <= |before|
    requires forall k :: base <= k < |before| ==> !before[k]
    ensures after == before[..base] + Row(fields) + Zeros(|before| - base - |Row(fields)|)
  {
    hide Field.Ok, Field.Written, Row, SetAt, Sets;
    forall k | 0 <= k < |before|
      ensures after[k] == if k < base then before[k] else SetAt(Row(fields), base, k)
    {
      OnePacked(before, after, fields, base, done, k);
    }
    Assembled(before, after, Row(fields), base);
  }

  lemma Assembled(before: Bits, after: Bits, row: Bits, base: nat)
    requires |after| == |before| && base + |row| <= |before|
    requires forall k :: 0 <= k < |before| ==> after[k] == if k < base then before[k] else SetAt(row, base, k)
    ensures after == before[..base] + row + Zeros(|before| - base - |row|)
  {
  }

  lemma OnePacked(before: Bits, after: Bits, fields: seq<Field>, base: nat, done: set<nat>, k: nat)
    requires FieldsOk(fields) && (forall i :: i in done <==> 0 <= i < |fields|)
    requires Packed(before, after, fields, base, done) && base + |Row(fields)| <= |before| && k < |before|
    requires base <= k ==> !before[k]
    ensures after[k] == if k < base then before[k] else SetAt(Row(fields), base, k)
  {
    hide Field.Ok, Field.Written, Row, SetAt, Sets;
    if i :| i in done && Sets(fields, i, base, k) {
      SetsRow(fields, i, base, k);
      BehindBase(Row(fields), base, k);
    }
    if SetAt(Row(fields), base, k) {
      var i := RowSets(fields, base, k);
      BehindBase(Row(fields), base, k);
    }
  }

  lemma BehindBase(field: Bits, base: nat, k: nat)
    requires SetAt(field, base, k)
    ensures base <= k
  {
  }

  /** What a field sets, the row sets. */
  lemma SetsRow(fields: seq<Field>, i: nat, base: nat, k: nat)
    requires FieldsOk(fields) && i < |fields| && Sets(fields, i, base, k)
    ensures SetAt(Row(fields), base, k)
  {
    hide Field.Ok, Field.Written, Row;
    FieldInRow(fields, i);
    var o, row := |Row(fields[..i])|, Row(fields);
    assert row[o..o + fields[i].bits][k - base - o] == row[k - base];
  }

  /** What the row sets, some field sets. */
  lemma RowSets(fields: seq<Field>, base: nat, k: nat) returns (i: nat)
    requires FieldsOk(fields) && SetAt(Row(fields), base, k)
    ensures i < |fields| && Sets(fields, i, base, k)
  {
    hide Field.Ok, Field.Written, Row;
    i := RowCovered(fields, k - base);
    FieldInRow(fields, i);
    var o, row := |Row(fields[..i])|, Row(fields);
    assert row[o..o + fields[i].bits][k - base - o] == row[k - base];
  }

  /** All threads, in whatever order they run: behind what stands in the first bits comes the row of all fields. The
      offsets are the prefix sums of the fields' lengths. */
  method Pack(words: array<nat>, base: nat, fields: seq<Field>, order: seq<nat>) returns (totalBits: nat)
    requires FieldsOk(fields) && base + |Row(fields)| <= 32 * words.Length
    requires (forall k :: 0 <= k < |order| ==> order[k] < |fields|) && forall i :: 0 <= i < |fields| ==> i in order
    requires forall k :: base <= k < 32 * words.Length ==> !WordBits(words[..])[k]
    modifies words
    ensures totalBits == |Row(fields)|
    ensures WordBits(words[..]) ==
            old(WordBits(words[..]))[..base] + Row(fields) + Zeros(32 * words.Length - base - |Row(fields)|)
  {
    hide Field.Ok, Field.Written, Row, WordBits, Prefixes, Packed, Combined;
    var bitOffsets, total := PrefixScan(Lengths(fields));
    ghost var a := WordBits(words[..]);
    ghost var done: set<nat> := {};
    NonePacked(a, fields, base);
    for k := 0 to |order|
      invariant (forall i :: i in done ==> i < |fields|) && (forall m :: 0 <= m < k ==> order[m] in done)
      invariant Packed(a, WordBits(words[..]), fields, base, done)
    {
      var i := order[k];
      OffsetInRow(bitOffsets, fields, i);
      ghost var b := WordBits(words[..]);
      FieldInRow(fields, i);
      IsOk(fields, i);
      PackField(words, bitOffsets[i] + base, fields[i]);
      PackedMore(a, b, WordBits(words[..]), fields, base, done, i);
      done := done + {i};
    }
    AllDone(fields, order, done);
    AllPacked(a, WordBits(words[..]), fields, base, done);
    RowLength(fields, |fields|);
    assert fields[..|fields|] == fields && Lengths(fields)[..|fields|] == Lengths(fields);
    return total;
  }

  lemma IsOk(fields: seq<Field>, i: nat)
    requires FieldsOk(fields) && i < |fields|
    ensures fields[i].Ok()
  {
  }

  lemma AllDone(fields: seq<Field>, order: seq<nat>, done: set<nat>)
    requires (forall i :: 0 <= i < |fields| ==> i in order) && forall i :: i in done ==> i < |fields|
    requires forall m :: 0 <= m < |order| ==> order[m] in done
    ensures forall i :: i in done <==> 0 <= i < |fields|
  {
    forall i | 0 <= i < |fields|
      ensures i in done
    {
      assert i in order;
      var m: nat :| m < |order| && order[m] == i;
    }
  }

  lemma NonePacked(a: Bits, fields: seq<Field>, base: nat)
    requires FieldsOk(fields)
    ensures Packed(a, a, fields, base, {})
  {
  }

  lemma OffsetInRow(offsets: seq<nat>, fields: seq<Field>, i: nat)
    requires FieldsOk(fields) && Prefixes(offsets, Lengths(fields)) && i < |fields|
    ensures |offsets| == |fields| && offsets[i] == |Row(fields[..i])|
  {
    hide Field.Ok, Field.Written, Total;
    RowLength(fields, i);
  }
}
