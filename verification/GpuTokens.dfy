/** The GPU tokenizer: the longest match at every position, then one choice of tokens for every segment. Whatever the
    mode and the segment size are, the chosen tokens expand to the input. */
module GpuTokens {
  import opened Options
  import opened Format
  import opened CodeTables
  import opened GpuSymbols

  datatype Mode = Speed | Balanced | Ratio {
    function MaxScan(): nat {
      match this
      case Speed => 64
      case Balanced => 128
      case Ratio => 192
    }

    function MaxLen(): nat {
      match this
      case Speed => 64
      case Balanced => 128
      case Ratio => 258
    }

    /** How many of the distances are tried. */
    function Candidates(): nat {
      match this
      case Speed => 20
      case Balanced => 28
      case Ratio => 32
    }

    /** By how much the next match must be longer to be preferred; 0 when it is not looked at. */
    function LazyDelta(): nat {
      match this
      case Speed => 0
      case Balanced => 1
      case Ratio => 2
    }

    /** The longest match that is found. */
    function Cap(): nat {
      if 3 + MaxScan() < MaxLen() then 3 + MaxScan() else MaxLen()
    }
  }

  const DISTANCES: seq<nat> :=
    [1, 2, 3, 4, 5, 6, 8, 10, 12, 16, 24, 32, 48, 64, 96, 128, 192, 256, 384, 512, 768, 1024, 1536, 2048, 3072, 4096,
     6144, 8192, 12288, 16384, 24576, 32768]

  lemma {:induction false} DistancesAscend32(i: nat, j: nat)
    requires i < j < 32
    ensures |DISTANCES| == 32 && 1 <= DISTANCES[i] < DISTANCES[j] <= 32768
    decreases j - i
  {
    if i + 1 < j {
      DistancesAscend32(i, j - 1);
    }
  }

  /** Behind the first nine, powers of two and three times a power of two alternate up to the mode's farthest
      candidate. */
  lemma CandidatesForm(c: nat, mode: Mode)
    requires 9 <= c < 32
    ensures |DISTANCES| == 32 && DISTANCES[..9] == [1, 2, 3, 4, 5, 6, 8, 10, 12]
    ensures DISTANCES[c] == if c % 2 == 1 then 16 * Pow2((c - 9) / 2) else 24 * Pow2((c - 10) / 2)
    ensures DISTANCES[mode.Candidates() - 1] == match mode case Speed => 512 case Balanced => 8192 case Ratio => 32768
  {
    hide Pow2;
    Powers((c - 9) / 2);
  }

  /** No mode finds matches of the longest length of the format: at most 192 octets are compared behind the first
      three. */
  lemma LongestOfMode(mode: Mode)
    ensures mode.Cap() == match mode case Speed => 64 case Balanced => 128 case Ratio => 195
  {
  }

  /** What the passes keep for an input position. */
  datatype Slot = Slot(flag: bool, isMatch: bool, len: nat, dist: nat, lit: nat)

  // ---- The longest match -------------------------------------------------------------------------

  /** The `len` octets from `i` on are those `dist` octets before them. */
  predicate Repeats(data: seq<nat>, i: nat, dist: nat, len: nat) {
    && 1 <= dist <= i && i + len <= |data|
    && forall k :: i <= k < i + len ==> data[k] == data[k - dist]
  }

  lemma RepeatsShorter(data: seq<nat>, i: nat, dist: nat, len: nat, shorter: nat)
    requires Repeats(data, i, dist, len) && shorter <= len
    ensures Repeats(data, i, dist, shorter)
  {
  }

  /** How many of the next `n` octets are those `dist` octets before them, compared in words of four. */
  method SameOctets(data: seq<nat>, p: nat, dist: nat, n: nat) returns (same: nat)
    requires 1 <= dist <= p && p + n <= |data|
    ensures same <= n && Repeats(data, p, dist, same)
    ensures same < n ==> data[p + same] != data[p + same - dist]
  {
    same := 0;
    while same < n
      invariant same <= n && Repeats(data, p, dist, same)
    {
      if data[p + same] != data[p + same - dist] {
        return;
      }
      same := same + 1;
    }
  }

  /** No octet more could be added to the match. */
  predicate Maximal(data: seq<nat>, i: nat, dist: nat, len: nat, cap: nat)
    requires dist <= i
  {
    len == cap || i + len >= |data| || data[i + len] != data[i + len - dist]
  }

  /** A match of three octets, extended by sixteen octets, by four and by single ones as long as the limits allow. */
  method ExtendMatch(data: seq<nat>, i: nat, dist: nat, mode: Mode) returns (mlen: nat)
    requires Repeats(data, i, dist, 3)
    ensures Repeats(data, i, dist, mlen) && 3 <= mlen <= mode.Cap() && Maximal(data, i, dist, mlen, mode.Cap())
  {
    var n, maxLen, maxScan := |data|, mode.MaxLen(), mode.MaxScan();
    mlen := 3;
    var mismatch := false;
    while !mismatch && !(i + mlen + 15 >= n || mlen + 16 > maxLen || mlen - 3 + 16 > maxScan)
      invariant 3 <= mlen <= mode.Cap() && Repeats(data, i, dist, mlen)
      invariant mismatch ==> i + mlen < n && data[i + mlen] != data[i + mlen - dist]
      decreases n - mlen, !mismatch
    {
      var same := SameOctets(data, i + mlen, dist, 16);
      mismatch := same < 16;
      mlen := mlen + same;
    }
    mismatch := false;
    while !mismatch && !(i + mlen + 3 >= n || mlen + 4 > maxLen || mlen - 3 + 4 > maxScan)
      invariant 3 <= mlen <= mode.Cap() && Repeats(data, i, dist, mlen)
      decreases n - mlen, !mismatch
    {
      var same := SameOctets(data, i + mlen, dist, 4);
      mismatch := same < 4;
      mlen := mlen + same;
    }
    while !(i + mlen >= n || mlen >= maxLen || mlen - 3 >= maxScan) && data[i + mlen] == data[i + mlen - dist]
      invariant 3 <= mlen <= mode.Cap() && Repeats(data, i, dist, mlen)
      decreases n - mlen
    {
      mlen := mlen + 1;
    }
  }

  /** A match that may be taken: true, within the limits, and at one of the mode's distances. */
  ghost predicate Usable(data: seq<nat>, i: nat, mode: Mode, len: nat, dist: nat) {
    && 3 <= len <= mode.Cap() && Repeats(data, i, dist, len)
    && exists c :: 0 <= c < mode.Candidates() && c < |DISTANCES| && DISTANCES[c] == dist
  }

  /** No candidate up to `limit` gives a longer match, and none of the same length is nearer. */
  ghost predicate NoneBetter(data: seq<nat>, i: nat, mode: Mode, len: nat, dist: nat, limit: nat) {
    forall c, m :: 0 <= c < limit && c < |DISTANCES| && 3 <= m <= mode.Cap() && Repeats(data, i, DISTANCES[c], m) ==>
      m <= len && (m == len ==> dist <= DISTANCES[c])
  }

  /** The best match at a position, or none. */
  ghost predicate Best(data: seq<nat>, i: nat, mode: Mode, len: nat, dist: nat) {
    && (Usable(data, i, mode, len, dist) || (len == 0 && dist == 0))
    && NoneBetter(data, i, mode, len, dist, mode.Candidates())
  }

  lemma MaximalIsLongest(data: seq<nat>, i: nat, dist: nat, len: nat, cap: nat, m: nat)
    requires Repeats(data, i, dist, len) && Maximal(data, i, dist, len, cap) && m <= cap && Repeats(data, i, dist, m)
    ensures m <= len
  {
  }

  lemma CandidateAdded(data: seq<nat>, i: nat, mode: Mode, c: nat, len: nat, dist: nat, mlen: nat)
    requires c < mode.Candidates() <= |DISTANCES| && NoneBetter(data, i, mode, len, dist, c)
    requires len == dist == 0 || exists b :: 0 <= b < c && DISTANCES[b] == dist
    requires Repeats(data, i, DISTANCES[c], mlen) && Maximal(data, i, DISTANCES[c], mlen, mode.Cap()) && mlen >= 3
    ensures if mlen > len then NoneBetter(data, i, mode, mlen, DISTANCES[c], c + 1)
            else dist < DISTANCES[c] && NoneBetter(data, i, mode, len, dist, c + 1)
  {
    hide Repeats, Maximal;
    forall b: nat | b < c
      ensures DISTANCES[b] < DISTANCES[c]
    {
      DistancesAscend32(b, c);
    }
    forall m: nat | 3 <= m <= mode.Cap() && Repeats(data, i, DISTANCES[c], m)
      ensures m <= mlen
    {
      MaximalIsLongest(data, i, DISTANCES[c], mlen, mode.Cap(), m);
    }
  }

  lemma CandidateSkipped(data: seq<nat>, i: nat, mode: Mode, c: nat, len: nat, dist: nat)
    requires c < |DISTANCES| && NoneBetter(data, i, mode, len, dist, c)
    requires !Repeats(data, i, DISTANCES[c], 3)
    ensures NoneBetter(data, i, mode, len, dist, c + 1)
  {
    hide Repeats;
    forall m: nat | m >= 3 && Repeats(data, i, DISTANCES[c], m)
      ensures false
    {
      RepeatsShorter(data, i, DISTANCES[c], m, 3);
    }
  }

  /** At the longest length of all, farther candidates cannot be better. */
  lemma RestIsWorse(data: seq<nat>, i: nat, mode: Mode, c: nat, len: nat, dist: nat)
    requires c <= |DISTANCES| == 32 && NoneBetter(data, i, mode, len, dist, c) && len >= mode.Cap()
    requires exists b :: 0 <= b < c && DISTANCES[b] == dist
    ensures NoneBetter(data, i, mode, len, dist, mode.Candidates())
  {
    hide Repeats;
    var b :| 0 <= b < c && DISTANCES[b] == dist;
    forall d: nat | c <= d < |DISTANCES|
      ensures dist <= DISTANCES[d]
    {
      DistancesAscend32(b, d);
    }
  }

  /** What the first `c` candidates give. */
  ghost predicate Found(data: seq<nat>, i: nat, mode: Mode, len: nat, dist: nat, c: nat)
    requires c <= |DISTANCES|
  {
    && NoneBetter(data, i, mode, len, dist, c)
    && (len == dist == 0 || (Usable(data, i, mode, len, dist) && exists b :: 0 <= b < c && DISTANCES[b] == dist))
  }

  lemma FoundAdded(data: seq<nat>, i: nat, mode: Mode, c: nat, len: nat, dist: nat, mlen: nat)
    requires c < mode.Candidates() <= |DISTANCES| && Found(data, i, mode, len, dist, c)
    requires 3 <= mlen <= mode.Cap() && Repeats(data, i, DISTANCES[c], mlen)
    requires Maximal(data, i, DISTANCES[c], mlen, mode.Cap())
    ensures if mlen > len then Found(data, i, mode, mlen, DISTANCES[c], c + 1)
            else dist != 0 && dist < DISTANCES[c] && Found(data, i, mode, len, dist, c + 1)
  {
    hide Repeats, Maximal, NoneBetter;
    CandidateAdded(data, i, mode, c, len, dist, mlen);
    assert exists b :: 0 <= b < c + 1 && DISTANCES[b] == DISTANCES[c];
  }

  lemma FoundSkipped(data: seq<nat>, i: nat, mode: Mode, c: nat, len: nat, dist: nat)
    requires c < |DISTANCES| && Found(data, i, mode, len, dist, c) && !Repeats(data, i, DISTANCES[c], 3)
    ensures Found(data, i, mode, len, dist, c + 1)
  {
    hide Repeats, NoneBetter, Usable;
    CandidateSkipped(data, i, mode, c, len, dist);
  }

  lemma FoundAll(data: seq<nat>, i: nat, mode: Mode, c: nat, len: nat, dist: nat)
    requires c <= |DISTANCES| == 32 && Found(data, i, mode, len, dist, c)
    requires c == mode.Candidates() || len >= mode.MaxLen()
    ensures Best(data, i, mode, len, dist)
  {
    hide Repeats, NoneBetter;
    if c != mode.Candidates() {
      RestIsWorse(data, i, mode, c, len, dist);
    }
  }

  /** The longest match among the candidate distances, and the nearest of those. */
  method LongestMatch(data: seq<nat>, i: nat, mode: Mode) returns (bestLen: nat, bestDist: nat)
    requires i < |data|
    ensures Best(data, i, mode, bestLen, bestDist)
  {
    hide Repeats, Maximal, Best, Found;
    bestLen, bestDist := 0, 0;
    DistancesAscend32(0, 31);
    NothingYet(data, i, mode);
    for c := 0 to mode.Candidates()
      invariant Found(data, i, mode, bestLen, bestDist, c)
    {
      var dist := DISTANCES[c];
      var starts := StartsMatch(data, i, dist);
      if starts {
        var mlen := ExtendMatch(data, i, dist, mode);
        FoundAdded(data, i, mode, c, bestLen, bestDist, mlen);
        if mlen > bestLen || (mlen == bestLen && (bestDist == 0 || dist < bestDist)) {
          bestLen, bestDist := mlen, dist;
          if bestLen >= mode.MaxLen() {
            FoundAll(data, i, mode, c + 1, bestLen, bestDist);
            return;
          }
        }
      } else {
        FoundSkipped(data, i, mode, c, bestLen, bestDist);
      }
    }
    FoundAll(data, i, mode, mode.Candidates(), bestLen, bestDist);
  }

  lemma NothingYet(data: seq<nat>, i: nat, mode: Mode)
    ensures Found(data, i, mode, 0, 0, 0)
  {
  }

  /** The first three octets agree. */
  method StartsMatch(data: seq<nat>, i: nat, dist: nat) returns (r: bool)
    requires i < |data| && dist >= 1
    ensures r <==> Repeats(data, i, dist, 3)
  {
    r := dist <= i && i + 2 < |data| && data[i] == data[i - dist] && data[i + 1] == data[i + 1 - dist]
         && data[i + 2] == data[i + 2 - dist];
  }

  /** Every position has its octet and its best match, and no token has been chosen. */
  ghost predicate Tokenized(data: seq<nat>, slots: seq<Slot>, mode: Mode) {
    && |slots| == |data|
    && forall i :: 0 <= i < |data| ==>
         && slots[i].lit == data[i] && !slots[i].flag && !slots[i].isMatch
         && Best(data, i, mode, slots[i].len, slots[i].dist)
  }

  method Tokenize(data: seq<nat>, mode: Mode) returns (slots: array<Slot>)
    ensures fresh(slots) && Tokenized(data, slots[..], mode)
  {
    hide Best;
    slots := new Slot[|data|](_ => Slot(false, false, 0, 0, 0));
    for i := 0 to |data|
      invariant forall k :: 0 <= k < i ==>
                  && slots[k].lit == data[k] && !slots[k].flag && !slots[k].isMatch
                  && Best(data, k, mode, slots[k].len, slots[k].dist)
    {
      var len, dist := LongestMatch(data, i, mode);
      slots[i] := Slot(false, false, len, dist, data[i]);
    }
  }

  // ---- The choice of tokens ----------------------------------------------------------------------

  function Min(a: nat, b: nat): nat {
    if a < b then a else b
  }

  /** The match at `i` is taken: cut off at the segment's end it is long enough, and the next one is not so much longer
      that it is preferred. */
  predicate Takes(slots: seq<Slot>, i: nat, segEnd: nat, delta: nat)
    requires i < segEnd <= |slots|
  {
    var mlen := Min(slots[i].len, segEnd - i);
    && slots[i].len >= 3 && slots[i].dist > 0 && mlen >= 3
    && !(delta > 0 && i + 1 < segEnd && slots[i + 1].len >= 3 && slots[i + 1].dist > 0
         && Min(slots[i + 1].len, segEnd - (i + 1)) >= mlen + delta)
  }

  /** The lazy rule: a match that can be used is taken unless the next position has a longer one, by two octets for the
      best ratio; for speed the next position is not looked at. */
  lemma LazyRule(slots: seq<Slot>, i: nat, segEnd: nat, mode: Mode)
    requires i < segEnd <= |slots|
    ensures Takes(slots, i, segEnd, mode.LazyDelta()) <==>
              && InSegment(slots, i, segEnd) >= 3
              && (mode.Speed? || i + 1 == segEnd
                  || InSegment(slots, i + 1, segEnd) < InSegment(slots, i, segEnd) + if mode.Balanced? then 1 else 2)
  {
  }

  /** The length of the match at a position as far as it lies in the segment; 0 without one. */
  function InSegment(slots: seq<Slot>, i: nat, segEnd: nat): nat
    requires i < segEnd <= |slots|
  {
    if slots[i].len < 3 || slots[i].dist == 0 then 0
    else if slots[i].len <= segEnd - i then slots[i].len
    else segEnd - i
  }

  /** The token chosen at a position where one starts. */
  function ChosenSlot(slots: seq<Slot>, i: nat, segEnd: nat, delta: nat): Slot
    requires i < segEnd <= |slots|
  {
    if Takes(slots, i, segEnd, delta) then
      Slot(true, true, Min(slots[i].len, segEnd - i), slots[i].dist, slots[i].lit)
    else Slot(true, false, 0, 0, slots[i].lit)
  }

  function Width(s: Slot): nat {
    if s.isMatch then s.len else 1
  }

  /** The chosen tokens from `i` on lie one behind the other and end at `j`. */
  ghost predicate Covers(before: seq<Slot>, s: seq<Slot>, i: nat, j: nat, segEnd: nat, delta: nat)
    requires j <= segEnd <= |s| == |before|
    decreases j - i
  {
    i == j ||
    (i < j && s[i] == ChosenSlot(before, i, segEnd, delta) && 1 <= Width(s[i]) <= j - i
     && (forall k :: i < k < i + Width(s[i]) ==> !s[k].flag)
     && Covers(before, s, i + Width(s[i]), j, segEnd, delta))
  }

  /** Only the slots in between count. */
  lemma {:induction false} CoversFrame(before: seq<Slot>, s: seq<Slot>, s': seq<Slot>, i: nat, j: nat, segEnd: nat,
      delta: nat)
    requires i <= j <= segEnd <= |s| == |before| == |s'| && Covers(before, s, i, j, segEnd, delta)
    requires forall k :: i <= k < j ==> s'[k] == s[k]
    ensures Covers(before, s', i, j, segEnd, delta)
    decreases j - i
  {
    hide ChosenSlot;
    if i < j {
      CoversFrame(before, s, s', i + Width(s[i]), j, segEnd, delta);
    }
  }

  /** One token more. */
  lemma {:induction false} CoversMore(before: seq<Slot>, s: seq<Slot>, i: nat, j: nat, segEnd: nat, delta: nat)
    requires i <= j < segEnd <= |s| == |before| && Covers(before, s, i, j, segEnd, delta)
    requires s[j] == ChosenSlot(before, j, segEnd, delta) && 1 <= Width(s[j]) <= segEnd - j
    requires forall k :: j < k < j + Width(s[j]) ==> !s[k].flag
    ensures Covers(before, s, i, j + Width(s[j]), segEnd, delta)
    decreases j - i
  {
    hide ChosenSlot;
    if i < j {
      CoversMore(before, s, i + Width(s[i]), j, segEnd, delta);
    }
  }

  /** One segment: from its start to its end, token by token. */
  method FinalizeSegment(slots: array<Slot>, segStart: nat, segEnd: nat, mode: Mode, ghost before: seq<Slot>)
    requires segStart < segEnd <= slots.Length == |before|
    requires forall k :: segStart <= k < slots.Length ==> slots[k] == before[k]
    modifies slots
    ensures Covers(before, slots[..], segStart, segEnd, segEnd, mode.LazyDelta())
    ensures forall k :: 0 <= k < slots.Length && !(segStart <= k < segEnd) ==> slots[k] == old(slots[k])
  {
    hide Covers;
    var i, delta := segStart, mode.LazyDelta();
    CoversNothing(before, slots[..], segStart, segEnd, delta);
    while i < segEnd
      invariant segStart <= i <= segEnd && Covers(before, slots[..], segStart, i, segEnd, delta)
      invariant forall k :: 0 <= k < slots.Length && !(segStart <= k < i) ==> slots[k] == old(slots[k])
      decreases segEnd - i
    {
      ghost var sofar := slots[..];
      var width := FinalizeAt(slots, i, segEnd, delta, before);
      CoversFrame(before, sofar, slots[..], segStart, i, segEnd, delta);
      CoversMore(before, slots[..], segStart, i, segEnd, delta);
      i := i + width;
    }
  }

  lemma CoversNothing(before: seq<Slot>, s: seq<Slot>, i: nat, segEnd: nat, delta: nat)
    requires i <= segEnd <= |s| == |before|
    ensures Covers(before, s, i, i, segEnd, delta)
  {
  }

  /** The token at `i`: a match and the positions that it covers, or a literal. */
  method FinalizeAt(slots: array<Slot>, i: nat, segEnd: nat, delta: nat, ghost before: seq<Slot>) returns (width: nat)
    requires i < segEnd <= slots.Length == |before| && forall k :: i <= k < slots.Length ==> slots[k] == before[k]
    modifies slots
    ensures slots[i] == ChosenSlot(before, i, segEnd, delta) && width == Width(slots[i]) && 1 <= width <= segEnd - i
    ensures forall k :: i < k < i + width ==> !slots[k].flag
    ensures forall k :: 0 <= k < slots.Length && !(i <= k < i + width) ==> slots[k] == old(slots[k])
  {
    var slot := slots[i];
    var mlen := Min(slot.len, segEnd - i);
    var takeMatch := slot.len >= 3 && slot.dist > 0 && mlen >= 3;
    if takeMatch && delta > 0 && i + 1 < segEnd && slots[i + 1].len >= 3 && slots[i + 1].dist > 0 {
      var nextLen := Min(slots[i + 1].len, segEnd - (i + 1));
      if nextLen >= mlen + delta {
        takeMatch := false;
      }
    }
    if !takeMatch {
      slots[i] := slot.(flag := true, isMatch := false, len := 0, dist := 0);
      return 1;
    }
    slots[i] := slot.(flag := true, isMatch := true, len := mlen);
    for j := 1 to mlen
      invariant slots[i] == slot.(flag := true, isMatch := true, len := mlen)
      invariant forall k :: i < k < i + j ==> !slots[k].flag
      invariant forall k :: 0 <= k < slots.Length && !(i <= k < i + j) ==> slots[k] == old(slots[k])
    {
      slots[i + j] := slots[i + j].(flag := false, isMatch := false, len := 0, dist := 0);
    }
    return mlen;
  }

  // ---- What the tokens mean ----------------------------------------------------------------------

  function TokenOfSlot(s: Slot): Token {
    if s.isMatch then Match(s.len, s.dist) else Literal(s.lit)
  }

  /** The tokens of the flagged positions from `i` on. */
  function Chosen(s: seq<Slot>, i: nat): seq<Token>
    requires i <= |s|
    decreases |s| - i
  {
    if i == |s| then [] else (if s[i].flag then [TokenOfSlot(s[i])] else []) + Chosen(s, i + 1)
  }

  lemma {:induction false} NoneChosen(s: seq<Slot>, i: nat, j: nat)
    requires i <= j <= |s| && forall k :: i <= k < j ==> !s[k].flag
    ensures Chosen(s, i) == Chosen(s, j)
    decreases j - i
  {
    if i < j {
      NoneChosen(s, i + 1, j);
    }
  }

  /** The chosen tokens lie one behind the other up to the end, each of them true. */
  ghost predicate Tiles(data: seq<nat>, s: seq<Slot>, i: nat)
    requires i <= |s| == |data|
    decreases |s| - i
  {
    i == |s| ||
    (s[i].flag && Width(s[i]) >= 1 && i + Width(s[i]) <= |s| && Codable(TokenOfSlot(s[i]))
     && (if s[i].isMatch then Repeats(data, i, s[i].dist, s[i].len) else s[i].lit == data[i])
     && (forall k :: i < k < i + Width(s[i]) ==> !s[k].flag)
     && Tiles(data, s, i + Width(s[i])))
  }

  lemma {:induction false} CopyIsData(data: seq<nat>, i: nat, len: nat, dist: nat)
    requires Repeats(data, i, dist, len)
    ensures CopyMatch(data[..i], len, dist) == data[..i + len]
    decreases len
  {
    if len > 0 {
      var out := data[..i];
      assert out + [out[|out| - dist]] == data[..i + 1];
      assert Repeats(data, i + 1, dist, len - 1);
      CopyIsData(data, i + 1, len - 1, dist);
    }
  }

  /** Tokens that tile the input expand to it. */
  lemma {:induction false} TilesExpand(data: seq<nat>, s: seq<Slot>, i: nat)
    requires i <= |s| == |data| && Tiles(data, s, i)
    ensures Expand(Chosen(s, i), data[..i]) == Some(data)
    decreases |s| - i
  {
    hide Repeats, Codable, CopyMatch, Expand;
    if i == |s| {
      assert data[..i] == data;
      NothingExpands(data[..i]);
    } else {
      var w := Width(s[i]);
      NoneChosen(s, i + 1, i + w);
      TilesExpand(data, s, i + w);
      TokenExpands(data, i, s[i], Chosen(s, i + w));
      assert Chosen(s, i) == [TokenOfSlot(s[i])] + Chosen(s, i + w);
    }
  }

  lemma NothingExpands(out: seq<nat>)
    ensures Expand([], out) == Some(out)
  {
  }

  /** A true token gives the next octets of the data. */
  lemma TokenExpands(data: seq<nat>, i: nat, slot: Slot, rest: seq<Token>)
    requires i < |data| && Width(slot) >= 1 && i + Width(slot) <= |data|
    requires if slot.isMatch then Repeats(data, i, slot.dist, slot.len) else slot.lit == data[i]
    ensures Expand([TokenOfSlot(slot)] + rest, data[..i]) == Expand(rest, data[..i + Width(slot)])
  {
    hide Repeats, CopyMatch;
    var tokens := [TokenOfSlot(slot)] + rest;
    assert tokens[1..] == rest;
    if slot.isMatch {
      CopyIsData(data, i, slot.len, slot.dist);
      MatchInside(data, i, slot.dist, slot.len);
    } else {
      assert data[..i] + [data[i]] == data[..i + 1];
    }
  }

  lemma MatchInside(data: seq<nat>, i: nat, dist: nat, len: nat)
    requires Repeats(data, i, dist, len)
    ensures 0 < dist <= |data[..i]|
  {
  }

  predicate Octets(data: seq<nat>) {
    forall i :: 0 <= i < |data| ==> data[i] < 256
  }

  lemma ChosenIsTrue(data: seq<nat>, before: seq<Slot>, i: nat, segEnd: nat, mode: Mode)
    requires Tokenized(data, before, mode) && i < segEnd <= |before| && Octets(data)
    ensures var s := ChosenSlot(before, i, segEnd, mode.LazyDelta());
            && Codable(TokenOfSlot(s))
            && if s.isMatch then Repeats(data, i, s.dist, s.len) else s.lit == data[i]
  {
    hide Repeats, NoneBetter;
    assert Best(data, i, mode, before[i].len, before[i].dist);
    var s := ChosenSlot(before, i, segEnd, mode.LazyDelta());
    if s.isMatch {
      RepeatsShorter(data, i, before[i].dist, before[i].len, s.len);
      UsableIsCodable(data, i, mode, before[i].len, before[i].dist);
    }
  }

  lemma UsableIsCodable(data: seq<nat>, i: nat, mode: Mode, len: nat, dist: nat)
    requires Usable(data, i, mode, len, dist)
    ensures len <= 258 && 1 <= dist <= 32768
  {
    hide Repeats;
    var c :| 0 <= c < mode.Candidates() && c < |DISTANCES| && DISTANCES[c] == dist;
    if c < 31 {
      DistancesAscend32(c, 31);
    } else {
      DistancesAscend32(0, 31);
    }
  }

  /** A covered segment in front of tiles. */
  lemma {:induction false} CoversTiles(data: seq<nat>, before: seq<Slot>, s: seq<Slot>, i: nat, segEnd: nat, mode: Mode)
    requires i <= segEnd <= |s| == |before| == |data| && Tokenized(data, before, mode) && Octets(data)
    requires Covers(before, s, i, segEnd, segEnd, mode.LazyDelta()) && Tiles(data, s, segEnd)
    ensures Tiles(data, s, i)
    decreases segEnd - i
  {
    hide Repeats, Tokenized, ChosenSlot, Codable;
    if i < segEnd {
      ChosenIsTrue(data, before, i, segEnd, mode);
      ChosenFlag(before, i, segEnd, mode.LazyDelta());
      CoversTiles(data, before, s, i + Width(s[i]), segEnd, mode);
    }
  }

  lemma ChosenFlag(before: seq<Slot>, i: nat, segEnd: nat, delta: nat)
    requires i < segEnd <= |before|
    ensures ChosenSlot(before, i, segEnd, delta).flag
  {
  }

  /** Where the segment that starts at `i` ends. */
  function SegEnd(i: nat, segSize: nat, n: nat): nat {
    Min(i + segSize, n)
  }

  /** The segments up to `hi` have been covered. */
  ghost predicate Segmented(before: seq<Slot>, s: seq<Slot>, hi: nat, segSize: nat, delta: nat)
    requires |s| == |before| && segSize >= 1
    decreases hi
  {
    hi == 0 ||
    (segSize <= hi && hi - segSize < |s| && Segmented(before, s, hi - segSize, segSize, delta)
     && var segEnd := SegEnd(hi - segSize, segSize, |s|);
        Covers(before, s, hi - segSize, segEnd, segEnd, delta))
  }

  lemma {:induction false} SegmentsTile(data: seq<nat>, before: seq<Slot>, s: seq<Slot>, hi: nat, segSize: nat,
      mode: Mode)
    requires |s| == |before| == |data| && segSize >= 1 && Tokenized(data, before, mode) && Octets(data)
    requires Segmented(before, s, hi, segSize, mode.LazyDelta()) && Tiles(data, s, Min(hi, |s|))
    ensures Tiles(data, s, 0)
    decreases hi
  {
    hide Covers, Tokenized, Tiles;
    if hi > 0 {
      CoversTiles(data, before, s, hi - segSize, SegEnd(hi - segSize, segSize, |s|), mode);
      SegmentsTile(data, before, s, hi - segSize, segSize, mode);
    }
  }

  lemma NoTiles(data: seq<nat>, s: seq<Slot>)
    requires |s| == |data|
    ensures Tiles(data, s, |s|)
  {
  }

  lemma {:induction false} SegmentsFrame(before: seq<Slot>, s: seq<Slot>, s': seq<Slot>, hi: nat, segSize: nat,
      delta: nat)
    requires |s| == |before| == |s'| && segSize >= 1 && Segmented(before, s, hi, segSize, delta)
    requires forall k :: 0 <= k < hi && k < |s| ==> s'[k] == s[k]
    ensures Segmented(before, s', hi, segSize, delta)
    decreases hi
  {
    hide Covers;
    if hi > 0 {
      var segEnd := SegEnd(hi - segSize, segSize, |s|);
      SegmentsFrame(before, s, s', hi - segSize, segSize, delta);
      CoversFrame(before, s, s', hi - segSize, segEnd, segEnd, delta);
    }
  }

  /** All segments; each only looks at its own slots, so their order does not matter. */
  method Finalize(slots: array<Slot>, segSize: nat, mode: Mode) returns (ghost hi: nat)
    requires segSize >= 1
    modifies slots
    ensures hi >= slots.Length && Segmented(old(slots[..]), slots[..], hi, segSize, mode.LazyDelta())
  {
    hide Covers, Segmented;
    ghost var before := slots[..];
    var segStart := 0;
    NoSegments(before, slots[..], segSize, mode.LazyDelta());
    while segStart < slots.Length
      invariant forall k :: segStart <= k < slots.Length ==> slots[k] == before[k]
      invariant Segmented(before, slots[..], segStart, segSize, mode.LazyDelta())
      decreases slots.Length - segStart
    {
      ghost var sofar := slots[..];
      var segEnd := SegEnd(segStart, segSize, slots.Length);
      FinalizeSegment(slots, segStart, segEnd, mode, before);
      SegmentsFrame(before, sofar, slots[..], segStart, segSize, mode.LazyDelta());
      SegmentAdded(before, slots[..], segStart, segSize, mode.LazyDelta());
      segStart := segStart + segSize;
    }
    hi := segStart;
  }

  lemma NoSegments(before: seq<Slot>, s: seq<Slot>, segSize: nat, delta: nat)
    requires |s| == |before| && segSize >= 1
    ensures Segmented(before, s, 0, segSize, delta)
  {
  }

  lemma SegmentAdded(before: seq<Slot>, s: seq<Slot>, lo: nat, segSize: nat, delta: nat)
    requires |s| == |before| && segSize >= 1 && lo < |s| && Segmented(before, s, lo, segSize, delta)
    requires Covers(before, s, lo, SegEnd(lo, segSize, |s|), SegEnd(lo, segSize, |s|), delta)
    ensures Segmented(before, s, lo + segSize, segSize, delta)
  {
    hide Covers;
  }

  /** The two passes: what they choose are tokens that the coders accept, and they expand to the input. */
  method ChooseTokens(data: seq<nat>, segSize: nat, mode: Mode) returns (slots: array<Slot>)
    requires segSize >= 1 && Octets(data)
    ensures fresh(slots) && slots.Length == |data| && Tiles(data, slots[..], 0)
    ensures Expand(Chosen(slots[..], 0), []) == Some(data)
  {
    hide Tokenized, Segmented, Tiles, Chosen, Expand;
    slots := Tokenize(data, mode);
    ghost var before := slots[..];
    SlotPerOctet(data, before, mode);
    ghost var hi := Finalize(slots, segSize, mode);
    NoTiles(data, slots[..]);
    SegmentsTile(data, before, slots[..], hi, segSize, mode);
    TilesExpand(data, slots[..], 0);
    assert data[..0] == [];
  }

  lemma SlotPerOctet(data: seq<nat>, slots: seq<Slot>, mode: Mode)
    requires Tokenized(data, slots, mode)
    ensures |slots| == |data|
  {
  }
}
