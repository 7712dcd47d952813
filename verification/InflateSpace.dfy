/**
  How much space the tables of a complete code take.  A table of the second level
  has as many entries as codes in it if those are of one length, and more
  otherwise; but what it has more, later ones cannot have again, since lengths
  only grow along the order of symbols.
 */
module InflateSpace {
  import opened Bits
  import opened Canonical
  import opened InflateOrder

  // ----- places along the order ---------------------------------------------------------------

  lemma PlaceNext(lens: seq<nat>, work: seq<nat>, k: nat)
    requires SortedSymbols(work, lens) && ValidLens(lens) && k + 1 < |work|
    ensures lens[work[k]] <= lens[work[k + 1]]
    ensures Place(lens, work[k + 1]) == Place(lens, work[k]) + Pow2(MAXBITS - lens[work[k]])
  {
    hide Shl, Pow2, CodeOf;
    var s, t := work[k], work[k + 1];
    SortedFollows(work, lens, k);
    NextIsIncrement(lens, s, t);
    ShlShl(CodeOf(lens, s) + 1, lens[t] - lens[s], MAXBITS - lens[t]);
    ShlAdd(CodeOf(lens, s), 1, MAXBITS - lens[s]);
    ShlOne(MAXBITS - lens[s]);
  }

  /** While a complete code has not reached the end there is a next symbol. */
  lemma NextExists(lens: seq<nat>, work: seq<nat>, k: nat)
    requires SortedSymbols(work, lens) && ValidLens(lens) && Prefix(lens) && Complete(lens) && k < |work|
    requires Place(lens, work[k]) + Pow2(MAXBITS - lens[work[k]]) < Pow2(MAXBITS)
    ensures k + 1 < |work|
  {
    hide Shl, Pow2, CodeOf, Place, BeginOf, Prefix;
    var p := Place(lens, work[k]) + Pow2(MAXBITS - lens[work[k]]);
    EndOfAll(lens);
    var b := FindLength(lens, p, MAXBITS);
    var s := SymbolAt(lens, p, b);
    var j :| 0 <= j < |work| && work[j] == s;
    if j < k { PlaceOrder(lens, s, work[k]); }
  }

  lemma EndOfAll(lens: seq<nat>)
    requires Complete(lens)
    ensures EndOf(lens, MAXBITS) == Pow2(MAXBITS)
  {
    hide Pow2, NextCode, Count;
  }

  /** No code goes beyond the end. */
  lemma WithinAll(lens: seq<nat>, s: nat)
    requires s < |lens| && 1 <= lens[s] <= MAXBITS && Complete(lens)
    ensures Place(lens, s) + Pow2(MAXBITS - lens[s]) <= Pow2(MAXBITS)
  {
    hide Pow2, Place, Shl, NextCode, Count, EndOf;
    EndOfAll(lens);
    PlaceRange(lens, s);
    if lens[s] < MAXBITS { EndMono(lens, lens[s], MAXBITS); }
  }

  lemma {:induction false} ShlGrows(x: nat, d: nat)
    requires x >= 1
    ensures Shl(x, d) >= x + d
  {
    if d > 0 { ShlGrows(x, d - 1); }
  }

  /**
    From symbol k on, t codes of its length would fill the range up to `end`.  If
    codes shorter than `top` do not, then more codes are needed: one more for each
    bit that lengths have to grow.
   */
  lemma {:induction false} FillsUpTo(lens: seq<nat>, work: seq<nat>, k: nat, t: nat, end: nat, top: nat) returns (e: nat)
    requires SortedSymbols(work, lens) && ValidLens(lens) && Prefix(lens) && Complete(lens) && k < |work| && t >= 1
    requires Place(lens, work[k]) + Shl(t, MAXBITS - lens[work[k]]) == end <= Pow2(MAXBITS)
    requires 1 <= top <= MAXBITS && (top <= lens[work[k]] || EndOf(lens, top - 1) < end)
    ensures k < e <= |work| && e - k >= t + (top - lens[work[k]]) as int
    ensures lens[work[e - 1]] >= top && Place(lens, work[e - 1]) < end
    decreases |work| - k
  {
    hide Shl, Pow2, CodeOf, Place, EndOf, Prefix, Complete;
    var s := work[k];
    var d := MAXBITS - lens[s];
    ShlAdd(1, t - 1, d);
    ShlOne(d);
    if t == 1 {
      e := k + 1;
      PlaceRange(lens, s);
      if lens[s] < top - 1 { EndMono(lens, lens[s], top - 1); }
    } else {
      ShlMono(0, t - 1, d);
      NextExists(lens, work, k);
      PlaceNext(lens, work, k);
      var u := work[k + 1];
      ShlShl(t - 1, lens[u] - lens[s], MAXBITS - lens[u]);
      ShlGrows(t - 1, lens[u] - lens[s]);
      e := FillsUpTo(lens, work, k + 1, Shl(t - 1, lens[u] - lens[s]), end, top);
    }
  }

  // ----- the budget ------------------------------------------------------------------------------

  /**
    What tables from depth a on can take beyond one entry for each code: as much as
    one table does whose codes grow from a bits to m.
   */
  ghost function Excess(a: nat, m: nat): int {
    Pow2(m) - Pow2(a) - (m - a)
  }

  lemma {:induction false} PowGrows(a: nat, b: nat)
    requires a <= b
    ensures Pow2(b) >= Pow2(a) + (b - a)
  {
    if a < b { PowGrows(a, b - 1); }
  }

  /** With `used` entries so far and symbol k to begin a table, no more than `limit` will be used. */
  ghost predicate InBudget(lens: seq<nat>, work: seq<nat>, root: nat, max: nat, k: nat, used: nat, limit: nat)
    requires SortedSymbols(work, lens) && k < |work|
  {
    && root < lens[work[k]] <= max
    && used + (|work| - k) + Excess(lens[work[k]] - root, max - root) <= limit
  }

  /** The range of the root entry that cur's code begins. */
  ghost predicate SlotStart(lens: seq<nat>, root: nat, cur: nat)
    requires cur < |lens|
  {
    root < lens[cur] <= MAXBITS && Place(lens, cur) == Shl(RootPrefix(lens, root, cur), MAXBITS - root)
  }

  /** A table of 2^curr entries for the range from cur on is not larger than needed. */
  ghost predicate Tight(lens: seq<nat>, root: nat, cur: nat, curr: nat)
    requires cur < |lens|
  {
    && root < lens[cur] <= root + curr <= MAXBITS
    && (root + curr == lens[cur] || EndOf(lens, root + curr - 1) < Place(lens, cur) + Pow2(MAXBITS - root))
  }

  /** The first symbol of a range and how many codes of its length would fill it. */
  lemma SlotWidth(lens: seq<nat>, root: nat, cur: nat)
    requires cur < |lens| && root < lens[cur] <= MAXBITS
    ensures Shl(Pow2(lens[cur] - root), MAXBITS - lens[cur]) == Pow2(MAXBITS - root)
  {
    ShlPow2(lens[cur] - root, MAXBITS - lens[cur]);
  }

  /** A later symbol of another root entry is beyond the range. */
  lemma BeyondSlot(lens: seq<nat>, root: nat, cur: nat, u: nat)
    requires cur < |lens| && u < |lens| && ValidLens(lens) && SlotStart(lens, root, cur) && Before(lens, cur, u)
    requires RootPrefix(lens, root, u) != RootPrefix(lens, root, cur)
    ensures Place(lens, u) >= Place(lens, cur) + Pow2(MAXBITS - root)
  {
    hide Shl, Shr, Pow2, CodeOf, Place, RootPrefix, Low;
    RootPrefixMono(lens, root, cur, u);
    PrefixOfPlace(lens, root, u);
    var d := MAXBITS - root;
    Split(Place(lens, u), d);
    ShlMono(RootPrefix(lens, root, cur), RootPrefix(lens, root, u), d);
  }

  /** A table that begins in the budget is paid for, and so is what comes after it. */
  lemma TableInBudget(lens: seq<nat>, work: seq<nat>, root: nat, max: nat, k: nat, used: nat, limit: nat, curr: nat)
    requires SortedSymbols(work, lens) && ValidLens(lens) && Prefix(lens) && Complete(lens) && k < |work| && max <= MAXBITS
    requires InBudget(lens, work, root, max, k, used, limit) && SlotStart(lens, root, work[k])
    requires Tight(lens, root, work[k], curr) && root + curr <= max
    ensures used + Pow2(curr) <= limit
    ensures forall j :: k <= j < |work| && root < lens[work[j]] <= max && RootPrefix(lens, root, work[j]) != RootPrefix(lens, root, work[k])
              ==> InBudget(lens, work, root, max, j, used + Pow2(curr), limit)
  {
    hide Shl, Shr, CodeOf, Place, Pow2, RootPrefix, Prefix, Complete, EndOf;
    var s, a, m := work[k], lens[work[k]] - root, max - root;
    var end := Place(lens, s) + Pow2(MAXBITS - root);
    SlotWidth(lens, root, s);
    SlotInside(lens, root, s);
    Pow2AtLeastOne(a);
    var e := FillsUpTo(lens, work, k, Pow2(a), end, root + curr);
    PowGrows(curr, m);
    PowGrows(a, m);
    forall j | k <= j < |work| && root < lens[work[j]] <= max && RootPrefix(lens, root, work[j]) != RootPrefix(lens, root, s)
      ensures InBudget(lens, work, root, max, j, used + Pow2(curr), limit)
    {
      assert j > k && Before(lens, s, work[j]);
      BeyondSlot(lens, root, s, work[j]);
      if j < e - 1 { PlaceOrder(lens, work[j], work[e - 1]); }
      assert j >= e;
      assert Before(lens, work[e - 1], work[j]);
      PowGrows(curr, lens[work[j]] - root);
    }
  }

  lemma Pow2AtLeastOne(a: nat)
    ensures Pow2(a) >= 1
  {
  }

  lemma SlotInside(lens: seq<nat>, root: nat, cur: nat)
    requires cur < |lens| && ValidLens(lens) && Prefix(lens) && SlotStart(lens, root, cur)
    ensures Place(lens, cur) + Pow2(MAXBITS - root) <= Pow2(MAXBITS)
  {
    hide Shl, Shr, CodeOf, Pow2, Prefix, Low;
    var l, d := lens[cur], MAXBITS - root;
    CodeFits(lens, cur);
    ShlMono(CodeOf(lens, cur), Pow2(l), MAXBITS - l);
    ShlPow2(l, MAXBITS - l);
    ShlPow2(root, d);
    var p := RootPrefix(lens, root, cur);
    Pow2AtLeastOne(MAXBITS - l);
    if p < Pow2(root) { ShlMono(p, Pow2(root), d); } else { ShlMono(Pow2(root), p, d); }
  }

  /** A symbol whose predecessor is short, or belongs to another root entry, begins the range of its own. */
  lemma StartsSlot(lens: seq<nat>, work: seq<nat>, root: nat, k: nat)
    requires SortedSymbols(work, lens) && ValidLens(lens) && 0 < k < |work| && 1 <= root < lens[work[k]]
    requires lens[work[k - 1]] <= root || RootPrefix(lens, root, work[k - 1]) != RootPrefix(lens, root, work[k])
    ensures SlotStart(lens, root, work[k])
  {
    hide Shl, Shr, CodeOf, Pow2, Low;
    var s, u, d := work[k - 1], work[k], MAXBITS - root;
    var l := lens[s];
    PlaceNext(lens, work, k - 1);
    PrefixOfPlace(lens, root, u);
    ShlAdd(CodeOf(lens, s), 1, MAXBITS - l);
    ShlOne(MAXBITS - l);
    if l <= root {
      ShlShl(CodeOf(lens, s) + 1, root - l, d);
      Pow2AtLeastOne(d);
      Join(Shl(CodeOf(lens, s) + 1, root - l), 0, d);
    } else {
      var p := RootPrefix(lens, root, s);
      Split(CodeOf(lens, s), l - root);
      LowBound(CodeOf(lens, s), l - root);
      ShlAdd(p, 1, l - root);
      ShlOne(l - root);
      ShlMono(CodeOf(lens, s) + 1, Shl(p + 1, l - root), MAXBITS - l);
      ShlShl(p + 1, l - root, MAXBITS - l);
      assert Before(lens, s, u);
      RootPrefixMono(lens, root, s, u);
      Split(Place(lens, u), d);
      ShlMono(p + 1, RootPrefix(lens, root, u), d);
      Pow2AtLeastOne(d);
      Join(RootPrefix(lens, root, u), 0, d);
    }
  }

  // ----- how many codes are short -----------------------------------------------------------------

  /** Long codes are many or leave little to fill. */
  lemma {:induction false} LongCodesNeeded(lens: seq<nat>, work: seq<nat>, root: nat, k: nat)
    requires SortedSymbols(work, lens) && ValidLens(lens) && Prefix(lens) && Complete(lens) && k < |work|
    requires root < lens[work[k]] && root < MAXBITS
    ensures Pow2(MAXBITS) <= Place(lens, work[k]) + (|work| - k) * Pow2(MAXBITS - root - 1)
    decreases |work| - k
  {
    hide Shl, CodeOf, Place, Pow2, Prefix, Complete;
    var unit, span := Pow2(MAXBITS - root - 1), Pow2(MAXBITS - lens[work[k]]);
    Pow2Mono(MAXBITS - lens[work[k]], MAXBITS - root - 1);
    if Place(lens, work[k]) + span < Pow2(MAXBITS) {
      NextExists(lens, work, k);
      PlaceNext(lens, work, k);
      LongCodesNeeded(lens, work, root, k + 1);
      OneMoreUnit(|work| - k, unit);
    } else {
      AtLeastOneUnit(|work| - k, unit);
    }
  }

  lemma OneMoreUnit(n: nat, unit: nat)
    requires n >= 1
    ensures n * unit == (n - 1) * unit + unit
  {
  }

  lemma AtLeastOneUnit(n: nat, unit: nat)
    requires n >= 1
    ensures n * unit >= unit
  {
    OneMoreUnit(n, unit);
  }

  /** The first symbol's code is all zeros. */
  lemma FirstPlace(lens: seq<nat>, work: seq<nat>)
    requires SortedSymbols(work, lens) && ValidLens(lens) && |work| > 0
    ensures Place(lens, work[0]) == 0
  {
    var s := work[0];
    forall b | 1 <= b < lens[s] ensures Count(lens, b) == 0 {
      forall u | 0 <= u < |lens| ensures lens[u] != b { FirstIsLeast(work, lens, u); }
      CountBetween(lens, 0, |lens|, b);
    }
    forall u | 0 <= u < s ensures lens[u] != lens[s] { FirstIsLeast(work, lens, u); }
    CountBetween(lens, 0, s, lens[s]);
    NextCodeZero(lens, lens[s]);
    ShlOne(MAXBITS - lens[s]);
  }

  /** The first long symbol, if any. */
  lemma {:induction false} FirstLong(lens: seq<nat>, work: seq<nat>, root: nat, k: nat) returns (first: nat)
    requires SortedSymbols(work, lens) && k <= |work| && forall j :: 0 <= j < k ==> lens[work[j]] <= root
    ensures IsFirstLong(lens, work, root, first)
    decreases |work| - k
  {
    if k < |work| && lens[work[k]] <= root {
      first := FirstLong(lens, work, root, k + 1);
    } else {
      first := k;
    }
  }

  ghost predicate IsFirstLong(lens: seq<nat>, work: seq<nat>, root: nat, first: nat)
    requires SortedSymbols(work, lens)
  {
    && first <= |work| && (forall j :: 0 <= j < first ==> lens[work[j]] <= root)
    && (first < |work| ==> lens[work[first]] > root)
  }

  lemma Powers()
    ensures Pow2(1) == 2 && Pow2(5) == 32 && Pow2(6) == 64 && Pow2(8) == 256 && Pow2(9) == 512
    ensures Pow2(13) == 0x2000 && Pow2(14) == 0x4000 && Pow2(15) == 0x8000
  {
    Pow2Bytes();
    assert Pow2(5) == 32 && Pow2(6) == 64;
    assert Pow2(9) == 2 * Pow2(8);
    assert Pow2(16) == 2 * Pow2(15) && Pow2(15) == 2 * Pow2(14) && Pow2(14) == 2 * Pow2(13);
  }

  /** Codes beyond 9 bits, among at most 286, come after at least two short ones. */
  lemma TwoShort(lens: seq<nat>, work: seq<nat>, first: nat)
    requires SortedSymbols(work, lens) && ValidLens(lens) && Prefix(lens) && Complete(lens) && |work| <= 286
    requires IsFirstLong(lens, work, 9, first) && first < |work|
    ensures first >= 2
  {
    hide Shl, CodeOf, Place, Pow2, Prefix, Complete;
    Powers();
    FirstPlace(lens, work);
    LongCodesNeeded(lens, work, 9, first);
    if first == 1 {
      PlaceNext(lens, work, 0);
      Pow2Mono(MAXBITS - lens[work[0]], 14);
    }
  }

  /** Codes beyond 6 bits, among at most 30, come after at least three short ones. */
  lemma ThreeShort(lens: seq<nat>, work: seq<nat>, first: nat)
    requires SortedSymbols(work, lens) && ValidLens(lens) && Prefix(lens) && Complete(lens) && |work| <= 30
    requires IsFirstLong(lens, work, 6, first) && first < |work|
    ensures first >= 3
  {
    hide Shl, CodeOf, Place, Pow2, Prefix, Complete;
    Powers();
    FirstPlace(lens, work);
    LongCodesNeeded(lens, work, 6, first);
    WithinAll(lens, work[first]);
    Pow2AtLeastOne(MAXBITS - lens[work[first]]);
    if first >= 1 {
      PlaceNext(lens, work, 0);
      Pow2Mono(MAXBITS - lens[work[0]], 14);
    }
    if first == 2 {
      PlaceNext(lens, work, 1);
      if lens[work[1]] > 1 { Pow2Mono(MAXBITS - lens[work[1]], 13); }
    }
  }

  /** Root table and budget fit the space; one entry over does no harm, since all tables have even sizes. */
  ghost predicate Affordable(lens: seq<nat>, work: seq<nat>, root: nat, max: nat, space: nat) {
    && SortedSymbols(work, lens) && Complete(lens) && 1 <= root < max <= MAXBITS && space % 2 == 0
    && exists first :: IsFirstLong(lens, work, root, first) && Pow2(root) + (|work| - first) + Excess(1, max - root) <= space + 1
  }

  /** ENOUGH_LENS: 852 entries are enough for 286 symbols with a root table of 9 bits. */
  lemma EnoughForLens(lens: seq<nat>, work: seq<nat>, max: nat)
    requires SortedSymbols(work, lens) && ValidLens(lens) && Prefix(lens) && Complete(lens)
    requires |work| <= 286 && 9 < max <= MAXBITS
    ensures Affordable(lens, work, 9, max, 852)
  {
    hide Pow2, Prefix, Complete;
    var first := FirstLong(lens, work, 9, 0);
    if first < |work| { TwoShort(lens, work, first); }
    Powers();
    PowGrows(max - 9, 6);
  }

  /** ENOUGH_DISTS: 592 entries are enough for 30 symbols with a root table of 6 bits. */
  lemma EnoughForDists(lens: seq<nat>, work: seq<nat>, max: nat)
    requires SortedSymbols(work, lens) && ValidLens(lens) && Prefix(lens) && Complete(lens)
    requires |work| <= 30 && 6 < max <= MAXBITS
    ensures Affordable(lens, work, 6, max, 592)
  {
    hide Pow2, Prefix, Complete;
    var first := FirstLong(lens, work, 6, 0);
    if first < |work| { ThreeShort(lens, work, first); }
    Powers();
    PowGrows(max - 6, 9);
  }

  /** Few codes are not all long. */
  lemma SomeShort(lens: seq<nat>, work: seq<nat>, root: nat)
    requires SortedSymbols(work, lens) && ValidLens(lens) && Prefix(lens) && Complete(lens) && 0 < |work|
    requires root < MAXBITS && |work| * Pow2(MAXBITS - root - 1) < Pow2(MAXBITS)
    ensures lens[work[0]] <= root
  {
    hide Pow2, Prefix, Complete, Place;
    FirstPlace(lens, work);
    if lens[work[0]] > root { LongCodesNeeded(lens, work, root, 0); }
  }

  /** The first table of the second level is in the budget. */
  lemma FirstInBudget(lens: seq<nat>, work: seq<nat>, root: nat, max: nat, k: nat, space: nat)
    requires Affordable(lens, work, root, max, space) && k < |work| && root < lens[work[k]] <= max
    requires forall j :: 0 <= j < k ==> lens[work[j]] <= root
    ensures InBudget(lens, work, root, max, k, Pow2(root), space + 1)
  {
    hide Pow2, Complete;
    var first :| IsFirstLong(lens, work, root, first) && Pow2(root) + (|work| - first) + Excess(1, max - root) <= space + 1;
    assert first == k;
    PowGrows(1, lens[work[k]] - root);
  }

  lemma EvenPower(n: nat)
    requires n > 0
    ensures Pow2(n) % 2 == 0
  {
  }
}
