/**
  inflate_table of deps/zlib/inftrees.c: check a set of code lengths, sort the
  symbols and fill the root table and the second-level tables.
 */
module InflateTable {
  import opened Bits
  import opened Canonical
  import opened InflateSpec
  import opened InflateOrder
  import opened InflateSpace
  import opened Wrappers

  const ENOUGH_LENS: nat := 852
  const ENOUGH_DISTS: nat := 592

  // ----- counting, bounds and Kraft's sum ---------------------------------------------

  /** The array of counts, with the unused length zero included. */
  ghost predicate Counted(count: seq<nat>, lens: seq<nat>) {
    |count| == MAXBITS + 1 && forall b :: 0 <= b <= MAXBITS ==> count[b] == Count(lens, b)
  }

  method CountLengths(lens: seq<nat>) returns (count: array<nat>)
    requires ValidLens(lens)
    ensures fresh(count) && Counted(count[..], lens)
  {
    count := new nat[MAXBITS + 1](_ => 0);
    var sym := 0;
    while sym < |lens|
      invariant 0 <= sym <= |lens| && count.Length == MAXBITS + 1
      invariant forall b :: 0 <= b <= MAXBITS ==> count[b] == CountTo(lens, sym, b)
    {
      count[lens[sym]] := count[lens[sym]] + 1;
      sym := sym + 1;
    }
  }

  /** The longest length in use, zero if there is none. */
  ghost predicate IsMax(lens: seq<nat>, max: nat) {
    && max <= MAXBITS
    && (max > 0 ==> Count(lens, max) > 0)
    && forall b :: max < b <= MAXBITS ==> Count(lens, b) == 0
  }

  ghost predicate IsMin(lens: seq<nat>, min: nat) {
    1 <= min <= MAXBITS && Count(lens, min) > 0 && forall b :: 1 <= b < min ==> Count(lens, b) == 0
  }

  method FindMax(count: seq<nat>, ghost lens: seq<nat>) returns (max: nat)
    requires Counted(count, lens)
    ensures IsMax(lens, max)
  {
    hide Count;
    max := MAXBITS;
    while max >= 1 && count[max] == 0
      invariant max <= MAXBITS
      invariant forall b :: max < b <= MAXBITS ==> Count(lens, b) == 0
    {
      max := max - 1;
    }
  }

  method FindMin(count: seq<nat>, max: nat, ghost lens: seq<nat>) returns (min: nat)
    requires Counted(count, lens) && IsMax(lens, max) && max > 0
    ensures IsMin(lens, min) && min <= max
  {
    hide Count;
    min := 1;
    while min < max && count[min] == 0
      invariant 1 <= min <= max
      invariant forall b :: 1 <= b < min ==> Count(lens, b) == 0
    {
      min := min + 1;
    }
  }

  /** What is left of Kraft's sum after the lengths up to b, in units of 2^-b. */
  function Left(lens: seq<nat>, b: nat): int {
    Pow2(b) - NextCode(lens, b) - Count(lens, b)
  }

  /** The loop over left: it stops early exactly at an over-subscribed length. */
  method KraftCheck(count: seq<nat>, ghost lens: seq<nat>) returns (ok: bool, left: int)
    requires Counted(count, lens)
    ensures ok <==> Prefix(lens)
    ensures ok ==> left == Left(lens, MAXBITS)
  {
    hide Count;
    left := 1;
    var len := 1;
    while len <= MAXBITS
      invariant 1 <= len <= MAXBITS + 1
      invariant left == if len == 1 then 1 else Left(lens, len - 1)
      invariant forall b :: 1 <= b < len ==> Fits(lens, b)
    {
      left := 2 * left;
      left := left - count[len];
      assert left == Left(lens, len);
      if left < 0 {
        assert !Fits(lens, len);
        return false, left;
      }
      len := len + 1;
    }
    ok := true;
  }

  // ----- sorting -------------------------------------------------------------------------

  /** The number of symbols with a length in 1..b-1. */
  function Offset(lens: seq<nat>, b: nat): nat {
    if b <= 1 then 0 else Offset(lens, b - 1) + Count(lens, b - 1)
  }

  /** Where a symbol belongs in the sorted table. */
  function Position(lens: seq<nat>, s: nat): nat
    requires s < |lens|
  {
    Offset(lens, lens[s]) + CountTo(lens, s, lens[s])
  }

  lemma {:induction false} OffsetMono(lens: seq<nat>, b: nat, c: nat)
    requires 1 <= b < c
    ensures Offset(lens, b) + Count(lens, b) <= Offset(lens, c)
    decreases c
  {
    if b + 1 < c { OffsetMono(lens, b, c - 1); }
  }

  lemma PositionOrder(lens: seq<nat>, s: nat, t: nat)
    requires s < |lens| && t < |lens| && 0 < lens[s] && Before(lens, s, t)
    ensures Position(lens, s) < Position(lens, t)
  {
    CountToMono(lens, s, |lens|, lens[s]);
    if lens[s] < lens[t] {
      OffsetMono(lens, lens[s], lens[t]);
    } else {
      CountToMono(lens, s, t, lens[s]);
    }
  }

  lemma PositionBound(lens: seq<nat>, s: nat)
    requires s < |lens| && 0 < lens[s] <= MAXBITS
    ensures Position(lens, s) < Offset(lens, MAXBITS + 1)
  {
    CountToMono(lens, s, |lens|, lens[s]);
    OffsetMono(lens, lens[s], MAXBITS + 1);
  }

  lemma {:induction false} SymbolAtPosition(lens: seq<nat>, i: nat, c: nat) returns (s: nat)
    requires i < Offset(lens, c)
    ensures s < |lens| && 0 < lens[s] < c && Position(lens, s) == i
    decreases c
  {
    if i < Offset(lens, c - 1) {
      s := SymbolAtPosition(lens, i, c - 1);
    } else {
      s := FindNth(lens, |lens|, c - 1, i - Offset(lens, c - 1));
    }
  }

  /** The first n symbols stand at their positions. */
  ghost predicate Entered(work: seq<nat>, lens: seq<nat>, n: nat) {
    forall s :: 0 <= s < n && s < |lens| && lens[s] > 0 ==>
      Position(lens, s) < |work| && work[Position(lens, s)] == s
  }

  lemma EnteredIsSorted(work: seq<nat>, lens: seq<nat>)
    requires ValidLens(lens) && |work| == Offset(lens, MAXBITS + 1) && Entered(work, lens, |lens|)
    ensures SortedSymbols(work, lens)
  {
    hide Position, Offset;
    forall i | 0 <= i < |work|
      ensures work[i] < |lens| && lens[work[i]] > 0 && Position(lens, work[i]) == i
    {
      var s := SymbolAtPosition(lens, i, MAXBITS + 1);
    }
    forall i, j | 0 <= i < j < |work| ensures Before(lens, work[i], work[j]) {
      if Before(lens, work[j], work[i]) { PositionOrder(lens, work[j], work[i]); }
    }
  }

  method MakeOffsets(count: seq<nat>, ghost lens: seq<nat>) returns (offs: array<nat>)
    requires Counted(count, lens)
    ensures fresh(offs) && offs.Length == MAXBITS + 1
    ensures forall b :: 1 <= b <= MAXBITS ==> offs[b] == Offset(lens, b)
  {
    hide Count;
    offs := new nat[MAXBITS + 1];
    offs[1] := 0;
    var len := 1;
    while len < MAXBITS
      invariant 1 <= len <= MAXBITS && offs.Length == MAXBITS + 1
      invariant forall b :: 1 <= b <= len ==> offs[b] == Offset(lens, b)
    {
      offs[len + 1] := offs[len] + count[len];
      len := len + 1;
    }
  }

  lemma {:induction false} OffsetTotal(lens: seq<nat>, n: nat, c: nat)
    requires n <= |lens|
    ensures OffsetTo(lens, n, c) <= n
    decreases n
  {
    if n > 0 {
      OffsetTotal(lens, n - 1, c);
      OffsetToStep(lens, n, c);
    } else {
      OffsetToNone(lens, c);
    }
  }

  function OffsetTo(lens: seq<nat>, n: nat, b: nat): nat
    requires n <= |lens|
  {
    if b <= 1 then 0 else OffsetTo(lens, n, b - 1) + CountTo(lens, n, b - 1)
  }

  lemma {:induction false} OffsetToNone(lens: seq<nat>, b: nat)
    ensures OffsetTo(lens, 0, b) == 0
    decreases b
  {
    if b > 1 { OffsetToNone(lens, b - 1); }
  }

  lemma {:induction false} OffsetToStep(lens: seq<nat>, n: nat, b: nat)
    requires 0 < n <= |lens|
    ensures OffsetTo(lens, n, b) == OffsetTo(lens, n - 1, b) + (if 1 <= lens[n - 1] < b then 1 else 0)
    decreases b
  {
    if b > 1 { OffsetToStep(lens, n, b - 1); }
  }

  lemma {:induction false} OffsetIsTotal(lens: seq<nat>, b: nat)
    ensures Offset(lens, b) == OffsetTo(lens, |lens|, b) <= |lens|
    decreases b
  {
    if b > 1 { OffsetIsTotal(lens, b - 1); }
    OffsetTotal(lens, |lens|, b);
  }

  /** Symbols sorted by length, and by symbol within each length. */
  method SortSymbols(lens: seq<nat>, count: seq<nat>) returns (work: seq<nat>)
    requires ValidLens(lens) && Counted(count, lens)
    ensures SortedSymbols(work, lens)
  {
    hide Counted, Offset, Count, CountTo;
    var offs := MakeOffsets(count, lens);
    var a := new nat[|lens|];
    ghost var total := Offset(lens, MAXBITS + 1);
    OffsetIsTotal(lens, MAXBITS + 1);
    NoneCounted(lens);
    var sym := 0;
    while sym < |lens|
      invariant 0 <= sym <= |lens| && offs.Length == MAXBITS + 1 && a.Length == |lens|
      invariant forall b :: 1 <= b <= MAXBITS ==> offs[b] == Offset(lens, b) + CountTo(lens, sym, b)
      invariant Entered(a[..total], lens, sym)
    {
      var len := lens[sym];
      OneCounted(lens, sym);
      if len != 0 {
        PositionBound(lens, sym);
        ghost var before := a[..total];
        a[offs[len]] := sym;
        EnterKeeps(before, a[..total], lens, sym);
        offs[len] := offs[len] + 1;
      }
      sym := sym + 1;
    }
    TotalIsOffset(count, lens, MAXBITS + 1);
    work := a[..Total(count)];
    EnteredIsSorted(work, lens);
  }

  /** The number of symbols that have a code. */
  function Total(count: seq<nat>): nat
    requires |count| == MAXBITS + 1
  {
    SumTo(count, MAXBITS + 1)
  }

  function SumTo(count: seq<nat>, b: nat): nat
    requires b <= |count|
  {
    if b <= 1 then 0 else SumTo(count, b - 1) + count[b - 1]
  }

  lemma {:induction false} TotalIsOffset(count: seq<nat>, lens: seq<nat>, b: nat)
    requires Counted(count, lens) && b <= MAXBITS + 1
    ensures |count| == MAXBITS + 1
    ensures SumTo(count, b) == Offset(lens, b)
    decreases b
  {
    if b > 1 { TotalIsOffset(count, lens, b - 1); }
  }

  lemma NoneCounted(lens: seq<nat>)
    ensures forall b :: 1 <= b <= MAXBITS ==> CountTo(lens, 0, b) == 0
  {
  }

  lemma OneCounted(lens: seq<nat>, n: nat)
    requires n < |lens|
    ensures forall b :: 1 <= b <= MAXBITS ==>
              CountTo(lens, n + 1, b) == CountTo(lens, n, b) + (if b == lens[n] then 1 else 0)
  {
  }

  lemma EnterKeeps(before: seq<nat>, after: seq<nat>, lens: seq<nat>, n: nat)
    requires n < |lens| && lens[n] > 0 && Entered(before, lens, n)
    requires Position(lens, n) < |before| && after == before[Position(lens, n) := n]
    ensures Entered(after, lens, n + 1)
  {
    hide Position;
    forall s | 0 <= s < n + 1 && lens[s] > 0
      ensures Position(lens, s) < |after| && after[Position(lens, s)] == s
    {
      if s != n {
        if Before(lens, s, n) { PositionOrder(lens, s, n); } else { PositionOrder(lens, n, s); }
      }
    }
  }

  // ----- entering one code ------------------------------------------------------------------

  /** Replicate an entry to every slot of the l-bit code c in the table of 2^curr entries at `at`. */
  method Replicate(table: array<Code>, at: nat, curr: nat, l: nat, c: nat, here: Code)
    requires l <= curr && c < Pow2(l) && at + Pow2(curr) <= table.Length
    modifies table
    ensures Filled(old(table[..]), table[..], at, curr, l, c, here)
  {
    hide Low, Shr, Shl, Pow2;
    ghost var t0 := table[..];
    var m := Pow2(curr - l);            // fill == m << l
    ShlPow2(l, curr - l);
    SlotBound(curr, l);
    while m > 0
      invariant m <= Pow2(curr - l)
      invariant forall i :: 0 <= i < table.Length ==>
        table[i] == if at <= i < at + Pow2(curr) && Low(i - at, l) == c && Shr(i - at, l) >= m then here else t0[i]
    {
      m := m - 1;
      var fill := Shl(m, l);
      SlotInside(curr, l, c, m);
      ghost var t1 := table[..];
      table[at + c + fill] := here;
      forall i | 0 <= i < table.Length
        ensures table[i] == if at <= i < at + Pow2(curr) && Low(i - at, l) == c && Shr(i - at, l) >= m then here else t0[i]
      {
        if at <= i < at + Pow2(curr) {
          Split(i - at, l);
          Join(m, c, l);
        }
      }
    }
  }

  lemma SlotBound(curr: nat, l: nat)
    requires l <= curr
    ensures forall x: nat :: x < Pow2(curr) ==> Shr(x, l) < Pow2(curr - l)
  {
    forall x: nat | x < Pow2(curr) ensures Shr(x, l) < Pow2(curr - l) {
      LowSmall(x, curr);
      ShrShr(x, l, curr - l);
      ShrSmall(Shr(x, l), curr - l);
    }
  }

  lemma SlotInside(curr: nat, l: nat, c: nat, m: nat)
    requires l <= curr && c < Pow2(l) && m < Pow2(curr - l)
    ensures c + Shl(m, l) < Pow2(curr)
  {
    ShlMono(m, Pow2(curr - l), l);
    ShlPow2(curr - l, l);
  }

  /** The backwards increment of the len-bit code huff. */
  method BackIncrement(len: nat, huff: nat) returns (next: nat)
    ensures next == BackInc(len, huff)
  {
    var n := len;                       // incr == 1 << (n - 1), or 0
    while n > 0 && Shr(huff, n - 1) % 2 == 1
      invariant BackInc(len, huff) == BackInc(n, huff)
    {
      n := n - 1;
    }
    next := if n != 0 then Low(huff, n - 1) + Pow2(n - 1) else 0;
  }

  // ----- the size of a second-level table --------------------------------------------------------

  /** The counts while the symbols before cur are done. */
  ghost predicate CountsFrom(count: seq<nat>, lens: seq<nat>, cur: nat)
    requires cur < |lens|
  {
    |count| == MAXBITS + 1 && forall b :: 1 <= b <= MAXBITS ==> count[b] == Remaining(lens, cur, b)
  }

  /** Where the codes of length c that are still to come begin. */
  function Frontier(lens: seq<nat>, cur: nat, c: nat): nat
    requires cur < |lens| && lens[cur] <= c <= MAXBITS
  {
    if c == lens[cur] then Place(lens, cur) else BeginOf(lens, c)
  }

  lemma FrontierStep(lens: seq<nat>, cur: nat, c: nat, n: nat)
    requires cur < |lens| && 1 <= lens[cur] <= c <= MAXBITS && n == Remaining(lens, cur, c)
    ensures Frontier(lens, cur, c) + Shl(n, MAXBITS - c) == EndOf(lens, c)
    ensures c < MAXBITS ==> EndOf(lens, c) == Frontier(lens, cur, c + 1)
  {
    hide Shl, NextCode;
    if c == lens[cur] {
      ShlAdd(CodeOf(lens, cur), n, MAXBITS - c);
    } else {
      ShlAdd(NextCode(lens, c), n, MAXBITS - c);
    }
    if c < MAXBITS { EndIsNextBegin(lens, c); }
  }

  /** Codes up to length c reach the end of the current root entry's range. */
  ghost predicate Reaches(lens: seq<nat>, cur: nat, root: nat, c: nat)
    requires cur < |lens| && lens[cur] <= MAXBITS && root <= MAXBITS && c <= MAXBITS
  {
    Place(lens, cur) + Pow2(MAXBITS - root) <= EndOf(lens, c)
  }

  method SubTableBits(count: seq<nat>, root: nat, max: nat, len: nat, ghost lens: seq<nat>, ghost cur: nat)
    returns (curr: nat)
    requires cur < |lens| && len == lens[cur] && root < len <= max <= MAXBITS
    requires CountsFrom(count, lens, cur)
    ensures len <= root + curr <= max
    ensures root + curr == max || Reaches(lens, cur, root, root + curr)
    ensures Tight(lens, root, cur, curr)
  {
    hide Shl, Frontier, EndOf, Place, Remaining, Pow2;
    curr := len - root;
    var left: int := Pow2(curr);
    ShlPow2(len - root, MAXBITS - len);
    FirstFrontier(lens, cur);
    ghost var end := Place(lens, cur) + Pow2(MAXBITS - root);
    while curr + root < max
      invariant len <= root + curr <= max && left > 0
      invariant Shl(left, MAXBITS - (curr + root)) + Frontier(lens, cur, curr + root) == end
      invariant curr + root == len || EndOf(lens, curr + root - 1) < end
      decreases max - curr
    {
      var c := curr + root;
      FrontierStep(lens, cur, c, count[c]);
      left := left - count[c];
      if left <= 0 {
        ShlMono(left + count[c], count[c], MAXBITS - c);
        break;
      }
      ShlAdd(left, count[c], MAXBITS - c);
      ShlTwice(left, MAXBITS - c);
      ShlMono(0, left, MAXBITS - c);
      curr := curr + 1;
      left := 2 * left;
    }
  }

  lemma FirstFrontier(lens: seq<nat>, cur: nat)
    requires cur < |lens| && lens[cur] <= MAXBITS
    ensures Frontier(lens, cur, lens[cur]) == Place(lens, cur)
  {
  }

  lemma ShlTwice(x: nat, n: nat)
    requires n > 0
    ensures Shl(2 * x, n - 1) == Shl(x, n)
  {
    ShlShl(x, 1, n - 1);
    assert Shl(x, 1) == 2 * Shl(x, 0);
  }

  /** A later code with the same first bits is not longer than the table allows. */
  lemma FitsSubTable(lens: seq<nat>, root: nat, max: nat, cur: nat, u: nat, curr: nat)
    requires cur < |lens| && u < |lens| && ValidLens(lens) && Prefix(lens)
    requires 0 < lens[cur] && root < lens[cur] && root < lens[u] && (u == cur || Before(lens, cur, u))
    requires IsMax(lens, max) && lens[cur] <= root + curr <= max
    requires root + curr == max || Reaches(lens, cur, root, root + curr)
    requires Low(StreamCode(lens, u), root) == Low(StreamCode(lens, cur), root)
    ensures lens[u] <= root + curr
  {
    hide Low, StreamCode, Shl, Shr, CodeOf, Prefix, Pow2;
    LengthCounted(lens, u);
    if root + curr < max && root + curr < lens[u] {
      SameRoot(lens, root, u, cur);
      SameRange(lens, root, cur, u);
      PlaceRange(lens, u);
      EndMono(lens, root + curr, lens[u]);
    }
  }

  lemma LengthCounted(lens: seq<nat>, u: nat)
    requires u < |lens|
    ensures Count(lens, lens[u]) > 0
  {
    CountToMono(lens, u, |lens|, lens[u]);
  }

  lemma SameRange(lens: seq<nat>, root: nat, cur: nat, u: nat)
    requires cur < |lens| && u < |lens| && root <= lens[cur] <= MAXBITS && root <= lens[u] <= MAXBITS
    requires RootPrefix(lens, root, u) == RootPrefix(lens, root, cur)
    ensures Place(lens, u) < Place(lens, cur) + Pow2(MAXBITS - root)
  {
    hide Low, Shl, Shr, CodeOf, Pow2;
    PrefixOfPlace(lens, root, cur);
    PrefixOfPlace(lens, root, u);
    var d := MAXBITS - root;
    Split(Place(lens, cur), d);
    Split(Place(lens, u), d);
    LowBound(Place(lens, u), d);
  }

  // ----- the tables while they are being filled ---------------------------------------------------

  ghost predicate AllPlaced(t: seq<Code>, root: nat, lens: seq<nat>, ct: CodeType, work: seq<nat>, k: nat, end: nat)
    requires |lens| <= MaxCodes(ct) && SortedSymbols(work, lens) && k <= |work|
  {
    forall j :: 0 <= j < k ==> Placed(t, root, lens, ct, work[j], end)
  }

  /** The table that s is in lies before the current one, or is the current one. */
  ghost predicate SegmentOk(t: seq<Code>, root: nat, lens: seq<nat>, s: nat, next: nat, low: int)
    requires s < |lens|
  {
    var p := Low(StreamCode(lens, s), root);
    p < |t| && (t[p].val + Pow2(t[p].op) <= next || p == low)
  }

  /** The table being filled: the root, or the second-level table that root entry low links to. */
  datatype Cursor = Cursor(next: nat, curr: nat, drop: nat, low: int, used: nat)

  ghost predicate Geometry(t: seq<Code>, root: nat, lens: seq<nat>, work: seq<nat>, k: nat, c: Cursor)
    requires SortedSymbols(work, lens) && k <= |work|
  {
    && Pow2(root) <= c.used <= |t|
    && c.used == c.next + Pow2(c.curr)
    && if c.drop == 0 then
         && c.next == 0 && c.curr == root && c.low == -1
         && forall j :: 0 <= j < k ==> lens[work[j]] <= root
       else
         && c.drop == root && Pow2(root) <= c.next && 0 < c.curr < 16
         && 0 <= c.low < Pow2(root) && t[c.low] == Code(c.curr, root, c.next)
         && forall j :: 0 <= j < k && lens[work[j]] > root ==> SegmentOk(t, root, lens, work[j], c.next, c.low)
  }

  /** The next symbol belongs in the current table, which has room for all that share its first bits. */
  ghost predicate Ready(root: nat, lens: seq<nat>, work: seq<nat>, k: nat, c: Cursor)
    requires SortedSymbols(work, lens) && k < |work|
  {
    if c.drop == 0 then lens[work[k]] <= root
    else
      && lens[work[k]] > root && c.low == Low(StreamCode(lens, work[k]), root)
      && forall j :: k <= j < |work| && lens[work[j]] > root && Low(StreamCode(lens, work[j]), root) == c.low ==>
           lens[work[j]] <= root + c.curr
  }

  ghost predicate Input(lens: seq<nat>, ct: CodeType, work: seq<nat>, root: nat, max: nat) {
    && ValidLens(lens) && |lens| <= MaxCodes(ct) && Prefix(lens) && SortedSymbols(work, lens)
    && 1 <= root <= max && IsMax(lens, max)
  }

  /** The code's slots and entry in the current table. */
  ghost predicate FilledFor(t0: seq<Code>, t1: seq<Code>, lens: seq<nat>, ct: CodeType, s: nat, c: Cursor)
    requires s < |lens| <= MaxCodes(ct)
  {
    && c.drop <= lens[s]
    && Filled(t0, t1, c.next, c.curr, lens[s] - c.drop, Shr(StreamCode(lens, s), c.drop),
              Entry(ct, s, lens[s] - c.drop))
  }

  lemma FillKeepsOne(t0: seq<Code>, t1: seq<Code>, root: nat, lens: seq<nat>, ct: CodeType, work: seq<nat>,
                     max: nat, k: nat, c: Cursor, j: nat)
    requires Input(lens, ct, work, root, max) && j < k < |work|
    requires Geometry(t0, root, lens, work, k, c) && Ready(root, lens, work, k, c)
    requires AllPlaced(t0, root, lens, ct, work, k, c.used)
    requires FilledFor(t0, t1, lens, ct, work[k], c)
    ensures Placed(t1, root, lens, ct, work[j], c.used)
  {
    hide Low, StreamCode, Shr, Prefix, Pow2, Entry, Filled, Placed, IsMax;
    var s, cur := work[j], work[k];
    assert Before(lens, s, cur);
    assert Placed(t0, root, lens, ct, s, c.used);
    if c.drop == 0 {
      ShrNone(StreamCode(lens, cur));
      FillRootKeeps(t0, t1, root, lens, ct, s, cur, c.used);
    } else {
      if lens[s] > root {
        assert SegmentOk(t0, root, lens, s, c.next, c.low);
      }
      FillSubKeeps(t0, t1, root, lens, ct, s, cur, c.next, c.curr, c.used);
    }
  }

  lemma ShrNone(x: nat)
    ensures Shr(x, 0) == x
  {
  }

  lemma FillPlacesCurrent(t0: seq<Code>, t1: seq<Code>, root: nat, lens: seq<nat>, ct: CodeType, work: seq<nat>,
                          max: nat, k: nat, c: Cursor)
    requires Input(lens, ct, work, root, max) && k < |work|
    requires Geometry(t0, root, lens, work, k, c) && Ready(root, lens, work, k, c)
    requires FilledFor(t0, t1, lens, ct, work[k], c)
    ensures Placed(t1, root, lens, ct, work[k], c.used)
  {
    hide Low, StreamCode, Shr, Prefix, Pow2, Entry, Filled, Placed, IsMax;
    var cur := work[k];
    if c.drop == 0 {
      ShrNone(StreamCode(lens, cur));
      FillRootPlaces(t0, t1, root, lens, ct, cur, c.used);
    } else {
      FillSubPlaces(t0, t1, root, lens, ct, cur, c.next, c.curr, c.used);
    }
  }

  lemma FillGeometry(t0: seq<Code>, t1: seq<Code>, root: nat, lens: seq<nat>, ct: CodeType, work: seq<nat>,
                     max: nat, k: nat, c: Cursor)
    requires Input(lens, ct, work, root, max) && k < |work|
    requires Geometry(t0, root, lens, work, k, c) && Ready(root, lens, work, k, c)
    requires FilledFor(t0, t1, lens, ct, work[k], c)
    ensures Geometry(t1, root, lens, work, k + 1, c)
  {
    hide Low, StreamCode, Shr, Prefix, Pow2, Entry, IsMax;
    if c.drop != 0 {
      assert t1[c.low] == t0[c.low];
      forall j | 0 <= j < k + 1 && lens[work[j]] > root ensures SegmentOk(t1, root, lens, work[j], c.next, c.low) {
        var p := Low(StreamCode(lens, work[j]), root);
        LowBound(StreamCode(lens, work[j]), root);
        if j < k {
          assert SegmentOk(t0, root, lens, work[j], c.next, c.low);
          assert t1[p] == t0[p];
        }
      }
    }
  }

  /** After a code is entered everything before it is still in place. */
  lemma FillStep(t0: seq<Code>, t1: seq<Code>, root: nat, lens: seq<nat>, ct: CodeType, work: seq<nat>,
                 max: nat, k: nat, c: Cursor)
    requires Input(lens, ct, work, root, max) && k < |work|
    requires Geometry(t0, root, lens, work, k, c) && Ready(root, lens, work, k, c)
    requires AllPlaced(t0, root, lens, ct, work, k, c.used)
    requires FilledFor(t0, t1, lens, ct, work[k], c)
    ensures AllPlaced(t1, root, lens, ct, work, k + 1, c.used)
    ensures Geometry(t1, root, lens, work, k + 1, c)
  {
    hide Geometry, Ready, Placed, FilledFor, Input;
    assert SortedSymbols(work, lens) && |lens| <= MaxCodes(ct) by { InputOk(lens, ct, work, root, max); }
    FillGeometry(t0, t1, root, lens, ct, work, max, k, c);
    FillPlacesCurrent(t0, t1, root, lens, ct, work, max, k, c);
    forall j | 0 <= j < k ensures Placed(t1, root, lens, ct, work[j], c.used) {
      FillKeepsOne(t0, t1, root, lens, ct, work, max, k, c, j);
    }
  }

  lemma InputOk(lens: seq<nat>, ct: CodeType, work: seq<nat>, root: nat, max: nat)
    requires Input(lens, ct, work, root, max)
    ensures SortedSymbols(work, lens) && |lens| <= MaxCodes(ct)
  {
  }

  // ----- starting a second-level table ------------------------------------------------------------

  /** The cursor after a new table of 2^curr entries is begun behind the current one. */
  function NewTable(c: Cursor, root: nat, curr: nat, low: nat): Cursor {
    Cursor(c.next + Pow2(c.curr), curr, root, low, c.used + Pow2(curr))
  }

  /** No earlier code has the first bits of the one that starts a new table. */
  lemma FreshPrefix(t: seq<Code>, root: nat, lens: seq<nat>, ct: CodeType, work: seq<nat>, max: nat,
                    k: nat, c: Cursor, j: nat)
    requires Input(lens, ct, work, root, max) && j <= k && k + 1 < |work|
    requires c.drop == 0 || (lens[work[k]] > root ==> c.low == Low(StreamCode(lens, work[k]), root))
    requires c.drop == 0 ==> lens[work[k]] <= root
    requires lens[work[k + 1]] > root && Low(StreamCode(lens, work[k + 1]), root) != c.low
    requires lens[work[j]] > root
    ensures Low(StreamCode(lens, work[j]), root) != Low(StreamCode(lens, work[k + 1]), root)
  {
    hide Low, StreamCode, Shr, Prefix, Pow2, IsMax, CodeOf, RootPrefix;
    var s, cur, t' := work[j], work[k], work[k + 1];
    assert Before(lens, cur, t');
    assert j < k ==> Before(lens, s, cur);
    assert lens[cur] > root;
    SameRoot(lens, root, s, t');
    SameRoot(lens, root, cur, t');
    RootPrefixMono(lens, root, cur, t');
    if j < k { RootPrefixMono(lens, root, s, cur); }
  }

  lemma LinkGeometry(t: seq<Code>, root: nat, lens: seq<nat>, ct: CodeType, work: seq<nat>, max: nat,
                     k: nat, c: Cursor, curr: nat)
    requires Input(lens, ct, work, root, max) && k < |work|
    requires Geometry(t, root, lens, work, k, c)
    requires forall j :: 0 <= j < k && lens[work[j]] > root ==>
               Low(StreamCode(lens, work[j]), root) != Low(StreamCode(lens, work[k]), root)
    requires 0 < curr < 16 && c.used + Pow2(curr) <= |t|
    ensures var low := Low(StreamCode(lens, work[k]), root);
            && low < Pow2(root) <= |t|
            && Geometry(t[low := Code(curr, root, c.used)], root, lens, work, k, NewTable(c, root, curr, low))
  {
    hide Low, StreamCode, Shr, Prefix, Pow2, IsMax;
    var low := Low(StreamCode(lens, work[k]), root);
    LowBound(StreamCode(lens, work[k]), root);
    var d := NewTable(c, root, curr, low);
    var t1 := t[low := Code(curr, root, c.used)];
    forall j | 0 <= j < k && lens[work[j]] > root ensures SegmentOk(t1, root, lens, work[j], d.next, d.low) {
      assert SegmentOk(t, root, lens, work[j], c.next, c.low);
    }
  }

  lemma LinkStep(t: seq<Code>, root: nat, lens: seq<nat>, ct: CodeType, work: seq<nat>, max: nat,
                 k: nat, c: Cursor, curr: nat)
    requires Input(lens, ct, work, root, max) && k < |work| && lens[work[k]] > root
    requires Geometry(t, root, lens, work, k, c) && AllPlaced(t, root, lens, ct, work, k, c.used)
    requires forall j :: 0 <= j < k && lens[work[j]] > root ==>
               Low(StreamCode(lens, work[j]), root) != Low(StreamCode(lens, work[k]), root)
    requires 0 < curr < 16 && c.used + Pow2(curr) <= |t|
    ensures var low := Low(StreamCode(lens, work[k]), root);
            && low < Pow2(root) <= |t|
            && Geometry(t[low := Code(curr, root, c.used)], root, lens, work, k, NewTable(c, root, curr, low))
            && AllPlaced(t[low := Code(curr, root, c.used)], root, lens, ct, work, k, c.used + Pow2(curr))
  {
    hide Low, StreamCode, Shr, Prefix, Pow2, Placed, Geometry, IsMax;
    LinkGeometry(t, root, lens, ct, work, max, k, c, curr);
    var low := Low(StreamCode(lens, work[k]), root);
    var t1 := t[low := Code(curr, root, c.used)];
    forall j | 0 <= j < k ensures Placed(t1, root, lens, ct, work[j], c.used + Pow2(curr)) {
      assert Before(lens, work[j], work[k]);
      assert Placed(t, root, lens, ct, work[j], c.used);
      LinkKeeps(t, root, lens, ct, work[j], work[k], Code(curr, root, c.used), c.used, c.used + Pow2(curr));
    }
  }

  lemma NewTableReady(root: nat, lens: seq<nat>, ct: CodeType, work: seq<nat>, max: nat, k: nat, c: Cursor, curr: nat)
    requires Input(lens, ct, work, root, max) && k < |work| && lens[work[k]] > root
    requires lens[work[k]] <= root + curr <= max
    requires root + curr == max || Reaches(lens, work[k], root, root + curr)
    ensures Ready(root, lens, work, k, NewTable(c, root, curr, Low(StreamCode(lens, work[k]), root)))
  {
    hide Low, StreamCode, Prefix, Pow2, IsMax, Reaches;
    var cur := work[k];
    forall j | k <= j < |work| && lens[work[j]] > root
               && Low(StreamCode(lens, work[j]), root) == Low(StreamCode(lens, cur), root)
      ensures lens[work[j]] <= root + curr
    {
      assert j > k ==> Before(lens, cur, work[j]);
      FitsSubTable(lens, root, max, cur, work[j], curr);
    }
  }

  // ----- the main loop ------------------------------------------------------------------------------

  /** The entry for a symbol, chosen by comparing it with the first one that has a base value. */
  method CreateEntry(ct: CodeType, sym: nat, bits: nat) returns (here: Code)
    requires sym < MaxCodes(ct)
    ensures here == Entry(ct, sym, bits)
  {
    var first := match ct case CODES => 20 case LENS => 257 case DISTS => 0;
    if sym + 1 < first {
      here := Code(0, bits, sym);
    } else if sym >= first {
      here := if ct == LENS then Code(LEXT[sym - first], bits, LBASE[sym - first])
              else Code(DEXT[sym - first], bits, DBASE[sym - first]);
    } else {
      here := Code(96, bits, 0);
    }
  }

  /** The space a caller provides: the source's constants, or a root table for code lengths. */
  function Space(ct: CodeType, root: nat): nat {
    match ct case LENS => ENOUGH_LENS case DISTS => ENOUGH_DISTS case CODES => Pow2(root)
  }

  /** Enter one code in the current table. */
  method EnterCode(table: array<Code>, base: nat, lens: seq<nat>, ct: CodeType, work: seq<nat>,
                   root: nat, max: nat, k: nat, c: Cursor, huff: nat)
    requires base <= table.Length && Input(lens, ct, work, root, max) && k < |work|
    requires Geometry(table[base..], root, lens, work, k, c) && Ready(root, lens, work, k, c)
    requires AllPlaced(table[base..], root, lens, ct, work, k, c.used)
    requires huff == StreamCode(lens, work[k])
    modifies table
    ensures AllPlaced(table[base..], root, lens, ct, work, k + 1, c.used)
    ensures Geometry(table[base..], root, lens, work, k + 1, c)
    ensures table[..base] == old(table[..base])
  {
    hide Low, StreamCode, Shr, Prefix, Pow2, Entry, IsMax, Placed, SegmentOk, Filled, AllPlaced;
    var cur := work[k];
    var len := lens[cur];
    ghost var t0, all0 := table[base..], table[..];
    var here := CreateEntry(ct, cur, len - c.drop);
    CodeInTable(lens, cur, c.drop);
    Replicate(table, base + c.next, c.curr, len - c.drop, Shr(huff, c.drop), here);
    FilledBase(all0, table[..], base, c.next, c.curr, len - c.drop, Shr(huff, c.drop), here);
    assert table[base..] == table[..][base..] && t0 == all0[base..] && table[..base] == table[..][..base];
    FillStep(t0, table[base..], root, lens, ct, work, max, k, c);
  }

  lemma CodeInTable(lens: seq<nat>, s: nat, drop: nat)
    requires s < |lens| && drop <= lens[s]
    ensures Shr(StreamCode(lens, s), drop) < Pow2(lens[s] - drop)
  {
    RevBound(lens[s], CodeOf(lens, s));
    LowSmall(StreamCode(lens, s), lens[s]);
    ShrShr(StreamCode(lens, s), drop, lens[s] - drop);
    ShrSmall(Shr(StreamCode(lens, s), drop), lens[s] - drop);
  }

  /** Filling behind an offset is filling the rest of the array. */
  lemma FilledBase(a0: seq<Code>, a1: seq<Code>, base: nat, at: nat, curr: nat, l: nat, c: nat, here: Code)
    requires base <= |a0| && Filled(a0, a1, base + at, curr, l, c, here)
    ensures Filled(a0[base..], a1[base..], at, curr, l, c, here)
    ensures a0[..base] == a1[..base]
  {
    hide Low, Pow2;
    forall i | 0 <= i < |a0| - base
      ensures a1[base..][i] == if at <= i < at + Pow2(curr) && Low(i - at, l) == c then here else a0[base..][i]
    {
      assert base + i - (base + at) == i - at;
    }
  }

  lemma CountsStep(before: seq<nat>, after: seq<nat>, lens: seq<nat>, s: nat, t: nat)
    requires Follows(lens, s, t) && lens[s] <= MAXBITS && CountsFrom(before, lens, s)
    requires before[lens[s]] > 0 && after == before[lens[s] := before[lens[s]] - 1]
    ensures CountsFrom(after, lens, t)
  {
    forall b | 1 <= b <= MAXBITS ensures after[b] == Remaining(lens, t, b) {
      RemainingStep(lens, s, t, b);
    }
  }

  /** When the last code of the longest length is done, all are done; else there is a next symbol. */
  lemma NextSymbol(lens: seq<nat>, ct: CodeType, work: seq<nat>, root: nat, max: nat, k: nat, left: int)
    requires Input(lens, ct, work, root, max) && k < |work|
    requires left == Remaining(lens, work[k], lens[work[k]]) - 1
    ensures left >= 0
    ensures left == 0 && lens[work[k]] == max <==> k + 1 == |work|
    ensures left > 0 ==> k + 1 < |work| && lens[work[k + 1]] == lens[work[k]]
  {
    hide Prefix;
    var s := work[k];
    CountToMono(lens, s, |lens|, lens[s]);
    LengthCounted(lens, s);
    if left > 0 {
      var u := FindNth(lens, |lens|, lens[s], CountTo(lens, s, lens[s]) + 1);
      LaterSymbol(lens, ct, work, root, max, k, u);
    } else if lens[s] < max {
      var u := FindNth(lens, |lens|, max, 0);
      LaterSymbol(lens, ct, work, root, max, k, u);
    } else if k + 1 < |work| {
      assert Before(lens, s, work[k + 1]);
      LengthCounted(lens, work[k + 1]);
      CountToMono(lens, s + 1, |lens|, lens[s]);
      CountToMono(lens, work[k + 1], |lens|, lens[s]);
      CountToMono(lens, s, work[k + 1], lens[s]);
    }
  }

  /** A symbol after work[k] means there is a work[k + 1], no longer than it. */
  lemma LaterSymbol(lens: seq<nat>, ct: CodeType, work: seq<nat>, root: nat, max: nat, k: nat, u: nat)
    requires Input(lens, ct, work, root, max) && k < |work| && u < |lens| && 0 < lens[u]
    requires lens[work[k]] < lens[u] || (lens[work[k]] == lens[u] && CountTo(lens, work[k], lens[u]) < CountTo(lens, u, lens[u]))
    ensures k + 1 < |work| && lens[work[k]] <= lens[work[k + 1]] <= lens[u]
  {
    hide Prefix;
    var s := work[k];
    var j :| 0 <= j < |work| && work[j] == u;
    if u < s { CountToMono(lens, u, s, lens[u]); }
    assert Before(lens, s, u);
    assert j < k ==> Before(lens, u, s);
    assert j > k + 1 ==> Before(lens, work[k + 1], u);
  }

  /** Begin the second-level table that the next symbol needs, if there is space. */
  method StartTable(table: array<Code>, base: nat, lens: seq<nat>, ct: CodeType, work: seq<nat>, count: seq<nat>,
                    root: nat, max: nat, k: nat, c: Cursor, huff: nat) returns (ok: bool, d: Cursor)
    requires Input(lens, ct, work, root, max) && k < |work| && lens[work[k]] > root
    requires base + Space(ct, root) <= table.Length && ct != CODES
    requires huff == StreamCode(lens, work[k]) && CountsFrom(count, lens, work[k])
    requires Geometry(table[base..], root, lens, work, k, c)
    requires AllPlaced(table[base..], root, lens, ct, work, k, c.used)
    requires forall j :: 0 <= j < k && lens[work[j]] > root ==>
               Low(StreamCode(lens, work[j]), root) != Low(huff, root)
    modifies table
    ensures table[..base] == old(table[..base])
    ensures ok ==> Geometry(table[base..], root, lens, work, k, d) && Ready(root, lens, work, k, d)
    ensures ok ==> AllPlaced(table[base..], root, lens, ct, work, k, d.used)
    ensures d == NewTable(c, root, d.curr, Low(huff, root)) && (ok <==> d.used <= Space(ct, root))
    ensures Tight(lens, root, work[k], d.curr) && root + d.curr <= max
  {
    hide Low, StreamCode, Shr, Prefix, Pow2, IsMax, Placed, SegmentOk, AllPlaced, CountsFrom, Reaches, Ready, Follows, Tight;
    assert 1 <= root && lens[work[k]] <= max <= MAXBITS by { LongestLength(lens, ct, work, root, max, k); }
    var curr := SubTableBits(count, root, max, lens[work[k]], lens, work[k]);
    var low := Low(huff, root);
    d := NewTable(c, root, curr, low);
    if d.used > Space(ct, root) {
      return false, d;
    }
    NewTableReady(root, lens, ct, work, max, k, c, curr);
    LinkStep(table[base..], root, lens, ct, work, max, k, c, curr);
    ghost var t0 := table[base..];
    table[base + low] := Code(curr, root, c.used);
    assert table[base..] == t0[low := Code(curr, root, c.used)];
    ok := true;
  }

  lemma LongestLength(lens: seq<nat>, ct: CodeType, work: seq<nat>, root: nat, max: nat, k: nat)
    requires Input(lens, ct, work, root, max) && k < |work|
    ensures 1 <= root <= max <= MAXBITS && lens[work[k]] <= max
  {
    LengthCounted(lens, work[k]);
  }

  /** All codes are entered, and the code after the last one. */
  ghost predicate Done(t: seq<Code>, root: nat, lens: seq<nat>, ct: CodeType, work: seq<nat>, c: Cursor, huff: nat)
    requires |lens| <= MaxCodes(ct) && SortedSymbols(work, lens) && |work| > 0
  {
    var last := work[|work| - 1];
    && Geometry(t, root, lens, work, |work|, c)
    && AllPlaced(t, root, lens, ct, work, |work|, c.used)
    && huff == BackInc(lens[last], StreamCode(lens, last))
    && (c.drop == 0 <==> lens[last] <= root)
  }

  /** The tables so far are paid for; the current one was begun by symbol k0, with used0 entries before it. */
  ghost predicate Paid(lens: seq<nat>, work: seq<nat>, root: nat, max: nat, k: nat, c: Cursor, k0: nat, used0: nat, limit: nat)
    requires SortedSymbols(work, lens)
  {
    && c.used % 2 == 0
    && if c.drop == 0 then c.used == Pow2(root)
       else
         && k0 <= k <= |work| && k0 < |work| && c.used == used0 + Pow2(c.curr)
         && InBudget(lens, work, root, max, k0, used0, limit)
         && SlotStart(lens, root, work[k0]) && Tight(lens, root, work[k0], c.curr) && root + c.curr <= max
  }

  /** The next table is in the budget. */
  lemma NextInBudget(lens: seq<nat>, ct: CodeType, work: seq<nat>, root: nat, max: nat, k: nat, c: Cursor, k0: nat, used0: nat, space: nat)
    requires Input(lens, ct, work, root, max) && Affordable(lens, work, root, max, space)
    requires 0 < k < |work| && lens[work[k]] > root && Paid(lens, work, root, max, k, c, k0, used0, space + 1)
    requires if c.drop == 0 then forall j :: 0 <= j < k ==> lens[work[j]] <= root else k0 < k
    requires forall j :: 0 <= j < k && lens[work[j]] > root ==> Low(StreamCode(lens, work[j]), root) != Low(StreamCode(lens, work[k]), root)
    ensures InBudget(lens, work, root, max, k, c.used, space + 1) && SlotStart(lens, root, work[k]) && c.used % 2 == 0
  {
    hide Low, StreamCode, Shr, Prefix, Complete, Pow2, IsMax, RootPrefix, SlotStart, Tight, Place;
    LongestLength(lens, ct, work, root, max, k);
    forall j | 0 <= j < k && lens[work[j]] > root
      ensures RootPrefix(lens, root, work[j]) != RootPrefix(lens, root, work[k])
    {
      SameRoot(lens, root, work[j], work[k]);
    }
    StartsSlot(lens, work, root, k);
    if c.drop == 0 {
      FirstInBudget(lens, work, root, max, k, space);
    } else {
      TableInBudget(lens, work, root, max, k0, used0, space + 1, c.curr);
    }
  }

  lemma RootFits(lens: seq<nat>, work: seq<nat>, root: nat, max: nat, space: nat, c: Cursor)
    requires Affordable(lens, work, root, max, space) && c == Cursor(0, root, 0, -1, Pow2(root))
    ensures Pow2(root) <= space && Paid(lens, work, root, max, 0, c, 0, 0, space + 1)
  {
    hide Complete, Pow2;
    EvenPower(root);
    PowGrows(1, max - root);
  }

  lemma ShortSoFar(t: seq<Code>, root: nat, lens: seq<nat>, work: seq<nat>, k: nat, c: Cursor)
    requires SortedSymbols(work, lens) && k <= |work| && Geometry(t, root, lens, work, k, c)
    ensures c.drop == 0 ==> forall j :: 0 <= j < k ==> lens[work[j]] <= root
  {
  }

  lemma BegunBefore(lens: seq<nat>, work: seq<nat>, root: nat, max: nat, k: nat, c: Cursor, k0: nat, used0: nat, limit: nat)
    requires SortedSymbols(work, lens) && k + 1 < |work| && Paid(lens, work, root, max, k, c, k0, used0, limit)
    ensures Paid(lens, work, root, max, k + 1, c, k0, used0, limit) && (c.drop != 0 ==> k0 < k + 1)
  {
    hide InBudget, SlotStart, Tight, Pow2;
  }

  /** A table just begun is paid for. */
  lemma NewPaid(lens: seq<nat>, work: seq<nat>, root: nat, max: nat, k: nat, b: Cursor, c: Cursor, limit: nat)
    requires SortedSymbols(work, lens) && k < |work| && InBudget(lens, work, root, max, k, b.used, limit)
    requires SlotStart(lens, root, work[k]) && Tight(lens, root, work[k], c.curr) && root + c.curr <= max
    requires c.used == b.used + Pow2(c.curr) && c.used % 2 == 0 && (c.drop == 0 ==> c.used == Pow2(root))
    ensures Paid(lens, work, root, max, k, c, k, b.used, limit)
  {
    hide InBudget, SlotStart, Tight, Pow2;
  }

  /** So it fits the space. */
  lemma TableFits(lens: seq<nat>, ct: CodeType, work: seq<nat>, root: nat, max: nat, k: nat, c: Cursor, d: Cursor, space: nat)
    requires Input(lens, ct, work, root, max) && Affordable(lens, work, root, max, space) && k < |work|
    requires InBudget(lens, work, root, max, k, c.used, space + 1) && SlotStart(lens, root, work[k]) && c.used % 2 == 0
    requires Tight(lens, root, work[k], d.curr) && root + d.curr <= max && d.used == c.used + Pow2(d.curr)
    ensures d.used <= space && d.used % 2 == 0
  {
    hide Prefix, Complete, Pow2, IsMax, SlotStart, Place;
    TableInBudget(lens, work, root, max, k, c.used, space + 1, d.curr);
    EvenPower(d.curr);
  }

  method FillTables(table: array<Code>, base: nat, lens: seq<nat>, ct: CodeType, work: seq<nat>, count: array<nat>,
                    root: nat, max: nat) returns (ok: bool, c: Cursor, huff: nat, len: nat)
    requires Input(lens, ct, work, root, max) && |work| > 0 && lens[work[0]] <= root
    requires base + Space(ct, root) <= table.Length
    requires ct == CODES ==> max <= root
    requires CountsFrom(count[..], lens, work[0])
    modifies table, count
    ensures table[..base] == old(table[..base])
    ensures ok ==> Done(table[base..], root, lens, ct, work, c, huff) && c.used <= Space(ct, root)
    ensures ok ==> len == lens[work[|work| - 1]]
    ensures max <= root && Pow2(root) <= Space(ct, root) ==> ok
    ensures Affordable(lens, work, root, max, Space(ct, root)) ==> ok
  {
    hide Low, StreamCode, Shr, Prefix, Pow2, IsMax, Placed, SegmentOk, AllPlaced, CountsFrom, Geometry, Ready,
         Remaining, BackInc, Rev, CodeOf, Follows, Affordable, InBudget, SlotStart, Tight, Paid;
    ghost var afford, limit := Affordable(lens, work, root, max, Space(ct, root)), Space(ct, root) + 1;
    ghost var k0: nat, used0: nat := 0, 0;
    huff := 0;
    var sym := 0;
    len := lens[work[0]];
    c := Cursor(0, root, 0, -1, Pow2(root));
    if afford { RootFits(lens, work, root, max, Space(ct, root), c); }
    if c.used > Space(ct, root) {
      return false, c, huff, len;
    }
    assert Geometry(table[base..], root, lens, work, 0, c) && Ready(root, lens, work, 0, c)
        && AllPlaced(table[base..], root, lens, ct, work, 0, c.used) && StreamCode(lens, work[0]) == 0 by {
      FirstSymbol(table[base..], lens, ct, work, root, max, c);
    }
    while true
      invariant 0 <= sym < |work| && len == lens[work[sym]] && huff == StreamCode(lens, work[sym])
      invariant base + Space(ct, root) <= table.Length && c.used <= Space(ct, root)
      invariant table[..base] == old(table[..base])
      invariant CountsFrom(count[..], lens, work[sym])
      invariant Geometry(table[base..], root, lens, work, sym, c) && Ready(root, lens, work, sym, c)
      invariant AllPlaced(table[base..], root, lens, ct, work, sym, c.used)
      invariant afford ==> Paid(lens, work, root, max, sym, c, k0, used0, limit)
      decreases |work| - sym
    {
      WhichTable(root, lens, ct, work, max, sym, c);
      EnterCode(table, base, lens, ct, work, root, max, sym, c, huff);
      huff := BackIncrement(len, huff);
      ghost var cur := work[sym];
      LongestLength(lens, ct, work, root, max, sym);
      CurrentCount(count[..], lens, cur);
      NextSymbol(lens, ct, work, root, max, sym, count[len] - 1);
      ghost var counts := count[..];
      count[len] := count[len] - 1;
      sym := sym + 1;
      if count[len] == 0 {
        if len == max {
          ok := true;
          return;
        }
        len := lens[work[sym]];
      }
      SortedFollows(work, lens, sym - 1);
      NextStreamCode(lens, cur, work[sym]);
      CountsStep(counts, count[..], lens, cur, work[sym]);
      if afford { BegunBefore(lens, work, root, max, sym - 1, c, k0, used0, limit); }
      if len > root && Low(huff, root) != c.low {
        LongestLength(lens, ct, work, root, max, sym);
        AllFresh(table[base..], root, lens, ct, work, max, sym - 1, c);
        if afford {
          ShortSoFar(table[base..], root, lens, work, sym, c);
          NextInBudget(lens, ct, work, root, max, sym, c, k0, used0, limit - 1);
        }
        var go: bool;
        ghost var b := c;
        go, c := StartTable(table, base, lens, ct, work, count[..], root, max, sym, c, huff);
        if afford { TableFits(lens, ct, work, root, max, sym, b, c, limit - 1); }
        if !go {
          return false, c, huff, len;
        }
        k0, used0 := sym, b.used;
        if afford { NewPaid(lens, work, root, max, sym, b, c, limit); }
      } else {
        StillReady(table[base..], root, lens, ct, work, max, sym - 1, c);
      }
    }
  }

  lemma WhichTable(root: nat, lens: seq<nat>, ct: CodeType, work: seq<nat>, max: nat, k: nat, c: Cursor)
    requires Input(lens, ct, work, root, max) && k < |work| && Ready(root, lens, work, k, c)
    ensures c.drop == 0 <==> lens[work[k]] <= root
  {
  }

  lemma FirstSymbol(t: seq<Code>, lens: seq<nat>, ct: CodeType, work: seq<nat>, root: nat, max: nat, c: Cursor)
    requires Input(lens, ct, work, root, max) && |work| > 0 && lens[work[0]] <= root
    requires c == Cursor(0, root, 0, -1, Pow2(root)) && Pow2(root) <= |t|
    ensures Geometry(t, root, lens, work, 0, c) && Ready(root, lens, work, 0, c)
    ensures AllPlaced(t, root, lens, ct, work, 0, c.used)
    ensures StreamCode(lens, work[0]) == 0
  {
    hide Low, Shr, Prefix;
    var s := work[0];
    forall b | 1 <= b < lens[s] ensures Count(lens, b) == 0 {
      forall u | 0 <= u < |lens| ensures lens[u] != b { FirstIsLeast(work, lens, u); }
      CountBetween(lens, 0, |lens|, b);
    }
    forall u | 0 <= u < s ensures lens[u] != lens[s] { FirstIsLeast(work, lens, u); }
    CountBetween(lens, 0, s, lens[s]);
    NextCodeZero(lens, lens[s]);
    RevZero(lens[s]);
  }

  lemma {:induction false} RevZero(n: nat)
    ensures Rev(n, 0) == 0
  {
    if n > 0 {
      RevZero(n - 1);
      ShlOne(n - 1);
    }
  }

  lemma CurrentCount(count: seq<nat>, lens: seq<nat>, cur: nat)
    requires cur < |lens| && 0 < lens[cur] <= MAXBITS && CountsFrom(count, lens, cur)
    ensures |count| == MAXBITS + 1 && count[lens[cur]] == Remaining(lens, cur, lens[cur]) > 0
  {
    CountToMono(lens, cur, |lens|, lens[cur]);
  }

  lemma AllFresh(t: seq<Code>, root: nat, lens: seq<nat>, ct: CodeType, work: seq<nat>, max: nat, k: nat, c: Cursor)
    requires Input(lens, ct, work, root, max) && k + 1 < |work|
    requires Ready(root, lens, work, k, c)
    requires lens[work[k + 1]] > root && Low(StreamCode(lens, work[k + 1]), root) != c.low
    ensures forall j :: 0 <= j < k + 1 && lens[work[j]] > root ==>
              Low(StreamCode(lens, work[j]), root) != Low(StreamCode(lens, work[k + 1]), root)
  {
    hide Low, StreamCode, Prefix, IsMax;
    forall j | 0 <= j < k + 1 && lens[work[j]] > root
      ensures Low(StreamCode(lens, work[j]), root) != Low(StreamCode(lens, work[k + 1]), root)
    {
      FreshPrefix(t, root, lens, ct, work, max, k, c, j);
    }
  }

  lemma StillReady(t: seq<Code>, root: nat, lens: seq<nat>, ct: CodeType, work: seq<nat>, max: nat, k: nat, c: Cursor)
    requires Input(lens, ct, work, root, max) && k + 1 < |work| && Ready(root, lens, work, k, c)
    requires lens[work[k + 1]] <= root || Low(StreamCode(lens, work[k + 1]), root) == c.low
    requires Geometry(t, root, lens, work, k + 1, c)
    ensures Ready(root, lens, work, k + 1, c)
  {
    hide Low, StreamCode, Prefix, IsMax, Pow2, SegmentOk;
    assert Before(lens, work[k], work[k + 1]);
  }

  // ----- inflate_table -----------------------------------------------------------------------------

  predicate Empty(lens: seq<nat>) {
    forall i :: 0 <= i < |lens| ==> lens[i] == 0
  }

  /** The one incomplete code that is let through: a single code of one bit. */
  ghost predicate Single(lens: seq<nat>) {
    IsMax(lens, 1) && !Complete(lens)
  }

  /** The sets of lengths that inflate_table accepts, if any symbol has a code. */
  ghost predicate Acceptable(lens: seq<nat>, ct: CodeType) {
    Prefix(lens) && (Complete(lens) || (ct != CODES && Single(lens)))
  }

  const INVALID: Code := Code(64, 1, 0)

  /** Every stream that starts with the code of a symbol looks up that symbol and drops its length. */
  ghost predicate Decodes(t: seq<Code>, root: nat, lens: seq<nat>, ct: CodeType)
    requires |lens| <= MaxCodes(ct)
  {
    forall s: nat, v: nat :: s < |lens| && StartsWith(lens, s, v) ==>
      Lookup(t, root, v) == Some((Entry(ct, s, EntryBits(root, lens[s])), lens[s]))
  }

  /** A stream that starts with no code is reported as invalid. */
  ghost predicate RejectsOthers(t: seq<Code>, root: nat, lens: seq<nat>) {
    forall v: nat :: (forall s: nat :: s < |lens| ==> !StartsWith(lens, s, v)) ==> Lookup(t, root, v) == Some((INVALID, 1))
  }

  lemma PlacedPrefix(t: seq<Code>, root: nat, lens: seq<nat>, ct: CodeType, s: nat, end: nat)
    requires s < |lens| && s < MaxCodes(ct) && Placed(t, root, lens, ct, s, end) && Pow2(root) <= end <= |t|
    ensures Placed(t[..end], root, lens, ct, s, end)
  {
    hide Low, Pow2, Shr, StreamCode, Entry;
    LowBound(StreamCode(lens, s), root);
    if lens[s] > root {
      var e := t[Low(StreamCode(lens, s), root)];
      var l, c, entry := lens[s] - root, Shr(StreamCode(lens, s), root), Entry(ct, s, lens[s] - root);
      forall i | 0 <= i < Pow2(e.op) ensures SubSlot(t[..end], e.val, i, l, c, entry) {
        assert SubSlot(t, e.val, i, l, c, entry);
      }
    }
  }

  lemma DoneDecodes(t: seq<Code>, root: nat, lens: seq<nat>, ct: CodeType, work: seq<nat>, max: nat, c: Cursor, huff: nat)
    requires Input(lens, ct, work, root, max) && |work| > 0 && Done(t, root, lens, ct, work, c, huff)
    ensures c.used <= |t| && Decodes(t[..c.used], root, lens, ct)
  {
    hide Low, StreamCode, Shr, Prefix, Pow2, Placed, Entry, Lookup, BackInc, IsMax;
    forall s: nat, v: nat | s < |lens| && StartsWith(lens, s, v)
      ensures Lookup(t[..c.used], root, v) == Some((Entry(ct, s, EntryBits(root, lens[s])), lens[s]))
    {
      var j :| 0 <= j < |work| && work[j] == s;
      assert Placed(t, root, lens, ct, work[j], c.used);
      PlacedPrefix(t, root, lens, ct, s, c.used);
      PlacedLookup(t[..c.used], root, lens, ct, s, c.used, v);
    }
  }

  /** Links stand behind all bits of the root index. */
  ghost predicate LinksOk(t: seq<Code>, root: nat) {
    forall i :: 0 <= i < |t| && i < Pow2(root) && IsLink(t[i]) ==> t[i].bits == root
  }

  /** There are links only if there are codes longer than the root index. */
  ghost predicate LinksNeeded(t: seq<Code>, root: nat, lens: seq<nat>) {
    (forall s :: 0 <= s < |lens| ==> lens[s] <= root) ==> forall i :: 0 <= i < |t| && i < Pow2(root) ==> !IsLink(t[i])
  }

  lemma DoneLinks(t: seq<Code>, root: nat, lens: seq<nat>, ct: CodeType, work: seq<nat>, max: nat, c: Cursor, huff: nat)
    requires Input(lens, ct, work, root, max) && |work| > 0 && Done(t, root, lens, ct, work, c, huff) && Complete(lens)
    ensures c.used <= |t| && LinksOk(t[..c.used], root) && LinksNeeded(t[..c.used], root, lens)
  {
    hide Low, StreamCode, Shr, Prefix, Pow2, Placed, Entry, BackInc, IsMax, Complete, StartsWith;
    forall i | 0 <= i < c.used && i < Pow2(root) && IsLink(t[i])
      ensures t[i].bits == root && exists s :: 0 <= s < |lens| && lens[s] > root
    {
      var s := Decodable(lens, i);
      StartsHasLength(lens, s, i);
      var j :| 0 <= j < |work| && work[j] == s;
      assert Placed(t, root, lens, ct, work[j], c.used);
      PlacedLink(t, root, lens, ct, s, c.used, i);
    }
  }

  lemma StartsHasLength(lens: seq<nat>, s: nat, v: nat)
    requires s < |lens| && StartsWith(lens, s, v)
    ensures lens[s] > 0
  {
  }

  lemma PlacedLink(t: seq<Code>, root: nat, lens: seq<nat>, ct: CodeType, s: nat, end: nat, i: nat)
    requires s < |lens| && s < MaxCodes(ct) && Placed(t, root, lens, ct, s, end) && StartsWith(lens, s, i)
    requires i < |t| && i < Pow2(root) && IsLink(t[i])
    ensures t[i].bits == root && lens[s] > root
  {
    hide Low, Shr, Pow2, StreamCode, Entry;
    if lens[s] > root {
      LowShr(i, root, lens[s] - root);
      LowSmall(i, root);
    }
  }

  lemma CompleteEnds(lens: seq<nat>, max: nat)
    requires IsMax(lens, max) && max > 0 && Complete(lens)
    ensures NextCode(lens, max) + Count(lens, max) == Pow2(max)
  {
    hide Count, Shl, Pow2, NextCode;
    if max < MAXBITS {
      var x := NextCode(lens, max) + Count(lens, max);
      NextCodeSkips(lens, max, MAXBITS);
      ShlPow2(max, MAXBITS - max);
      if x < Pow2(max) { ShlMono(x, Pow2(max), MAXBITS - max); }
      if x > Pow2(max) { ShlMono(Pow2(max), x, MAXBITS - max); }
    }
  }

  /** The last code of a complete set is all ones, so the increment wraps to zero. */
  lemma LastWraps(lens: seq<nat>, ct: CodeType, work: seq<nat>, root: nat, max: nat)
    requires Input(lens, ct, work, root, max) && |work| > 0 && Complete(lens)
    ensures var last := work[|work| - 1]; BackInc(lens[last], StreamCode(lens, last)) == 0
  {
    hide Prefix, Rev, BackInc, Pow2, Low;
    var last := work[|work| - 1];
    var l, code := lens[last], CodeOf(lens, last);
    NextSymbol(lens, ct, work, root, max, |work| - 1, Remaining(lens, last, l) - 1);
    CompleteEnds(lens, max);
    assert code + 1 == Pow2(l);
    var h := StreamCode(lens, last);
    RevRev(l, code);
    LowSmall(code, l);
    BackIncIsIncrement(l, h);
    BackIncBound(l, h);
    var g := BackInc(l, h);
    RevRev(l, g);
    LowSmall(g, l);
    RevZero(l);
  }

  lemma EmptyIsMaxZero(lens: seq<nat>, max: nat)
    requires ValidLens(lens) && IsMax(lens, max)
    ensures max == 0 <==> Empty(lens)
  {
    if max == 0 {
      forall i | 0 <= i < |lens| ensures lens[i] == 0 { LengthCounted(lens, i); }
    } else if Empty(lens) {
      CountBetween(lens, 0, |lens|, max);
    }
  }

  lemma SomeSymbol(lens: seq<nat>, work: seq<nat>, max: nat, min: nat)
    requires SortedSymbols(work, lens) && IsMax(lens, max) && IsMin(lens, min)
    ensures |work| > 0 && lens[work[0]] == min
  {
    var u := FindNth(lens, |lens|, min, 0);
    FirstIsLeast(work, lens, u);
    LengthCounted(lens, work[0]);
    assert u in work;
  }

  /** Before the first symbol nothing is done: all counts remain. */
  lemma CountsAtStart(count: seq<nat>, lens: seq<nat>, ct: CodeType, work: seq<nat>, root: nat, max: nat)
    requires Input(lens, ct, work, root, max) && |work| > 0 && Counted(count, lens)
    ensures CountsFrom(count, lens, work[0])
  {
    hide Prefix, IsMax;
    var s := work[0];
    forall b | 1 <= b <= MAXBITS ensures count[b] == Remaining(lens, s, b) {
      if b < lens[s] {
        forall u | 0 <= u < |lens| ensures lens[u] != b { FirstIsLeast(work, lens, u); }
        CountBetween(lens, 0, |lens|, b);
      } else if b == lens[s] {
        forall u | 0 <= u < s ensures lens[u] != b { FirstIsLeast(work, lens, u); }
        CountBetween(lens, 0, s, b);
      }
    }
  }

  lemma DistinctSymbols(work: seq<nat>, lens: seq<nat>, i: nat, j: nat)
    requires SortedSymbols(work, lens) && i < j < |work|
    ensures work[i] != work[j]
  {
    assert Before(lens, work[i], work[j]);
  }

  /** A single one-bit code: its symbol is sent as 0, and 1 is left over. */
  lemma SingleCode(lens: seq<nat>, work: seq<nat>)
    requires ValidLens(lens) && Prefix(lens) && Single(lens) && SortedSymbols(work, lens)
    ensures |work| == 1 && lens[work[0]] == 1 && StreamCode(lens, work[0]) == 0
    ensures BackInc(1, 0) == 1
  {
    hide Rev;
    NotCompleteOne(lens);
    var s := FindNth(lens, |lens|, 1, 0);
    assert s in work;
    forall u: nat | u < |lens| && lens[u] > 0 ensures u == s {
      LengthCounted(lens, u);
      assert lens[u] == 1;
      CountToMono(lens, u, |lens|, 1);
      if u < s { CountToMono(lens, u, s, 1); }
      if s < u { CountToMono(lens, s, u, 1); }
    }
    if |work| > 1 { DistinctSymbols(work, lens, 0, 1); }
    assert CodeOf(lens, s) == 0;
    RevZero(1);
    assert Shr(0, 0) == 0 && Low(0, 0) == 0 && Pow2(0) == 1;
  }

  lemma NotCompleteOne(lens: seq<nat>)
    requires Prefix(lens) && Single(lens)
    ensures Count(lens, 1) == 1
  {
    hide Count;
    assert Fits(lens, 1) && Pow2(1) == 2;
    NextCodeSkips(lens, 1, MAXBITS);
    if Count(lens, 1) == 2 { ShlPow2(1, MAXBITS - 1); }
  }

  lemma SingleRejects(t: seq<Code>, lens: seq<nat>, work: seq<nat>)
    requires ValidLens(lens) && Prefix(lens) && Single(lens) && SortedSymbols(work, lens)
    requires |t| == 2 && t[1] == INVALID
    ensures RejectsOthers(t, 1, lens)
  {
    hide Prefix, StreamCode, BackInc;
    SingleCode(lens, work);
    var s := work[0];
    forall v: nat | forall u: nat :: u < |lens| ==> !StartsWith(lens, u, v)
      ensures Lookup(t, 1, v) == Some((INVALID, 1))
    {
      assert !StartsWith(lens, s, v);
      OneBit(v);
    }
  }

  lemma OneBit(v: nat)
    ensures Low(v, 1) == v % 2
  {
    assert Low(v / 2, 0) == 0;
  }

  lemma EmptyRejects(t: seq<Code>, lens: seq<nat>)
    requires Empty(lens) && |t| == 2 && t[0] == INVALID && t[1] == INVALID
    ensures RejectsOthers(t, 1, lens)
  {
    forall v: nat ensures Lookup(t, 1, v) == Some((INVALID, 1)) { OneBit(v); }
  }

  /**
    inflate_table.  The result is -1 exactly for a set of lengths that is
    over-subscribed, or incomplete and not a single one-bit code; +1 only if the
    provided space does not suffice.  On 0 the table decodes every stream that
    starts with a code, and answers "invalid" to every other.  What lies before
    the table is left alone.
   */
  method InflateTable(ct: CodeType, lens: seq<nat>, table: array<Code>, base: nat, bits: nat)
    returns (ret: int, root: nat, used: nat)
    requires ValidLens(lens) && |lens| <= MaxCodes(ct) && 1 <= bits
    requires ct == CODES ==> forall i :: 0 <= i < |lens| ==> lens[i] <= bits
    requires base + Space(ct, bits) <= table.Length
    modifies table
    ensures ret == -1 || ret == 0 || ret == 1
    ensures Enough(ct, lens, bits) ==> ret != 1
    ensures ret == -1 <==> !Empty(lens) && !Acceptable(lens, ct)
    ensures ret == 0 ==> base + used <= table.Length
    ensures ret == 0 && !Empty(lens) ==> Decodes(table[base..base + used], root, lens, ct)
    ensures ret == 0 && !(!Empty(lens) && Complete(lens)) ==> RejectsOthers(table[base..base + used], root, lens)
    ensures ret == 0 ==> LinksOk(table[base..base + used], root) && LinksNeeded(table[base..base + used], root, lens)
    ensures ret == 0 && ct == CODES ==> forall i :: 0 <= i < |lens| ==> lens[i] <= root
    ensures table[..base] == old(table[..base])
  {
    hide LinksOk, LinksNeeded;
    hide Prefix, IsMax, IsMin, Complete, Decodes, RejectsOthers, Done, Pow2, SortedSymbols, CountsFrom, Counted,
         Follows, BackInc, StreamCode, Geometry, Count, Single, Empty, Left, Enough, Affordable;
    var count := CountLengths(lens);
    root := bits;
    used := 0;
    var max := FindMax(count[..], lens);
    EmptyIsMaxZero(lens, max);
    MaxRange(lens, max);
    MaxBounds(lens, max);
    if root > max { root := max; }
    if max == 0 {
      SpaceForTwo(ct, bits);
      table[base] := INVALID;
      table[base + 1] := INVALID;
      EmptyRejects(table[base..base + 2], lens);
      NoLinks(table[base..base + 2], 1, lens);
      return 0, 1, 2;
    }
    var min := FindMin(count[..], max, lens);
    MinRange(lens, min);
    if root < min { root := min; }
    var ok, left := KraftCheck(count[..], lens);
    if !ok { return -1, root, used; }
    KraftLeft(lens, max, left);
    if left > 0 && (ct == CODES || max != 1) {
      return -1, root, used;
    }
    var work := SortSymbols(lens, count[..]);
    SomeSymbol(lens, work, max, min);
    CodesFitRoot(lens, ct, max, bits);
    Pow2Mono(root, if root <= bits then bits else root);
    CountsAtStart(count[..], lens, ct, work, root, max);
    var done, c, huff, len := FillTables(table, base, lens, ct, work, count, root, max);
    if !done {
      Overflowed(ct, lens, work, max, bits, root);
      return 1, root, used;
    }
    used := c.used;
    ret := 0;
    DoneDecodes(table[base..], root, lens, ct, work, max, c, huff);
    assert table[base..][..used] == table[base..base + used];
    if left > 0 {
      SingleDone(table[base..], root, lens, ct, work, c, huff);
    } else {
      LastWraps(lens, ct, work, root, max);
      DoneHuff(table[base..], root, lens, ct, work, c, huff);
      DoneLinks(table[base..], root, lens, ct, work, max, c, huff);
    }
    if huff != 0 {
      table[base + c.next + huff] := Code(64, len - c.drop, 0);
      SingleStillDecodes(table[base..base + used], lens, ct, work);
      SingleRejects(table[base..base + used], lens, work);
      NoLinks(table[base..base + used], root, lens);
    }
  }

  /**
    The tables inflate asks for fit: those of the code length code, those without
    a second level, and those for which ENOUGH_LENS and ENOUGH_DISTS were found.
   */
  ghost predicate Enough(ct: CodeType, lens: seq<nat>, bits: nat) {
    || ct == CODES
    || ((forall i :: 0 <= i < |lens| ==> lens[i] <= bits) && Pow2(bits) <= Space(ct, bits))
    || (ct == LENS && bits == 9 && |lens| <= 286)
    || (ct == DISTS && bits == 6 && |lens| <= 30)
  }

  /** The index length of the root table. */
  function RootBits(bits: nat, min: nat, max: nat): nat {
    if bits < min then min else if bits < max then bits else max
  }

  lemma {:induction false} DistinctBelow(s: seq<nat>, n: nat)
    requires forall i :: 0 <= i < |s| ==> s[i] < n
    requires forall i, j :: 0 <= i < j < |s| ==> s[i] != s[j]
    ensures |s| <= n
    decreases n
  {
    if s == [] {
    } else if i :| 0 <= i < |s| && s[i] == n - 1 {
      DistinctBelow(s[..i] + s[i + 1..], n - 1);
    } else {
      assert s[0] < n;
      DistinctBelow(s, n - 1);
    }
  }

  lemma FewSymbols(work: seq<nat>, lens: seq<nat>)
    requires SortedSymbols(work, lens)
    ensures |work| <= |lens|
  {
    forall i, j | 0 <= i < j < |work| ensures work[i] != work[j] { assert Before(lens, work[i], work[j]); }
    DistinctBelow(work, |lens|);
  }

  lemma Overflowed(ct: CodeType, lens: seq<nat>, work: seq<nat>, max: nat, bits: nat, root: nat)
    requires Input(lens, ct, work, root, max) && |work| > 0 && root == RootBits(bits, lens[work[0]], max) && lens[work[0]] <= max
    requires (ct == CODES ==> max <= bits) && (max > 1 ==> Complete(lens))
    requires max > root || Pow2(root) > Space(ct, root)
    requires !Affordable(lens, work, root, max, Space(ct, root))
    ensures !Enough(ct, lens, bits)
  {
    hide Pow2, Prefix, Complete, Affordable;
    FewSymbols(work, lens);
    Powers();
    if max <= bits {
      Pow2Mono(root, bits);
    } else {
      MaxIsLength(lens, max);
      if ct == LENS && bits == 9 && |lens| <= 286 {
        SomeShort(lens, work, 9);
        EnoughForLens(lens, work, max);
      } else if ct == DISTS && bits == 6 && |lens| <= 30 {
        SomeShort(lens, work, 6);
        EnoughForDists(lens, work, max);
      }
    }
  }

  lemma MaxIsLength(lens: seq<nat>, max: nat)
    requires IsMax(lens, max) && max > 0
    ensures exists i :: 0 <= i < |lens| && lens[i] == max
  {
    var s := FindNth(lens, |lens|, max, 0);
  }

  lemma NoLinks(t: seq<Code>, root: nat, lens: seq<nat>)
    requires forall i :: 0 <= i < |t| ==> !IsLink(t[i])
    ensures LinksOk(t, root) && LinksNeeded(t, root, lens)
  {
  }

  lemma MaxBounds(lens: seq<nat>, max: nat)
    requires ValidLens(lens) && IsMax(lens, max)
    ensures forall i :: 0 <= i < |lens| ==> lens[i] <= max
  {
    forall i | 0 <= i < |lens| ensures lens[i] <= max { LengthCounted(lens, i); }
  }

  lemma MaxRange(lens: seq<nat>, max: nat)
    requires IsMax(lens, max)
    ensures max <= MAXBITS
  {
  }

  lemma MinRange(lens: seq<nat>, min: nat)
    requires IsMin(lens, min)
    ensures 1 <= min <= MAXBITS
  {
  }

  lemma SpaceForTwo(ct: CodeType, bits: nat)
    requires 1 <= bits
    ensures Space(ct, bits) >= 2
  {
    Pow2Mono(1, bits);
    assert Pow2(1) == 2;
  }

  lemma KraftLeft(lens: seq<nat>, max: nat, left: int)
    requires IsMax(lens, max) && left == Left(lens, MAXBITS) && Prefix(lens)
    ensures left == 0 <==> Complete(lens)
    ensures left >= 0
    ensures Single(lens) <==> max == 1 && left > 0
  {
    assert Fits(lens, MAXBITS);
  }

  lemma CodesFitRoot(lens: seq<nat>, ct: CodeType, max: nat, bits: nat)
    requires IsMax(lens, max) && max > 0
    requires ct == CODES ==> forall i :: 0 <= i < |lens| ==> lens[i] <= bits
    ensures ct == CODES ==> max <= bits
  {
    var s := FindNth(lens, |lens|, max, 0);
  }

  lemma DoneHuff(t: seq<Code>, root: nat, lens: seq<nat>, ct: CodeType, work: seq<nat>, c: Cursor, huff: nat)
    requires |lens| <= MaxCodes(ct) && SortedSymbols(work, lens) && |work| > 0
    requires Done(t, root, lens, ct, work, c, huff)
    ensures var last := work[|work| - 1]; huff == BackInc(lens[last], StreamCode(lens, last))
  {
  }

  lemma SingleDone(t: seq<Code>, root: nat, lens: seq<nat>, ct: CodeType, work: seq<nat>, c: Cursor, huff: nat)
    requires |lens| <= MaxCodes(ct) && SortedSymbols(work, lens) && |work| > 0 && root == 1
    requires ValidLens(lens) && Prefix(lens) && Single(lens)
    requires Done(t, root, lens, ct, work, c, huff)
    ensures huff == 1 && c.drop == 0 && c.next == 0 && c.used == 2 && lens[work[|work| - 1]] == 1
    ensures |t| >= 2 && t[0] == Entry(ct, work[0], 1)
  {
    hide Prefix, Single, BackInc, StreamCode, SegmentOk, Entry;
    SingleCode(lens, work);
    assert Pow2(1) == 2;
    assert Placed(t, root, lens, ct, work[0], c.used);
    OneBit(0);
  }

  lemma SingleStillDecodes(t: seq<Code>, lens: seq<nat>, ct: CodeType, work: seq<nat>)
    requires ValidLens(lens) && Prefix(lens) && Single(lens) && SortedSymbols(work, lens)
    requires |lens| <= MaxCodes(ct) && |t| == 2 && |work| > 0 && t[0] == Entry(ct, work[0], 1)
    ensures Decodes(t, 1, lens, ct)
  {
    hide Prefix, Single, StreamCode, Entry;
    SingleCode(lens, work);
    forall s: nat, v: nat | s < |lens| && StartsWith(lens, s, v)
      ensures Lookup(t, 1, v) == Some((Entry(ct, s, EntryBits(1, lens[s])), lens[s]))
    {
      assert s in work;
      OneBit(v);
    }
  }

  // ----- encoder and decoder agree -------------------------------------------------------------------

  /**
    What gen_codes sends for a symbol, followed by anything, is looked up as that
    symbol, and exactly the bits of its code are dropped.
   */
  lemma SentCodeIsFound(t: seq<Code>, root: nat, lens: seq<nat>, ct: CodeType, s: nat, rest: nat)
    requires |lens| <= MaxCodes(ct) && Decodes(t, root, lens, ct) && s < |lens| && lens[s] > 0
    ensures Lookup(t, root, Shl(rest, lens[s]) + StreamCode(lens, s))
         == Some((Entry(ct, s, EntryBits(root, lens[s])), lens[s]))
  {
    hide Lookup, Entry, Shl, Low, Rev;
    RevBound(lens[s], CodeOf(lens, s));
    Join(rest, StreamCode(lens, s), lens[s]);
    assert StartsWith(lens, s, Shl(rest, lens[s]) + StreamCode(lens, s));
  }

  /** With a complete set of lengths every lookup ends at the one symbol whose code the stream starts with. */
  lemma EveryStreamDecodes(t: seq<Code>, root: nat, lens: seq<nat>, ct: CodeType, v: nat) returns (s: nat)
    requires ValidLens(lens) && |lens| <= MaxCodes(ct) && Prefix(lens) && Complete(lens) && Decodes(t, root, lens, ct)
    ensures s < |lens| && StartsWith(lens, s, v)
    ensures Lookup(t, root, v) == Some((Entry(ct, s, EntryBits(root, lens[s])), lens[s]))
    ensures forall u: nat :: u < |lens| && StartsWith(lens, u, v) ==> u == s
  {
    hide Lookup, Entry, Prefix, Complete, StartsWith;
    s := Decodable(lens, v);
    forall u: nat | u < |lens| && StartsWith(lens, u, v) ensures u == s { PrefixFree(lens, u, s, v); }
  }
}
