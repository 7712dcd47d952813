/**
  gen_bitlen of deps/zlib/trees.c: from a Huffman tree given by its nodes in
  order and their fathers to code lengths no greater than a maximum, repairing
  the lengths that are too long.
 */
module BitLengths {
  import opened Bits
  import opened Canonical

  // ----- trees in order ----------------------------------------------------------------

  ghost predicate Distinct(s: seq<nat>) {
    forall i, j :: 0 <= i < j < |s| ==> s[i] != s[j]
  }

  /** The father of the i-th node in order: sons stand in pairs, the latest father first. */
  function DadAt(elems: nat, joins: nat, i: nat): int {
    elems + joins - 1 - (i - 1) / 2
  }

  /**
    `order` lists a tree's nodes, the root first and fathers before sons.  Leaves
    are below elems; the joins made internal nodes elems, elems + 1, ..., whose
    two sons stand next to each other.
   */
  ghost predicate TreeOrder(order: seq<nat>, dad: seq<nat>, elems: nat, joins: nat) {
    && joins >= 1 && |order| == 2 * joins + 1
    && (forall i :: 0 <= i < |order| ==> order[i] < elems + joins <= |dad|)
    && Distinct(order)
    && order[0] == elems + joins - 1
    && (forall i :: 1 <= i < |order| ==> dad[order[i]] == DadAt(elems, joins, i))
    && (forall j :: 0 <= j < joins ==> BeforeSons(order, elems, joins, j))
  }

  /** Where the sons of internal node elems + j begin. */
  function SonsAt(joins: nat, j: int): int {
    2 * (joins - 1 - j) + 1
  }

  ghost predicate BeforeSons(order: seq<nat>, elems: nat, joins: nat, j: int) {
    exists i :: 0 <= i < SonsAt(joins, j) && i < |order| && order[i] == elems + j
  }

  // ----- sums ------------------------------------------------------------------------------

  function Sum(s: seq<nat>): nat {
    if s == [] then 0 else Sum(s[..|s| - 1]) + s[|s| - 1]
  }

  lemma {:induction false} SumUpdate(s: seq<nat>, i: nat, x: nat)
    requires i < |s|
    ensures Sum(s[i := x]) == Sum(s) - s[i] + x
    decreases |s|
  {
    var n := |s| - 1;
    var t := s[i := x];
    if i < n {
      SumUpdate(s[..n], i, x);
      assert t[..n] == s[..n][i := x];
    } else {
      assert t[..n] == s[..n];
    }
  }

  lemma {:induction false} SumZero(s: seq<nat>)
    requires forall i :: 0 <= i < |s| ==> s[i] == 0
    ensures Sum(s) == 0
    decreases |s|
  {
    if s != [] { SumZero(s[..|s| - 1]); }
  }

  /** Kraft's sum of a distribution of lengths 1..n, in units of 2^-m. */
  function Kraft(bl: seq<nat>, m: nat, n: nat): nat
    requires n < |bl| && n <= m
  {
    if n == 0 then 0 else Kraft(bl, m, n - 1) + Shl(bl[n], m - n)
  }

  /** The number of codes of length 1..n. */
  function Codes(bl: seq<nat>, n: nat): nat
    requires n < |bl|
  {
    if n == 0 then 0 else Codes(bl, n - 1) + bl[n]
  }

  lemma {:induction false} KraftFrame(a: seq<nat>, b: seq<nat>, m: nat, n: nat)
    requires n < |a| && n < |b| && n <= m && forall i :: 1 <= i <= n ==> a[i] == b[i]
    ensures Kraft(a, m, n) == Kraft(b, m, n) && Codes(a, n) == Codes(b, n)
  {
    if n > 0 { KraftFrame(a, b, m, n - 1); }
  }

  lemma {:induction false} KraftAdd(bl: seq<nat>, m: nat, n: nat, i: nat, x: nat)
    requires n < |bl| && n <= m && 1 <= i <= n
    ensures Kraft(bl[i := bl[i] + x], m, n) == Kraft(bl, m, n) + Shl(x, m - i)
    ensures Codes(bl[i := bl[i] + x], n) == Codes(bl, n) + x
    decreases n
  {
    if i == n {
      KraftFrame(bl[i := bl[i] + x], bl, m, n - 1);
      ShlAdd(bl[i], x, m - i);
    } else {
      KraftAdd(bl, m, n - 1, i, x);
    }
  }

  lemma KraftSub(bl: seq<nat>, m: nat, n: nat, i: nat)
    requires n < |bl| && n <= m && 1 <= i <= n && bl[i] > 0
    ensures Kraft(bl[i := bl[i] - 1], m, n) + Pow2(m - i) == Kraft(bl, m, n)
    ensures Codes(bl[i := bl[i] - 1], n) + 1 == Codes(bl, n)
  {
    var a := bl[i := bl[i] - 1];
    KraftAdd(a, m, n, i, 1);
    assert a[i := a[i] + 1] == bl;
    ShlOne(m - i);
  }

  /** With nothing shorter than m, there are as many codes as Kraft's sum. */
  lemma {:induction false} KraftZero(bl: seq<nat>, m: nat, n: nat)
    requires n < |bl| && n <= m && forall i :: 1 <= i <= n ==> bl[i] == 0
    ensures Kraft(bl, m, n) == 0 && Codes(bl, n) == 0
  {
    if n > 0 {
      KraftZero(bl, m, n - 1);
      ShlOne(m - n);
    }
  }

  lemma OnlyLongest(bl: seq<nat>, m: nat)
    requires 1 <= m < |bl| && forall i :: 1 <= i < m ==> bl[i] == 0
    ensures Kraft(bl, m, m) == Codes(bl, m) == bl[m]
  {
    KraftZero(bl, m, m - 1);
  }

  // ----- repairing lengths that are too long ---------------------------------------------------

  /** The distribution has `excess` units too much, and enough of the longest codes to give them up. */
  ghost predicate Overfull(bl: seq<nat>, m: nat, excess: nat, codes: nat) {
    && 1 <= m < |bl| && bl[0] == 0
    && Kraft(bl, m, m) == Pow2(m) + excess
    && Codes(bl, m) == codes <= Pow2(m)
    && bl[m] > excess
  }

  /** The search for a length that can increase finds one: not all codes are of the longest length. */
  lemma SomeShorter(bl: seq<nat>, m: nat, excess: nat, codes: nat)
    requires Overfull(bl, m, excess, codes) && excess > 0
    ensures exists b :: 1 <= b < m < |bl| && bl[b] > 0
  {
    if forall i :: 1 <= i < m ==> bl[i] == 0 { OnlyLongest(bl, m); }
  }

  /** The distribution after one leaf moves down and takes an overflow item as its brother. */
  function Repaired(bl: seq<nat>, m: nat, b: nat): seq<nat>
    requires b < m < |bl| && bl[b] > 0 && bl[m] > 0
  {
    var x := bl[b := bl[b] - 1];
    var y := x[b + 1 := x[b + 1] + 2];
    y[m := y[m] - 1]
  }

  /** The greatest length below m that some code has. */
  ghost predicate Deepest(bl: seq<nat>, m: nat, b: nat) {
    1 <= b < m < |bl| && bl[b] > 0 && forall i :: b < i < m ==> bl[i] == 0
  }

  /** after is one repair of before, at the deepest leaf that can move down. */
  ghost predicate RepairedOnce(before: seq<nat>, after: seq<nat>, m: nat) {
    exists b :: Deepest(before, m, b) && before[m] > 0 && after == Repaired(before, m, b)
  }

  /** after is n repairs of before. */
  ghost predicate RepairedIn(before: seq<nat>, after: seq<nat>, m: nat, n: nat)
    decreases n
  {
    if n == 0 then after == before
    else exists mid :: RepairedIn(before, mid, m, n - 1) && RepairedOnce(mid, after, m)
  }

  /** One repair removes exactly one unit of excess and keeps the number of codes. */
  lemma RepairStep(bl: seq<nat>, m: nat, excess: nat, codes: nat, b: nat, after: seq<nat>)
    requires Overfull(bl, m, excess, codes) && excess > 0 && 1 <= b < m && bl[b] > 0
    requires bl[m] > 0 && after == Repaired(bl, m, b)
    ensures Overfull(after, m, excess - 1, codes)
  {
    hide Kraft, Codes, Pow2;
    var x := bl[b := bl[b] - 1];
    KraftSub(bl, m, m, b);
    var y := x[b + 1 := x[b + 1] + 2];
    KraftAdd(x, m, m, b + 1, 2);
    TwoHalves(m, b);
    KraftSub(y, m, m, m);
    assert after == y[m := y[m] - 1];
    PowZero();
  }

  lemma TwoHalves(m: nat, b: nat)
    requires b < m
    ensures Shl(2, m - (b + 1)) == Pow2(m - b)
  {
    assert Pow2(1) == 2;
    ShlPow2(1, m - (b + 1));
  }

  /** The do-while loop of gen_bitlen over bl_count. */
  method Repair(bl: array<nat>, m: nat, over: nat, ghost codes: nat)
    requires over > 0 && over % 2 == 0 && Overfull(bl[..], m, over / 2, codes)
    modifies bl
    ensures Overfull(bl[..], m, 0, codes) && RepairedIn(old(bl[..]), bl[..], m, over / 2)
    ensures forall i :: m < i < bl.Length ==> bl[i] == old(bl[i])
  {
    hide Overfull, RepairedOnce;
    var overflow: int := over;
    LongestIn(bl[..], m, over / 2, codes);
    while overflow > 0
      invariant 0 <= overflow && overflow % 2 == 0 && 1 <= m < bl.Length
      invariant Overfull(bl[..], m, overflow / 2, codes) && overflow <= over
      invariant RepairedIn(old(bl[..]), bl[..], m, over / 2 - overflow / 2)
      invariant forall i :: m < i < bl.Length ==> bl[i] == old(bl[i])
      decreases overflow
    {
      SomeShorter(bl[..], m, overflow / 2, codes);
      ghost var found :| 1 <= found < m && bl[..][found] > 0;
      var bits := m - 1;
      while bl[bits] == 0
        invariant found <= bits < m && forall i :: bits < i < m ==> bl[i] == 0
        decreases bits
      {
        bits := bits - 1;
      }
      ghost var before := bl[..];
      LongestIn(before, m, overflow / 2, codes);
      bl[bits] := bl[bits] - 1;
      bl[bits + 1] := bl[bits + 1] + 2;
      bl[m] := bl[m] - 1;
      RepairStep(before, m, overflow / 2, codes, bits, bl[..]);
      OnceIs(before, bl[..], m, bits);
      overflow := overflow - 2;
    }
  }

  lemma RepairedNone(bl: seq<nat>, m: nat)
    ensures RepairedIn(bl, bl, m, 0)
  {
  }

  lemma OnceIs(before: seq<nat>, after: seq<nat>, m: nat, b: nat)
    requires Deepest(before, m, b) && before[m] > 0 && after == Repaired(before, m, b)
    ensures RepairedOnce(before, after, m)
  {
  }

  lemma LongestIn(bl: seq<nat>, m: nat, excess: nat, codes: nat)
    requires Overfull(bl, m, excess, codes)
    ensures 1 <= m < |bl| && bl[m] > excess
  {
  }

  // ----- the first pass: depths, cut off at the maximum ---------------------------------------------

  /** The node is among the first h of the list. */
  ghost predicate Seen(order: seq<nat>, h: nat, node: int) {
    exists i :: 0 <= i < h && i < |order| && order[i] == node
  }

  /** How many sons of internal node elems + j are not among the first h nodes. */
  function Owed(joins: nat, j: int, h: nat): nat {
    var a := SonsAt(joins, j);
    if h <= a then 2 else if h == a + 1 then 1 else 0
  }

  /** dl holds lengths for the first h nodes and fathers for the others. */
  ghost predicate HalfDone(order: seq<nat>, dl: seq<nat>, elems: nat, joins: nat, m: nat, h: nat) {
    && (forall i :: 0 <= i < |order| ==> order[i] < |dl|)
    && (forall i :: 0 <= i < h && i < |order| ==> dl[order[i]] <= m)
    && (forall i :: 1 <= i < |order| && h <= i ==> dl[order[i]] == DadAt(elems, joins, i))
  }

  /** The weight still owed by each internal node that has a length: its own, split over its sons. */
  ghost predicate OpenInv(order: seq<nat>, dl: seq<nat>, elems: nat, joins: nat, m: nat, h: nat,
                          open: seq<nat>, deep: seq<nat>) {
    && |open| == joins && |deep| == joins && elems + joins <= |dl|
    && forall j :: 0 <= j < joins ==> OpenAt(order, dl, elems, joins, m, h, open, deep, j)
  }

  ghost predicate OpenAt(order: seq<nat>, dl: seq<nat>, elems: nat, joins: nat, m: nat, h: nat,
                         open: seq<nat>, deep: seq<nat>, j: nat)
    requires |open| == joins && |deep| == joins && elems + joins <= |dl| && j < joins
  {
    if Seen(order, h, elems + j) then
      && dl[elems + j] <= m
      && open[j] == Times(Owed(joins, j, h), Pow2(m - dl[elems + j]))
      && deep[j] == (if dl[elems + j] == m then Owed(joins, j, h) else 0)
    else open[j] == 0 && deep[j] == 0
  }

  /** k * x for k in 0..2. */
  function Times(k: nat, x: nat): nat {
    if k == 0 then 0 else if k == 1 then x else x + x
  }

  /**
    Kraft's sum of the leaves seen, plus what open nodes owe, is one plus half a
    unit for every node below the maximum; the longest leaves, plus what open
    nodes of that length owe, are the nodes at the maximum plus the same.
   */
  ghost predicate SumInv(bl: seq<nat>, m: nat, open: seq<nat>, deep: seq<nat>, over: nat, atMax: nat) {
    && 1 <= m < |bl| && bl[0] == 0
    && 2 * Kraft(bl, m, m) + Sum(open) == 2 * Pow2(m) + over
    && 2 * bl[m] + Sum(deep) == 2 * atMax + over
  }

  /** The father at position h has its length, and owes this son. */
  lemma DadIsReady(order: seq<nat>, dad: seq<nat>, dl: seq<nat>, elems: nat, joins: nat, m: nat, h: nat,
                   open: seq<nat>, deep: seq<nat>)
    requires TreeOrder(order, dad, elems, joins) && 1 <= h < |order|
    requires HalfDone(order, dl, elems, joins, m, h) && OpenInv(order, dl, elems, joins, m, h, open, deep)
    ensures var d := dl[order[h]];
            && elems <= d < elems + joins && d == DadAt(elems, joins, h) && dl[d] <= m
            && Seen(order, h, d) && d != order[h]
            && open[d - elems] >= Pow2(m - dl[d])
            && (dl[d] == m ==> deep[d - elems] >= 1)
    ensures |open| == |deep| == joins && elems + joins <= |dl|
  {
    var d := DadAt(elems, joins, h);
    var j := d - elems;
    assert BeforeSons(order, elems, joins, j);
    assert SonsAt(joins, j) <= h <= SonsAt(joins, j) + 1;
    var i :| 0 <= i < SonsAt(joins, j) && i < |order| && order[i] == d;
    assert order[i] != order[h];
    assert Seen(order, h, d);
    assert OpenAt(order, dl, elems, joins, m, h, open, deep, j);
  }

  lemma SeenStep(order: seq<nat>, h: nat, node: int)
    requires h < |order|
    ensures Seen(order, h + 1, node) <==> Seen(order, h, node) || order[h] == node
  {
    if order[h] == node { assert Seen(order, h + 1, node); }
  }

  /** What open nodes owe after the node at position h has got its length. */
  function OpenAfter(open: seq<nat>, j: nat, paid: nat, node: nat, elems: nat, w: nat): seq<nat>
    requires j < |open| && open[j] >= paid
    requires elems <= node ==> node - elems < |open|
  {
    var o := open[j := open[j] - paid];
    if node < elems then o else o[node - elems := w]
  }

  lemma OpenStep(order: seq<nat>, dad: seq<nat>, dl: seq<nat>, elems: nat, joins: nat, m: nat, h: nat,
                 open: seq<nat>, deep: seq<nat>, bits: nat, j: nat)
    requires TreeOrder(order, dad, elems, joins) && 1 <= h < |order|
    requires HalfDone(order, dl, elems, joins, m, h) && OpenInv(order, dl, elems, joins, m, h, open, deep)
    requires bits <= m && DadAt(elems, joins, h) == elems + j && j < joins && order[h] != elems + j
    requires Seen(order, h, elems + j) && dl[elems + j] <= m
    requires open[j] >= Pow2(m - dl[elems + j]) && (dl[elems + j] == m ==> deep[j] >= 1)
    ensures var node, dlen := order[h], dl[elems + j];
            OpenInv(order, dl[node := bits], elems, joins, m, h + 1,
                    OpenAfter(open, j, Pow2(m - dlen), node, elems, Pow2(m - bits) + Pow2(m - bits)),
                    OpenAfter(deep, j, if dlen == m then 1 else 0, node, elems, if bits == m then 2 else 0))
  {
    hide Pow2;
    var node, dlen := order[h], dl[elems + j];
    var dl1 := dl[node := bits];
    var o := OpenAfter(open, j, Pow2(m - dlen), node, elems, Pow2(m - bits) + Pow2(m - bits));
    var e := OpenAfter(deep, j, if dlen == m then 1 else 0, node, elems, if bits == m then 2 else 0);
    var h1 := h + 1;
    forall i | 0 <= i < joins ensures OpenAt(order, dl1, elems, joins, m, h1, o, e, i) {
      OpenStepAt(order, dad, dl, elems, joins, m, h, open, deep, bits, j, i);
    }
  }

  lemma OpenStepAt(order: seq<nat>, dad: seq<nat>, dl: seq<nat>, elems: nat, joins: nat, m: nat, h: nat,
                   open: seq<nat>, deep: seq<nat>, bits: nat, j: nat, i: nat)
    requires TreeOrder(order, dad, elems, joins) && 1 <= h < |order|
    requires HalfDone(order, dl, elems, joins, m, h) && OpenInv(order, dl, elems, joins, m, h, open, deep)
    requires bits <= m && DadAt(elems, joins, h) == elems + j && j < joins && order[h] != elems + j
    requires Seen(order, h, elems + j) && dl[elems + j] <= m
    requires open[j] >= Pow2(m - dl[elems + j]) && (dl[elems + j] == m ==> deep[j] >= 1)
    requires i < joins
    ensures var node, dlen := order[h], dl[elems + j];
            OpenAt(order, dl[node := bits], elems, joins, m, h + 1,
                   OpenAfter(open, j, Pow2(m - dlen), node, elems, Pow2(m - bits) + Pow2(m - bits)),
                   OpenAfter(deep, j, if dlen == m then 1 else 0, node, elems, if bits == m then 2 else 0), i)
  {
    hide Pow2, TreeOrder, HalfDone, Seen, OpenInv;
    OpenInvAt(order, dad, dl, elems, joins, m, h, open, deep, i);
    SeenStep(order, h, elems + i);
    assert SonsAt(joins, j) <= h <= SonsAt(joins, j) + 1;
    if order[h] == elems + i {
      SeenOnce(order, dad, elems, joins, h, i);
    } else if i != j {
      assert Owed(joins, i, h + 1) == Owed(joins, i, h) by { OwedSame(joins, i, j, h); }
    }
  }

  lemma OpenInvAt(order: seq<nat>, dad: seq<nat>, dl: seq<nat>, elems: nat, joins: nat, m: nat, h: nat,
                  open: seq<nat>, deep: seq<nat>, i: nat)
    requires TreeOrder(order, dad, elems, joins) && h < |order| && i < joins
    requires HalfDone(order, dl, elems, joins, m, h) && OpenInv(order, dl, elems, joins, m, h, open, deep)
    ensures |open| == joins && |deep| == joins && elems + joins <= |dl| && order[h] < elems + joins
    ensures OpenAt(order, dl, elems, joins, m, h, open, deep, i)
  {
  }

  lemma OwedSame(joins: nat, i: nat, j: nat, h: nat)
    requires i < joins && j < joins && i != j && SonsAt(joins, j) <= h <= SonsAt(joins, j) + 1
    ensures Owed(joins, i, h + 1) == Owed(joins, i, h)
  {
  }

  /** A node stands once in the list, before its sons. */
  lemma SeenOnce(order: seq<nat>, dad: seq<nat>, elems: nat, joins: nat, h: nat, i: nat)
    requires TreeOrder(order, dad, elems, joins) && h < |order| && i < joins && order[h] == elems + i
    ensures !Seen(order, h, elems + i) && h < SonsAt(joins, i)
  {
    assert BeforeSons(order, elems, joins, i);
    var p :| 0 <= p < SonsAt(joins, i) && p < |order| && order[p] == elems + i;
  }

  lemma OpenSum(open: seq<nat>, j: nat, paid: nat, node: nat, elems: nat, w: nat)
    requires j < |open| && open[j] >= paid
    requires elems <= node ==> node - elems < |open| && node - elems != j && open[node - elems] == 0
    ensures Sum(OpenAfter(open, j, paid, node, elems, w)) + paid == Sum(open) + (if node < elems then 0 else w)
  {
    hide Sum;
    var o := open[j := open[j] - paid];
    SumUpdate(open, j, open[j] - paid);
    if node >= elems { SumUpdate(o, node - elems, w); }
  }

  /** The length of a node from its father's, and whether it was cut off. */
  function Cut(dlen: nat, m: nat): nat {
    if dlen + 1 > m then m else dlen + 1
  }

  lemma HalfWeight(m: nat, dlen: nat)
    requires dlen <= m
    ensures Pow2(m - Cut(dlen, m)) + Pow2(m - Cut(dlen, m)) == Pow2(m - dlen) + (if dlen == m then 1 else 0)
  {
  }

  /** Accounting for one node: fathers pay their sons, cut-off nodes add half a unit. */
  lemma SumStep(bl: seq<nat>, m: nat, open: seq<nat>, deep: seq<nat>, over: nat, atMax: nat,
                j: nat, dlen: nat, node: nat, elems: nat)
    requires SumInv(bl, m, open, deep, over, atMax) && dlen <= m
    requires |open| == |deep| && j < |open|
    requires open[j] >= Pow2(m - dlen) && (dlen == m ==> deep[j] >= 1)
    requires elems <= node ==> node - elems < |open| && node - elems != j && open[node - elems] == 0 && deep[node - elems] == 0
    ensures var bits := Cut(dlen, m);
            SumInv(if node < elems then bl[bits := bl[bits] + 1] else bl, m,
                   OpenAfter(open, j, Pow2(m - dlen), node, elems, Pow2(m - bits) + Pow2(m - bits)),
                   OpenAfter(deep, j, if dlen == m then 1 else 0, node, elems, if bits == m then 2 else 0),
                   if dlen == m then over + 1 else over,
                   if dlen + 1 == m then atMax + 1 else atMax)
  {
    hide Pow2, Kraft, Sum, OpenAfter;
    var bits := Cut(dlen, m);
    HalfWeight(m, dlen);
    OpenSum(open, j, Pow2(m - dlen), node, elems, Pow2(m - bits) + Pow2(m - bits));
    OpenSum(deep, j, if dlen == m then 1 else 0, node, elems, if bits == m then 2 else 0);
    if node < elems {
      KraftAdd(bl, m, m, bits, 1);
      ShlOne(m - bits);
    }
  }

  // ----- the lengths of the leaves -------------------------------------------------------------------

  /** lens holds the lengths of the leaves among the first h nodes, and zero for all other symbols. */
  ghost predicate LeavesDone(order: seq<nat>, dl: seq<nat>, h: nat, lens: seq<nat>) {
    && (forall i :: 0 <= i < h && i < |order| && order[i] < |lens| ==>
          order[i] < |dl| && lens[order[i]] == dl[order[i]] && lens[order[i]] > 0)
    && forall s :: 0 <= s < |lens| && !Seen(order, h, s) ==> lens[s] == 0
  }

  lemma {:induction false} CountUpdate(lens: seq<nat>, n: nat, s: nat, x: nat, b: nat)
    requires n <= |lens| && s < |lens|
    ensures CountTo(lens[s := x], n, b)
         == if s < n then CountTo(lens, n, b) - (if lens[s] == b then 1 else 0) + (if x == b then 1 else 0)
            else CountTo(lens, n, b)
    decreases n
  {
    if n > 0 { CountUpdate(lens, n - 1, s, x, b); }
  }

  lemma TallyStep(bl: seq<nat>, lens: seq<nat>, s: nat, x: nat)
    requires Tally(bl, lens) && s < |lens| && lens[s] == 0 && 1 <= x <= MAXBITS
    ensures Tally(bl[x := bl[x] + 1], lens[s := x])
  {
    var bl1, lens1 := bl[x := bl[x] + 1], lens[s := x];
    forall b | 1 <= b <= MAXBITS ensures bl1[b] == Count(lens1, b) {
      CountUpdate(lens, |lens|, s, x, b);
    }
  }

  lemma LeavesStep(order: seq<nat>, dl: seq<nat>, h: nat, lens: seq<nat>, bits: nat)
    requires Distinct(order) && h < |order| && order[h] < |dl| && LeavesDone(order, dl, h, lens) && bits > 0
    ensures order[h] < |lens| ==> lens[order[h]] == 0
    ensures LeavesDone(order, dl[order[h] := bits], h + 1, if order[h] < |lens| then lens[order[h] := bits] else lens)
  {
    var node := order[h];
    var dl1, lens1 := dl[node := bits], if node < |lens| then lens[node := bits] else lens;
    forall s | 0 <= s < |lens| && !Seen(order, h + 1, s) ensures lens1[s] == 0 {
      SeenStep(order, h, s);
    }
    if node < |lens| {
      assert !Seen(order, h, node);
    }
  }

  function SymbolCost(freq: nat, len: nat, extra: nat): nat {
    freq * (len + extra)
  }

  /** The bits sent for the symbols with a code: a length and extra bits each, weighted with their frequencies. */
  function Cost(freq: seq<nat>, used: seq<nat>, lens: seq<nat>, extra: seq<nat>, n: nat): nat
    requires n <= |used| && n <= |lens| && n <= |freq| && n <= |extra|
  {
    if n == 0 then 0
    else Cost(freq, used, lens, extra, n - 1)
         + (if used[n - 1] == 0 then 0 else SymbolCost(freq[n - 1], lens[n - 1], extra[n - 1]))
  }

  lemma {:induction false} CostFrame(freq: seq<nat>, u: seq<nat>, v: seq<nat>, a: seq<nat>, b: seq<nat>, extra: seq<nat>, n: nat)
    requires n <= |u| && n <= |v| && n <= |a| && n <= |b| && n <= |freq| && n <= |extra|
    requires forall i :: 0 <= i < n ==> a[i] == b[i] && (u[i] == 0 <==> v[i] == 0)
    ensures Cost(freq, u, a, extra, n) == Cost(freq, v, b, extra, n)
    decreases n
  {
    if n > 0 { CostFrame(freq, u, v, a, b, extra, n - 1); }
  }

  /** A symbol gets its first length. */
  lemma {:induction false} CostEnter(freq: seq<nat>, u: seq<nat>, v: seq<nat>, a: seq<nat>, b: seq<nat>,
                                     extra: seq<nat>, n: nat, s: nat)
    requires |u| == |v| && n <= |u| && n <= |a| && n <= |b| && n <= |freq| && n <= |extra| && s < n
    requires u[s] == 0 && v[s] > 0
    requires forall i :: 0 <= i < n && i != s ==> a[i] == b[i] && (u[i] == 0 <==> v[i] == 0)
    ensures Cost(freq, v, b, extra, n) == Cost(freq, u, a, extra, n) + SymbolCost(freq[s], b[s], extra[s])
    decreases n
  {
    if s < n - 1 { CostEnter(freq, u, v, a, b, extra, n - 1, s); } else { CostFrame(freq, u, v, a, b, extra, n - 1); }
  }

  /** A symbol's length changes. */
  lemma {:induction false} CostChange(freq: seq<nat>, a: seq<nat>, extra: seq<nat>, n: nat, s: nat, x: nat)
    requires n <= |a| && n <= |freq| && n <= |extra| && s < n && a[s] > 0 && x > 0
    ensures Cost(freq, a[s := x], a[s := x], extra, n) == Cost(freq, a, a, extra, n) + (x - a[s]) * freq[s]
    decreases n
  {
    if s < n - 1 {
      CostChange(freq, a, extra, n - 1, s, x);
    } else {
      CostFrame(freq, a[s := x], a, a[s := x], a, extra, n - 1);
      assert freq[s] * (x + extra[s]) == freq[s] * (a[s] + extra[s]) + (x - a[s]) * freq[s];
    }
  }

  lemma {:induction false} CostNone(freq: seq<nat>, u: seq<nat>, a: seq<nat>, extra: seq<nat>, n: nat)
    requires n <= |u| && n <= |a| && n <= |freq| && n <= |extra| && forall i :: 0 <= i < n ==> u[i] == 0
    ensures Cost(freq, u, a, extra, n) == 0
  {
    if n > 0 { CostNone(freq, u, a, extra, n - 1); }
  }

  lemma {:induction false} CostSame(f: seq<nat>, g: seq<nat>, used: seq<nat>, l: seq<nat>, k: seq<nat>, e: seq<nat>, x: seq<nat>, n: nat)
    requires n <= |used| && n <= |l| && n <= |k| && n <= |f| && n <= |g| && n <= |e| && n <= |x|
    requires forall s :: 0 <= s < n ==> f[s] == g[s] && l[s] == k[s] && e[s] == x[s]
    ensures Cost(f, used, l, e, n) == Cost(g, used, k, x, n)
    decreases n
  {
    if n > 0 { CostSame(f, g, used, l, k, e, x, n - 1); }
  }

  /** One more occurrence of a symbol costs its length and extra bits. */
  lemma {:induction false} CostBump(freq: seq<nat>, used: seq<nat>, l: seq<nat>, extra: seq<nat>, n: nat, x: nat)
    requires n <= |used| && n <= |l| && n <= |freq| && n <= |extra| && x < n && used[x] > 0
    ensures Cost(freq[x := freq[x] + 1], used, l, extra, n) == Cost(freq, used, l, extra, n) + l[x] + extra[x]
    decreases n
  {
    hide SymbolCost;
    if x < n - 1 { CostBump(freq, used, l, extra, n - 1, x); } else {
      CostSame(freq, freq[x := freq[x] + 1], used, l, l, extra, extra, n - 1);
      OneMore(freq[x], l[x], extra[x]);
    }
  }

  lemma OneMore(freq: nat, len: nat, extra: nat)
    ensures SymbolCost(freq + 1, len, extra) == SymbolCost(freq, len, extra) + len + extra
  {
  }

  // ----- the first loop ----------------------------------------------------------------------------------

  /** A tree in order over n symbols, and what the symbols cost. */
  datatype Job = Job(order: seq<nat>, elems: nat, joins: nat, n: nat, m: nat,
                     freq: seq<nat>, extra: seq<nat>, slens: seq<nat>)

  ghost predicate GoodJob(job: Job, dad: seq<nat>) {
    && TreeOrder(job.order, dad, job.elems, job.joins)
    && 1 <= job.m <= MAXBITS && job.n <= job.elems
    && |job.freq| == |job.extra| == |job.slens| == job.n
    && forall i :: 0 <= i < |job.order| && job.order[i] < job.elems ==> job.order[i] < job.n
  }

  ghost predicate PassInv(job: Job, dl: seq<nat>, h: nat, bl: seq<nat>, lens: seq<nat>,
                          open: seq<nat>, deep: seq<nat>, over: nat, atMax: nat) {
    && HalfDone(job.order, dl, job.elems, job.joins, job.m, h)
    && OpenInv(job.order, dl, job.elems, job.joins, job.m, h, open, deep)
    && SumInv(bl, job.m, open, deep, over, atMax)
    && |lens| == job.n && LeavesDone(job.order, dl, h, lens) && Tally(bl, lens)
    && (over > 0 ==> atMax > 0)
    && LongSeen(job, dl, h, atMax)
    && job.m < |bl| && Codes(bl, job.m) == LeafCount(job.order, h, job.elems)
  }

  /** The number of leaves among the first h nodes. */
  function LeafCount(order: seq<nat>, h: nat, elems: nat): nat {
    if h == 0 then 0
    else LeafCount(order, h - 1, elems) + (if h <= |order| && order[h - 1] < elems then 1 else 0)
  }

  /** An internal node of the maximal length has been counted. */
  ghost predicate LongSeen(job: Job, dl: seq<nat>, h: nat, atMax: nat) {
    && job.elems + job.joins <= |dl|
    && forall x :: job.elems <= x < job.elems + job.joins && Seen(job.order, h, x) && dl[x] == job.m ==> atMax > 0
  }

  lemma PassStart(job: Job, dl: seq<nat>, dl0: seq<nat>, bl: seq<nat>, lens: seq<nat>, open: seq<nat>, deep: seq<nat>)
    requires GoodJob(job, dl) && dl0 == dl[job.order[0] := 0]
    requires |bl| == MAXBITS + 1 && (forall b :: 0 <= b <= MAXBITS ==> bl[b] == 0)
    requires lens == seq(job.n, _ => 0)
    requires open == seq(job.joins, _ => 0)[job.joins - 1 := Pow2(job.m) + Pow2(job.m)]
    requires deep == seq(job.joins, _ => 0)
    ensures PassInv(job, dl0, 1, bl, lens, open, deep, 0, 0)
  {
    hide Pow2;
    var zeros: seq<nat> := seq(job.joins, _ => 0);
    SumUpdate(zeros, job.joins - 1, Pow2(job.m) + Pow2(job.m));
    SumZero(zeros);
    KraftZero(bl, job.m, job.m);
    forall b | 1 <= b <= MAXBITS ensures Count(lens, b) == 0 { CountZeros(job.n, job.n, b); }
    assert LeafCount(job.order, 0, job.elems) == 0;
    forall j | 0 <= j < job.joins ensures OpenAt(job.order, dl0, job.elems, job.joins, job.m, 1, open, deep, j) {
      if j == job.joins - 1 { assert Seen(job.order, 1, job.order[0]); }
    }
  }

  lemma {:induction false} CountZeros(k: nat, n: nat, b: nat)
    requires n <= k && b > 0
    ensures CountTo(seq(k, _ => 0), n, b) == 0
    decreases n
  {
    if n > 0 { CountZeros(k, n - 1, b); }
  }

  /** Everything the first loop keeps, over one node. */
  lemma PassStep(job: Job, dad: seq<nat>, dl: seq<nat>, h: nat, bl: seq<nat>, lens: seq<nat>,
                 open: seq<nat>, deep: seq<nat>, over: nat, atMax: nat)
    returns (open1: seq<nat>, deep1: seq<nat>)
    requires GoodJob(job, dad) && 1 <= h < |job.order| && PassInv(job, dl, h, bl, lens, open, deep, over, atMax)
    ensures var node, d := job.order[h], dl[job.order[h]];
            && node < |dl| && d < |dl| && dl[d] <= job.m
            && (node < job.elems ==> node < job.n && lens[node] == 0)
            && var bits := Cut(dl[d], job.m);
               PassInv(job, dl[node := bits], h + 1,
                       if node < job.elems then bl[bits := bl[bits] + 1] else bl,
                       if node < job.elems then lens[node := bits] else lens,
                       open1, deep1,
                       if dl[d] == job.m then over + 1 else over,
                       if dl[d] + 1 == job.m then atMax + 1 else atMax)
  {
    hide Pow2, Kraft, Codes, Sum, OpenInv, SumInv, LeavesDone, Tally, HalfDone, OpenAfter, TreeOrder, Seen, LongSeen;
    var order, elems, joins, m := job.order, job.elems, job.joins, job.m;
    OrderFacts(job, dad, dl, h);
    DadIsReady(order, dad, dl, elems, joins, m, h, open, deep);
    var node, d := order[h], dl[order[h]];
    var dlen, j := dl[d], d - elems;
    var bits := Cut(dlen, m);
    SonIsNew(job, dad, dl, h, open, deep, j);
    OpenStep(order, dad, dl, elems, joins, m, h, open, deep, bits, j);
    open1 := OpenAfter(open, j, Pow2(m - dlen), node, elems, Pow2(m - bits) + Pow2(m - bits));
    deep1 := OpenAfter(deep, j, if dlen == m then 1 else 0, node, elems, if bits == m then 2 else 0);
    SumStep(bl, m, open, deep, over, atMax, j, dlen, node, elems);
    LeavesStep(order, dl, h, lens, bits);
    HalfStep(job, dad, dl, h, bits);
    if node < elems {
      TallyStep(bl, lens, node, bits);
      TallySize(bl, lens);
      KraftAdd(bl, m, m, bits, 1);
    }
    AtMaxStep(job, dl, h, bits, atMax, if dlen + 1 == m then atMax + 1 else atMax, d);
  }

  lemma TallySize(bl: seq<nat>, lens: seq<nat>)
    requires Tally(bl, lens)
    ensures |bl| == MAXBITS + 1
  {
  }

  lemma OrderFacts(job: Job, dad: seq<nat>, dl: seq<nat>, h: nat)
    requires GoodJob(job, dad) && 1 <= h < |job.order| && HalfDone(job.order, dl, job.elems, job.joins, job.m, h)
    ensures job.order[h] < |dl| && Distinct(job.order)
    ensures job.order[h] < job.elems ==> job.order[h] < job.n
    ensures job.order[h] < job.elems + job.joins
  {
  }

  lemma SonIsNew(job: Job, dad: seq<nat>, dl: seq<nat>, h: nat, open: seq<nat>, deep: seq<nat>, j: int)
    requires GoodJob(job, dad) && 1 <= h < |job.order|
    requires OpenInv(job.order, dl, job.elems, job.joins, job.m, h, open, deep)
    requires 0 <= j < job.joins && job.order[h] != job.elems + j
    ensures job.elems <= job.order[h] ==>
              var i := job.order[h] - job.elems;
              i < |open| == |deep| && i != j && open[i] == 0 && deep[i] == 0
  {
    if job.elems <= job.order[h] {
      var i := job.order[h] - job.elems;
      SeenOnce(job.order, dad, job.elems, job.joins, h, i);
      assert OpenAt(job.order, dl, job.elems, job.joins, job.m, h, open, deep, i);
    }
  }

  lemma HalfStep(job: Job, dad: seq<nat>, dl: seq<nat>, h: nat, bits: nat)
    requires GoodJob(job, dad) && 1 <= h < |job.order| && bits <= job.m
    requires HalfDone(job.order, dl, job.elems, job.joins, job.m, h) && job.order[h] < |dl|
    ensures HalfDone(job.order, dl[job.order[h] := bits], job.elems, job.joins, job.m, h + 1)
  {
  }

  lemma AtMaxStep(job: Job, dl: seq<nat>, h: nat, bits: nat, a0: nat, a1: nat, d: nat)
    requires h < |job.order| && job.order[h] < |dl| && d < |dl| && bits == Cut(dl[d], job.m) && dl[d] <= job.m
    requires job.elems <= d < job.elems + job.joins && Seen(job.order, h, d)
    requires LongSeen(job, dl, h, a0)
    requires a1 == if dl[d] + 1 == job.m then a0 + 1 else a0
    ensures dl[d] == job.m ==> a1 > 0
    ensures LongSeen(job, dl[job.order[h] := bits], h + 1, a1)
  {
    hide Seen;
    var dl1, h1 := dl[job.order[h] := bits], h + 1;
    forall x | job.elems <= x < job.elems + job.joins && Seen(job.order, h1, x) && dl1[x] == job.m
      ensures a1 > 0
    {
      SeenStep(job.order, h, x);
    }
  }

  /** After the last node nothing is owed: the excess is half the number of nodes cut off. */
  lemma PassEnd(job: Job, dad: seq<nat>, dl: seq<nat>, bl: seq<nat>, lens: seq<nat>,
                open: seq<nat>, deep: seq<nat>, over: nat, atMax: nat)
    requires GoodJob(job, dad) && PassInv(job, dl, |job.order|, bl, lens, open, deep, over, atMax)
    ensures 2 * Kraft(bl, job.m, job.m) == 2 * Pow2(job.m) + over
    ensures over > 0 ==> over % 2 == 0 && bl[job.m] > over / 2
  {
    hide Pow2, Kraft, Sum, Codes, LeafCount, Tally, LeavesDone;
    forall j | 0 <= j < job.joins ensures open[j] == 0 && deep[j] == 0 {
      assert BeforeSons(job.order, job.elems, job.joins, j);
      assert OpenAt(job.order, dl, job.elems, job.joins, job.m, |job.order|, open, deep, j);
    }
    SumZero(open);
    SumZero(deep);
  }

  /** d holds the depths in the tree of the first h nodes: the root's is zero, a son's is one more than its father's. */
  ghost predicate Depths(order: seq<nat>, d: seq<nat>, elems: nat, joins: nat, h: nat) {
    && 0 < |order| && order[0] < |d| && d[order[0]] == 0
    && forall i :: 1 <= i < h && i < |order| ==> OneDeeper(order, d, elems, joins, i)
  }

  ghost predicate OneDeeper(order: seq<nat>, d: seq<nat>, elems: nat, joins: nat, i: nat)
    requires i < |order|
  {
    order[i] < |d| && 0 <= DadAt(elems, joins, i) < |d| && d[order[i]] == d[DadAt(elems, joins, i)] + 1
  }

  /** dl holds the depths of the first h nodes, none above m. */
  ghost predicate CutDepths(order: seq<nat>, d: seq<nat>, dl: seq<nat>, m: nat, h: nat) {
    forall i :: 0 <= i < h && i < |order| ==>
      order[i] < |d| && order[i] < |dl| && dl[order[i]] == if d[order[i]] > m then m else d[order[i]]
  }

  /** Some of the first h nodes is deeper than m. */
  ghost predicate TooDeep(order: seq<nat>, d: seq<nat>, m: nat, h: nat) {
    exists i :: 0 <= i < h && i < |order| && order[i] < |d| && d[order[i]] > m
  }

  /** The father of the node at position i stands before position i. */
  lemma DadBefore(order: seq<nat>, dad: seq<nat>, elems: nat, joins: nat, i: nat) returns (k: nat)
    requires TreeOrder(order, dad, elems, joins) && 1 <= i < |order|
    ensures k < i && order[k] == DadAt(elems, joins, i)
  {
    var j := DadAt(elems, joins, i) - elems;
    assert BeforeSons(order, elems, joins, j);
    k :| 0 <= k < SonsAt(joins, j) && k < |order| && order[k] == elems + j;
  }

  lemma DepthStep(job: Job, dad: seq<nat>, dl: seq<nat>, h: nat, d: seq<nat>, over: nat, d1: seq<nat>, dl1: seq<nat>, over1: nat)
    requires GoodJob(job, dad) && 1 <= h < |job.order| && |d| == |dl| == |dad|
    requires Depths(job.order, d, job.elems, job.joins, h) && CutDepths(job.order, d, dl, job.m, h)
    requires over > 0 <==> TooDeep(job.order, d, job.m, h)
    requires 0 <= DadAt(job.elems, job.joins, h) < |d|
    requires d1 == d[job.order[h] := d[DadAt(job.elems, job.joins, h)] + 1]
    requires var dlen := dl[DadAt(job.elems, job.joins, h)];
             && dl1 == dl[job.order[h] := if dlen + 1 > job.m then job.m else dlen + 1]
             && over1 == if dlen + 1 > job.m then over + 1 else over
    ensures Depths(job.order, d1, job.elems, job.joins, h + 1) && CutDepths(job.order, d1, dl1, job.m, h + 1)
    ensures over1 > 0 <==> TooDeep(job.order, d1, job.m, h + 1)
  {
    var order := job.order;
    var k := DadBefore(order, dad, job.elems, job.joins, h);
    var h1 := h + 1;
    forall i | 1 <= i < h1 && i < |order| ensures OneDeeper(order, d1, job.elems, job.joins, i) {
      var j := DadBefore(order, dad, job.elems, job.joins, i);
      if i < h { assert OneDeeper(order, d, job.elems, job.joins, i); }
    }
    DeepStep(order, d, job.m, h, d1);
  }

  lemma DeepStep(order: seq<nat>, d: seq<nat>, m: nat, h: nat, d1: seq<nat>)
    requires Distinct(order) && h < |order| && |d1| == |d| && order[h] < |d|
    requires forall x :: 0 <= x < |d| && x != order[h] ==> d1[x] == d[x]
    ensures TooDeep(order, d1, m, h + 1) <==> TooDeep(order, d, m, h) || d1[order[h]] > m
  {
    var h1 := h + 1;
    if TooDeep(order, d, m, h) {
      var i :| 0 <= i < h && i < |order| && order[i] < |d| && d[order[i]] > m;
      assert d1[order[i]] > m;
    }
  }

  /** The first loop of gen_bitlen: lengths, their distribution, the cost, and how many nodes were cut off. */
  method FirstPass(job: Job, dl: array<nat>, bl: array<nat>)
    returns (over: nat, opt: nat, stat: nat, ghost lens: seq<nat>, ghost d: seq<nat>)
    requires GoodJob(job, dl[..]) && bl.Length == MAXBITS + 1 && dl != bl
    modifies dl, bl
    ensures |lens| == job.n && LeavesDone(job.order, dl[..], |job.order|, lens) && Tally(bl[..], lens)
    ensures 2 * Kraft(bl[..], job.m, job.m) == 2 * Pow2(job.m) + over
    ensures over > 0 ==> over % 2 == 0 && bl[job.m] > over / 2
    ensures Codes(bl[..], job.m) == LeafCount(job.order, |job.order|, job.elems)
    ensures forall i :: 0 <= i < |job.order| ==> job.order[i] < dl.Length && dl[job.order[i]] <= job.m
    ensures Untouched(job.order, |job.order|, old(dl[..]), dl[..])
    ensures opt == Cost(job.freq, lens, lens, job.extra, job.n)
    ensures stat == Cost(job.freq, lens, job.slens, job.extra, job.n)
    ensures |d| == dl.Length && Depths(job.order, d, job.elems, job.joins, |job.order|) && CutDepths(job.order, d, dl[..], job.m, |job.order|)
    ensures over > 0 <==> TooDeep(job.order, d, job.m, |job.order|)
  {
    hide Depths, CutDepths, TooDeep, DadAt;
    hide GoodJob, PassInv, LeavesDone, Tally, Kraft, Codes, Pow2, LeafCount, Seen, Cost, Cut, Untouched, SymbolCost;
    ghost var dad := dl[..];
    JobFacts(job, dad);
    var b := 0;
    while b <= MAXBITS
      invariant 0 <= b <= MAXBITS + 1 && dl[..] == dad
      invariant forall i :: 0 <= i < b ==> bl[i] == 0
    {
      bl[b] := 0;
      b := b + 1;
    }
    dl[job.order[0]] := 0;
    lens := seq(job.n, _ => 0);
    ghost var open: seq<nat> := seq(job.joins, _ => 0)[job.joins - 1 := Pow2(job.m) + Pow2(job.m)];
    ghost var deep: seq<nat> := seq(job.joins, _ => 0);
    PassStart(job, dad, dl[..], bl[..], lens, open, deep);
    CostNone(job.freq, lens, lens, job.extra, job.n);
    CostNone(job.freq, lens, job.slens, job.extra, job.n);
    over, opt, stat := 0, 0, 0;
    ghost var atMax := 0;
    FirstSeen(job, dad);
    d := dl[..];
    DepthStart(job, dad, d);
    var h := 1;
    while h < |job.order|
      invariant 1 <= h <= |job.order| && |d| == dl.Length
      invariant Depths(job.order, d, job.elems, job.joins, h) && CutDepths(job.order, d, dl[..], job.m, h)
      invariant over > 0 <==> TooDeep(job.order, d, job.m, h)
      invariant PassInv(job, dl[..], h, bl[..], lens, open, deep, over, atMax)
      invariant Untouched(job.order, h, dad, dl[..])
      invariant |lens| == job.n && opt == Cost(job.freq, lens, lens, job.extra, job.n)
      invariant stat == Cost(job.freq, lens, job.slens, job.extra, job.n)
    {
      ghost var dl0, bl0, lens0, over0 := dl[..], bl[..], lens, over;
      DadRange(job, dad, dl0, h, bl0, lens, open, deep, over, atMax);
      open, deep := PassStep(job, dad, dl0, h, bl0, lens, open, deep, over, atMax);
      CutRange(dl0[dl0[job.order[h]]], job.m);
      var n := job.order[h];
      var dlen := dl[dl[n]];
      var bits := dlen + 1;
      ghost var cut := dlen == job.m;
      atMax := if dlen + 1 == job.m then atMax + 1 else atMax;
      if bits > job.m {
        bits := job.m;
        over := over + 1;
      }
      UntouchedStep(job.order, h, dad, dl0, bits);
      dl[n] := bits;
      assert dl[..] == dl0[n := bits];
      ghost var d0 := d;
      d := d[n := d[DadAt(job.elems, job.joins, h)] + 1];
      DepthStep(job, dad, dl0, h, d0, over0, d, dl[..], over);
      if n < job.elems {
        bl[bits] := bl[bits] + 1;
        assert bl[..] == bl0[bits := bl0[bits] + 1];
        lens := lens[n := bits];
        CostEnter(job.freq, lens0, lens, lens0, lens, job.extra, job.n, n);
        CostEnter(job.freq, lens0, lens, job.slens, job.slens, job.extra, job.n, n);
        opt := opt + SymbolCost(job.freq[n], bits, job.extra[n]);
        stat := stat + SymbolCost(job.freq[n], job.slens[n], job.extra[n]);
      }
      h := h + 1;
    }
    PassEnd(job, dad, dl[..], bl[..], lens, open, deep, over, atMax);
    PassLens(job, dl[..], bl[..], lens, open, deep, over, atMax);
  }

  lemma JobFacts(job: Job, dad: seq<nat>)
    requires GoodJob(job, dad)
    ensures job.joins >= 1 && |job.order| == 2 * job.joins + 1 && job.order[0] < |dad|
    ensures 1 <= job.m <= MAXBITS && |job.freq| == |job.extra| == |job.slens| == job.n <= job.elems
    ensures forall i :: 0 <= i < |job.order| ==> job.order[i] < |dad|
  {
  }

  lemma DepthStart(job: Job, dad: seq<nat>, d: seq<nat>)
    requires GoodJob(job, dad) && d == dad[job.order[0] := 0]
    ensures Depths(job.order, d, job.elems, job.joins, 1) && CutDepths(job.order, d, d, job.m, 1)
    ensures !TooDeep(job.order, d, job.m, 1)
  {
  }

  lemma DadRange(job: Job, dad: seq<nat>, dl: seq<nat>, h: nat, bl: seq<nat>, lens: seq<nat>,
                 open: seq<nat>, deep: seq<nat>, over: nat, atMax: nat)
    requires GoodJob(job, dad) && 1 <= h < |job.order| && PassInv(job, dl, h, bl, lens, open, deep, over, atMax)
    ensures job.order[h] < |dl| && dl[job.order[h]] == DadAt(job.elems, job.joins, h)
    ensures 0 <= DadAt(job.elems, job.joins, h) < |dad| && job.order[h] < |dad|
  {
    var k := DadBefore(job.order, dad, job.elems, job.joins, h);
  }

  lemma FirstSeen(job: Job, dad: seq<nat>)
    requires GoodJob(job, dad)
    ensures Untouched(job.order, 1, dad, dad[job.order[0] := 0])
  {
  }

  /** Only the first h nodes of the list differ between a and b. */
  ghost predicate Untouched(order: seq<nat>, h: nat, a: seq<nat>, b: seq<nat>) {
    |a| == |b| && forall x :: 0 <= x < |a| && !Seen(order, h, x) ==> a[x] == b[x]
  }

  lemma UntouchedStep(order: seq<nat>, h: nat, a: seq<nat>, b: seq<nat>, v: nat)
    requires h < |order| && order[h] < |b| && Untouched(order, h, a, b)
    ensures Untouched(order, h + 1, a, b[order[h] := v])
  {
    var h1, b1 := h + 1, b[order[h] := v];
    forall x | 0 <= x < |a| && !Seen(order, h1, x) ensures a[x] == b1[x] { SeenStep(order, h, x); }
  }

  lemma CutRange(dlen: nat, m: nat)
    requires dlen <= m && 1 <= m <= MAXBITS
    ensures Cut(dlen, m) == (if dlen == m then m else dlen + 1) && 1 <= Cut(dlen, m) <= MAXBITS
  {
  }

  lemma PassLens(job: Job, dl: seq<nat>, bl: seq<nat>, lens: seq<nat>, open: seq<nat>, deep: seq<nat>, over: nat, atMax: nat)
    requires PassInv(job, dl, |job.order|, bl, lens, open, deep, over, atMax)
    ensures LeavesDone(job.order, dl, |job.order|, lens) && Tally(bl, lens)
    ensures job.m < |bl| && Codes(bl, job.m) == LeafCount(job.order, |job.order|, job.elems)
    ensures forall i :: 0 <= i < |job.order| ==> job.order[i] < |dl| && dl[job.order[i]] <= job.m
  {
  }

  // ----- handing out the repaired lengths ---------------------------------------------------------------

  /** The node is in the list at position h or later. */
  ghost predicate SeenFrom(order: seq<nat>, h: nat, node: int) {
    exists i :: h <= i < |order| && order[i] == node
  }

  /** Leaves from position h on have their new lengths in `given`; all other symbols have none there. */
  ghost predicate Handed(order: seq<nat>, dl: seq<nat>, h: nat, given: seq<nat>) {
    && (forall i :: h <= i < |order| && order[i] < |given| ==>
          order[i] < |dl| && given[order[i]] == dl[order[i]] && given[order[i]] > 0)
    && forall s :: 0 <= s < |given| && !SeenFrom(order, h, s) ==> given[s] == 0
  }

  /** The distribution handed out so far: all of the lengths above bits, and all but `left` of length bits. */
  ghost predicate HandedCounts(bl: seq<nat>, given: seq<nat>, bits: nat, left: nat) {
    && |bl| == MAXBITS + 1 && bits <= MAXBITS && left <= bl[bits]
    && forall b :: 1 <= b <= MAXBITS ==>
         Count(given, b) == if b > bits then bl[b] else if b == bits then bl[b] - left else 0
  }

  lemma HandStep(order: seq<nat>, dl: seq<nat>, h: nat, given: seq<nat>, bits: nat)
    requires Distinct(order) && 0 < h <= |order| && order[h - 1] < |dl| && Handed(order, dl, h, given) && bits > 0
    ensures order[h - 1] < |given| ==>
              && given[order[h - 1]] == 0
              && Handed(order, dl[order[h - 1] := bits], h - 1, given[order[h - 1] := bits])
    ensures order[h - 1] >= |given| ==> Handed(order, dl, h - 1, given)
  {
    var node, g := order[h - 1], h - 1;
    forall s | 0 <= s < |given| && !SeenFrom(order, g, s) ensures !SeenFrom(order, h, s) && s != node {
      assert s == order[g] ==> SeenFrom(order, g, s);
    }
    if node < |given| { assert !SeenFrom(order, h, node); }
  }

  lemma HandCount(bl: seq<nat>, given: seq<nat>, bits: nat, left: nat, s: nat)
    requires HandedCounts(bl, given, bits, left) && left > 0 && bits > 0 && s < |given| && given[s] == 0
    ensures HandedCounts(bl, given[s := bits], bits, left - 1)
  {
    var given1 := given[s := bits];
    forall b | 1 <= b <= MAXBITS
      ensures Count(given1, b) == if b > bits then bl[b] else if b == bits then bl[b] - (left - 1) else 0
    {
      CountUpdate(given, |given|, s, bits, b);
      assert Count(given1, b) == CountTo(given1, |given|, b);
      assert Count(given, b) == CountTo(given, |given|, b);
    }
  }

  /** A leaf's length is replaced in the lengths of all leaves. */
  lemma LensChange(order: seq<nat>, dl: seq<nat>, lens: seq<nat>, i: nat, bits: nat)
    requires Distinct(order) && i < |order| && order[i] < |dl| && order[i] < |lens| && bits > 0
    requires LeavesDone(order, dl, |order|, lens)
    ensures lens[order[i]] == dl[order[i]] > 0
    ensures LeavesDone(order, dl[order[i] := bits], |order|, lens[order[i] := bits])
  {
    assert Seen(order, |order|, order[i]);
  }

  /** Leaves from position h on have lengths that do not decrease along the list, `bits` at least. */
  ghost predicate Rising(order: seq<nat>, h: nat, given: seq<nat>, bits: nat) {
    && (forall i :: h <= i < |order| && order[i] < |given| ==> given[order[i]] >= bits)
    && forall i, j :: h <= i < j < |order| && order[i] < |given| && order[j] < |given| ==> given[order[i]] <= given[order[j]]
  }

  lemma RisingStep(order: seq<nat>, h: nat, given: seq<nat>, bits: nat)
    requires Distinct(order) && 0 < h <= |order| && Rising(order, h, given, bits)
    ensures order[h - 1] < |given| ==> Rising(order, h - 1, given[order[h - 1] := bits], bits)
    ensures order[h - 1] >= |given| ==> Rising(order, h - 1, given, bits)
  {
  }

  lemma RisingLess(order: seq<nat>, h: nat, given: seq<nat>, bits: nat, fewer: nat)
    requires Rising(order, h, given, bits) && fewer <= bits
    ensures Rising(order, h, given, fewer)
  {
  }

  /** No symbol is given a shorter length than one that is before it in the list. */
  ghost predicate LongerLast(order: seq<nat>, lens: seq<nat>) {
    forall i, j :: 0 <= i < j < |order| && order[i] < |lens| && order[j] < |lens| ==> lens[order[i]] <= lens[order[j]]
  }

  lemma RisingEnd(job: Job, dad: seq<nat>, h: nat, given: seq<nat>)
    requires GoodJob(job, dad) && Rising(job.order, h, given, 0) && LeafCount(job.order, h, job.elems) == 0 && h <= |job.order|
    requires |given| == job.n
    ensures LongerLast(job.order, given)
  {
    NoLeaves(job.order, h, job.elems);
  }

  ghost predicate HandInv(job: Job, dl: seq<nat>, h: nat, bl: seq<nat>, bits: nat, left: nat, given: seq<nat>, lens: seq<nat>) {
    && h <= |job.order| && |given| == |lens| == job.n
    && Handed(job.order, dl, h, given)
    && HandedCounts(bl, given, bits, left)
    && LeavesDone(job.order, dl, |job.order|, lens)
    && bits < |bl| && LeafCount(job.order, h, job.elems) == left + (if bits == 0 then 0 else Codes(bl, bits - 1))
  }

  lemma HandNext(job: Job, dad: seq<nat>, dl: seq<nat>, h: nat, bl: seq<nat>, bits: nat, left: nat,
                 given: seq<nat>, lens: seq<nat>)
    requires GoodJob(job, dad) && |dl| == |dad| && HandInv(job, dl, h, bl, bits, left, given, lens) && left > 0 && bits > 0
    ensures h > 0 && job.order[h - 1] < |dl|
    ensures job.order[h - 1] >= job.elems ==> HandInv(job, dl, h - 1, bl, bits, left, given, lens)
    ensures var node := job.order[h - 1];
            node < job.elems ==>
              && node < job.n && lens[node] == dl[node] > 0
              && HandInv(job, dl[node := bits], h - 1, bl, bits, left - 1, given[node := bits], lens[node := bits])
  {
    hide TreeOrder, Codes, HandedCounts, LeavesDone, Handed;
    JobOrder(job, dad);
    var node := job.order[h - 1];
    HandStep(job.order, dl, h, given, bits);
    if node < job.elems {
      HandCount(bl, given, bits, left, node);
      LensChange(job.order, dl, lens, h - 1, bits);
    }
  }

  lemma JobOrder(job: Job, dad: seq<nat>)
    requires GoodJob(job, dad)
    ensures Distinct(job.order) && forall i :: 0 <= i < |job.order| ==> job.order[i] < |dad|
  {
  }

  lemma HandLevel(job: Job, dl: seq<nat>, h: nat, bl: seq<nat>, bits: nat, given: seq<nat>, lens: seq<nat>)
    requires HandInv(job, dl, h, bl, bits, 0, given, lens) && bits > 0 && bl[0] == 0
    ensures HandInv(job, dl, h, bl, bits - 1, bl[bits - 1], given, lens)
  {
  }

  lemma {:induction false} NoLeaves(order: seq<nat>, h: nat, elems: nat)
    requires LeafCount(order, h, elems) == 0 && h <= |order|
    ensures forall i :: 0 <= i < h ==> order[i] >= elems
    decreases h
  {
    if h > 0 { NoLeaves(order, h - 1, elems); }
  }

  lemma HandEnd(job: Job, dad: seq<nat>, dl: seq<nat>, h: nat, bl: seq<nat>, given: seq<nat>, lens: seq<nat>)
    requires GoodJob(job, dad) && HandInv(job, dl, h, bl, 0, 0, given, lens) && bl[0] == 0
    ensures Tally(bl, lens) && given == lens
  {
    NoLeaves(job.order, h, job.elems);
    forall s | 0 <= s < job.n ensures given[s] == lens[s] {
      if Seen(job.order, |job.order|, s) {
        var i :| 0 <= i < |job.order| && job.order[i] == s;
        assert i >= h;
      } else {
        assert !SeenFrom(job.order, h, s);
      }
    }
    assert given == lens;
  }

  lemma RisingStart(order: seq<nat>, given: seq<nat>, bits: nat)
    ensures Rising(order, |order|, given, bits)
  {
  }

  lemma BoundOfJob(job: Job, dad: seq<nat>, h: nat)
    requires GoodJob(job, dad) && 0 < h <= |job.order|
    ensures job.order[h - 1] < job.elems <==> job.order[h - 1] < job.n
  {
  }

  lemma HandLongerLast(job: Job, dad: seq<nat>, dl: seq<nat>, h: nat, bl: seq<nat>, given: seq<nat>, lens: seq<nat>)
    requires GoodJob(job, dad) && HandInv(job, dl, h, bl, 0, 0, given, lens) && given == lens && Rising(job.order, h, given, 0)
    ensures LongerLast(job.order, lens)
  {
    hide Rising, LongerLast;
    RisingEnd(job, dad, h, given);
  }

  lemma HandStart(job: Job, dad: seq<nat>, dl: seq<nat>, bl: seq<nat>, lens: seq<nat>, given: seq<nat>)
    requires GoodJob(job, dad) && LeavesDone(job.order, dl, |job.order|, lens) && |lens| == job.n
    requires |bl| == MAXBITS + 1 && (forall b :: job.m < b <= MAXBITS ==> bl[b] == 0)
    requires Codes(bl, job.m) == LeafCount(job.order, |job.order|, job.elems)
    requires given == seq(job.n, _ => 0)
    ensures HandInv(job, dl, |job.order|, bl, job.m, bl[job.m], given, lens)
  {
    forall b | 1 <= b <= MAXBITS ensures Count(given, b) == 0 { CountZeros(job.n, job.n, b); }
  }

  /** The last loop of gen_bitlen: lengths from the longest down, to leaves from the least frequent up. */
  method HandOut(job: Job, dl: array<nat>, bl: seq<nat>, ghost dad: seq<nat>, ghost lens0: seq<nat>)
    returns (delta: int, ghost lens: seq<nat>)
    requires GoodJob(job, dad) && |dad| == dl.Length
    requires LeavesDone(job.order, dl[..], |job.order|, lens0) && |lens0| == job.n
    requires |bl| == MAXBITS + 1 && bl[0] == 0 && (forall b :: job.m < b <= MAXBITS ==> bl[b] == 0)
    requires Codes(bl, job.m) == LeafCount(job.order, |job.order|, job.elems)
    requires forall s :: 0 <= s < job.n ==> lens0[s] <= job.m
    modifies dl
    ensures |lens| == job.n && (forall s :: 0 <= s < job.n ==> lens[s] <= job.m)
    ensures |lens| == job.n && LeavesDone(job.order, dl[..], |job.order|, lens) && Tally(bl, lens)
    ensures Cost(job.freq, lens, lens, job.extra, job.n) == Cost(job.freq, lens0, lens0, job.extra, job.n) + delta
    ensures Untouched(job.order, |job.order|, old(dl[..]), dl[..])
    ensures LongerLast(job.order, lens)
  {
    hide GoodJob, HandInv, LeavesDone, Tally, Codes, LeafCount, Seen, Cost, Untouched, Rising, LongerLast;
    JobFacts(job, dad);
    ghost var start := dl[..];
    UntouchedSame(job.order, |job.order|, start);
    lens := lens0;
    delta := 0;
    var h := |job.order|;
    var bits: nat := job.m;
    ghost var given: seq<nat> := seq(job.n, _ => 0);
    HandStart(job, dad, dl[..], bl, lens, given);
    RisingStart(job.order, given, bits);
    JobOrder(job, dad);
    while bits != 0
      invariant 0 <= bits <= job.m && 0 <= h <= |job.order| && |lens| == |given| == job.n && Rising(job.order, h, given, bits)
      invariant forall s :: 0 <= s < job.n ==> lens[s] <= job.m
      invariant HandInv(job, dl[..], h, bl, bits, bl[bits], given, lens)
      invariant Cost(job.freq, lens, lens, job.extra, job.n) == Cost(job.freq, lens0, lens0, job.extra, job.n) + delta
      invariant Untouched(job.order, |job.order|, start, dl[..])
      decreases bits
    {
      var n := bl[bits];
      while n != 0
        invariant 0 <= h <= |job.order| && |lens| == |given| == job.n && Rising(job.order, h, given, bits)
        invariant forall s :: 0 <= s < job.n ==> lens[s] <= job.m
        invariant HandInv(job, dl[..], h, bl, bits, n, given, lens)
        invariant Cost(job.freq, lens, lens, job.extra, job.n) == Cost(job.freq, lens0, lens0, job.extra, job.n) + delta
        invariant Untouched(job.order, |job.order|, start, dl[..])
        decreases h
      {
        ghost var dl0 := dl[..];
        HandNext(job, dad, dl0, h, bl, bits, n, given, lens);
        RisingStep(job.order, h, given, bits);
        BoundOfJob(job, dad, h);
        h := h - 1;
        var node := job.order[h];
        if node >= job.elems { continue; }
        given := given[node := bits];
        CostChange(job.freq, lens, job.extra, job.n, node, bits);
        if dl[node] != bits {
          delta := delta + (bits - dl[node]) * job.freq[node];
          dl[node] := bits;
        }
        assert dl[..] == dl0[node := bits];
        UntouchedAgain(job.order, start, dl0, h, bits);
        lens := lens[node := bits];
        n := n - 1;
      }
      HandLevel(job, dl[..], h, bl, bits, given, lens);
      RisingLess(job.order, h, given, bits, bits - 1);
      bits := bits - 1;
    }
    HandLens(job, dl[..], h, bl, given, lens);
    HandEnd(job, dad, dl[..], h, bl, given, lens);
    HandLongerLast(job, dad, dl[..], h, bl, given, lens);
  }

  lemma HandLens(job: Job, dl: seq<nat>, h: nat, bl: seq<nat>, given: seq<nat>, lens: seq<nat>)
    requires |bl| > 0 && HandInv(job, dl, h, bl, 0, bl[0], given, lens)
    ensures LeavesDone(job.order, dl, |job.order|, lens)
  {
  }

  lemma UntouchedSame(order: seq<nat>, h: nat, a: seq<nat>)
    ensures Untouched(order, h, a, a)
  {
  }

  lemma UntouchedAgain(order: seq<nat>, a: seq<nat>, b: seq<nat>, i: nat, v: nat)
    requires i < |order| && order[i] < |b| && Untouched(order, |order|, a, b)
    ensures Untouched(order, |order|, a, b[order[i] := v])
  {
    assert Seen(order, |order|, order[i]);
  }

  // ----- gen_bitlen --------------------------------------------------------------------------------------

  /** The number of symbols with a code. */
  function Used(lens: seq<nat>, n: nat): nat
    requires n <= |lens|
  {
    if n == 0 then 0 else Used(lens, n - 1) + (if lens[n - 1] > 0 then 1 else 0)
  }

  function CodesTo(lens: seq<nat>, n: nat, b: nat): nat
    requires n <= |lens|
  {
    if b == 0 then 0 else CodesTo(lens, n, b - 1) + CountTo(lens, n, b)
  }

  lemma {:induction false} CodesToStep(lens: seq<nat>, n: nat, b: nat)
    requires 0 < n <= |lens|
    ensures CodesTo(lens, n, b) == CodesTo(lens, n - 1, b) + (if 1 <= lens[n - 1] <= b then 1 else 0)
    decreases b
  {
    if b > 0 { CodesToStep(lens, n, b - 1); }
  }

  lemma {:induction false} CodesToNone(lens: seq<nat>, b: nat)
    ensures CodesTo(lens, 0, b) == 0
    decreases b
  {
    if b > 0 { CodesToNone(lens, b - 1); }
  }

  lemma {:induction false} CodesToIsUsed(lens: seq<nat>, n: nat, m: nat)
    requires n <= |lens| && forall i :: 0 <= i < |lens| ==> lens[i] <= m
    ensures CodesTo(lens, n, m) == Used(lens, n)
    decreases n
  {
    if n == 0 { CodesToNone(lens, m); } else {
      CodesToIsUsed(lens, n - 1, m);
      CodesToStep(lens, n, m);
    }
  }

  lemma {:induction false} CodesIsCodesTo(bl: seq<nat>, lens: seq<nat>, b: nat)
    requires Tally(bl, lens) && b <= MAXBITS
    ensures Codes(bl, b) == CodesTo(lens, |lens|, b)
    decreases b
  {
    if b > 0 { CodesIsCodesTo(bl, lens, b - 1); }
  }

  /** Kraft's sum up to length b is where the codes of length b end. */
  lemma {:induction false} KraftIsNextCode(bl: seq<nat>, lens: seq<nat>, m: nat, b: nat)
    requires Tally(bl, lens) && 1 <= b <= m <= MAXBITS
    ensures Kraft(bl, m, b) == Shl(NextCode(lens, b) + Count(lens, b), m - b)
    decreases b
  {
    hide Shl, Count;
    if b == 1 {
      assert Kraft(bl, m, 0) == 0;
    } else {
      KraftIsNextCode(bl, lens, m, b - 1);
      var x := NextCode(lens, b - 1) + Count(lens, b - 1);
      ShlDouble(x, m - b);
      ShlAdd(2 * x, Count(lens, b), m - b);
    }
  }

  lemma ShlDouble(x: nat, n: nat)
    ensures Shl(2 * x, n) == Shl(x, n + 1)
  {
    ShlShl(x, 1, n);
    assert Shl(x, 1) == 2 * Shl(x, 0);
  }

  lemma {:induction false} KraftMono(bl: seq<nat>, m: nat, b: nat, c: nat)
    requires b <= c < |bl| && c <= m
    ensures Kraft(bl, m, b) <= Kraft(bl, m, c)
    decreases c
  {
    if b < c { KraftMono(bl, m, b, c - 1); }
  }

  /** Kraft's sum exactly one makes a complete prefix code. */
  lemma KraftOneIsComplete(bl: seq<nat>, lens: seq<nat>, m: nat)
    requires Tally(bl, lens) && 1 <= m <= MAXBITS && Kraft(bl, m, m) == Pow2(m)
    requires forall b :: m < b <= MAXBITS ==> bl[b] == 0
    ensures Prefix(lens) && Complete(lens)
  {
    hide Kraft, Shl, NextCode, Count, Pow2;
    KraftIsNextCode(bl, lens, m, m);
    assert Shl(NextCode(lens, m) + Count(lens, m), 0) == NextCode(lens, m) + Count(lens, m) by { ShlNone(NextCode(lens, m) + Count(lens, m)); }
    forall b | 1 <= b <= MAXBITS ensures Fits(lens, b) && (b >= m ==> NextCode(lens, b) + Count(lens, b) == Pow2(b)) {
      if b < m { FitsBelow(bl, lens, m, b); } else { FullBeyond(bl, lens, m, b); }
    }
  }

  lemma ShlNone(x: nat)
    ensures Shl(x, 0) == x
  {
  }

  lemma FitsBelow(bl: seq<nat>, lens: seq<nat>, m: nat, b: nat)
    requires Tally(bl, lens) && 1 <= b < m <= MAXBITS && Kraft(bl, m, m) == Pow2(m)
    ensures Fits(lens, b)
  {
    hide Kraft, Shl, NextCode, Count, Pow2;
    var x := NextCode(lens, b) + Count(lens, b);
    KraftIsNextCode(bl, lens, m, b);
    KraftMono(bl, m, b, m);
    ShlPow2(b, m - b);
    if x > Pow2(b) { ShlMono(Pow2(b), x, m - b); }
  }

  lemma {:induction false} FullBeyond(bl: seq<nat>, lens: seq<nat>, m: nat, b: nat)
    requires Tally(bl, lens) && 1 <= m <= b <= MAXBITS && NextCode(lens, m) + Count(lens, m) == Pow2(m)
    requires forall c :: m < c <= MAXBITS ==> bl[c] == 0
    ensures NextCode(lens, b) + Count(lens, b) == Pow2(b)
    decreases b
  {
    hide Count;
    if b > m { FullBeyond(bl, lens, m, b - 1); }
  }

  lemma ShortTally(job: Job, dl: seq<nat>, bl: seq<nat>, lens: seq<nat>)
    requires |lens| == job.n && LeavesDone(job.order, dl, |job.order|, lens) && Tally(bl, lens) && job.m <= MAXBITS
    requires forall i :: 0 <= i < |job.order| ==> job.order[i] < |dl| && dl[job.order[i]] <= job.m
    ensures forall s :: 0 <= s < |lens| ==> lens[s] <= job.m
    ensures forall b :: job.m < b <= MAXBITS ==> bl[b] == 0
  {
    forall s | 0 <= s < |lens| ensures lens[s] <= job.m {
      if Seen(job.order, |job.order|, s) {
        var i :| 0 <= i < |job.order| && job.order[i] == s;
      }
    }
    forall b | job.m < b <= MAXBITS ensures bl[b] == 0 { CountAbsent(lens, |lens|, b); }
  }

  lemma {:induction false} CountAbsent(lens: seq<nat>, n: nat, b: nat)
    requires n <= |lens| && forall i :: 0 <= i < n ==> lens[i] != b
    ensures CountTo(lens, n, b) == 0
  {
    if n > 0 { CountAbsent(lens, n - 1, b); }
  }

  /** Which symbols have a code: those whose frequency is not zero. */
  ghost predicate SameSymbols(job: Job) {
    |job.freq| == job.n && forall s :: 0 <= s < job.n ==> (job.freq[s] > 0 <==> Seen(job.order, |job.order|, s))
  }

  lemma {:induction false} UsedSame(a: seq<nat>, b: seq<nat>, n: nat)
    requires n <= |a| && n <= |b| && forall s :: 0 <= s < n ==> (a[s] > 0 <==> b[s] > 0)
    ensures Used(a, n) == Used(b, n)
  {
    if n > 0 { UsedSame(a, b, n - 1); }
  }

  lemma LensUsed(job: Job, dl: seq<nat>, lens: seq<nat>)
    requires |lens| == job.n && LeavesDone(job.order, dl, |job.order|, lens) && SameSymbols(job)
    ensures forall s :: 0 <= s < job.n ==> (lens[s] > 0 <==> job.freq[s] > 0)
    ensures Used(lens, job.n) == Used(job.freq, job.n)
  {
    forall s | 0 <= s < job.n ensures lens[s] > 0 <==> job.freq[s] > 0 {
      if Seen(job.order, |job.order|, s) {
        var i :| 0 <= i < |job.order| && job.order[i] == s;
      }
    }
    UsedSame(lens, job.freq, job.n);
  }

  /** The lengths are the depths of the leaves. */
  ghost predicate AtDepths(order: seq<nat>, d: seq<nat>, lens: seq<nat>) {
    forall i :: 0 <= i < |order| && order[i] < |lens| ==> order[i] < |d| && lens[order[i]] == d[order[i]]
  }

  /** Lengths that are the depths of the leaves, cut off at m. */
  ghost predicate CutAt(order: seq<nat>, d: seq<nat>, m: nat, lens: seq<nat>) {
    forall i :: 0 <= i < |order| && order[i] < |lens| ==>
      order[i] < |d| && lens[order[i]] == if d[order[i]] > m then m else d[order[i]]
  }

  /** The distribution comes from the one of the depths, cut off at m, by repairs. */
  ghost predicate RepairedFrom(job: Job, d: seq<nat>, bl: seq<nat>) {
    exists lens, bl0, n :: |lens| == job.n && CutAt(job.order, d, job.m, lens) && Tally(bl0, lens) && RepairedIn(bl0, bl, job.m, n)
  }

  lemma RepairedIs(job: Job, d: seq<nat>, dl: seq<nat>, lens: seq<nat>, bl0: seq<nat>, bl: seq<nat>, n: nat)
    requires |lens| == job.n && LeavesDone(job.order, dl, |job.order|, lens) && CutDepths(job.order, d, dl, job.m, |job.order|)
    requires Tally(bl0, lens) && RepairedIn(bl0, bl, job.m, n)
    ensures RepairedFrom(job, d, bl)
  {
    hide Tally, RepairedIn;
    assert CutAt(job.order, d, job.m, lens);
  }

  lemma LensAtDepths(job: Job, dl: seq<nat>, lens: seq<nat>, d: seq<nat>)
    requires LeavesDone(job.order, dl, |job.order|, lens) && CutDepths(job.order, d, dl, job.m, |job.order|)
    requires !TooDeep(job.order, d, job.m, |job.order|)
    ensures AtDepths(job.order, d, lens)
  {
  }

  /**
    gen_bitlen: for a Huffman tree with at most 2^m leaves, every symbol that
    occurs gets a length from 1 to m, the lengths form a complete prefix code
    whose distribution is bl_count, and the cost of the block is updated by
    exactly what the symbols cost.
   */
  method GenBitlen(job: Job, dl: array<nat>, bl: array<nat>) returns (opt: int, stat: nat, ghost lens: seq<nat>, ghost d: seq<nat>)
    requires GoodJob(job, dl[..]) && SameSymbols(job) && bl.Length == MAXBITS + 1 && dl != bl
    requires Used(job.freq, job.n) <= Pow2(job.m)
    modifies dl, bl
    ensures |lens| == job.n && (forall s :: 0 <= s < job.n ==> lens[s] <= job.m)
    ensures forall s :: 0 <= s < job.n ==> (lens[s] > 0 <==> job.freq[s] > 0)
    ensures forall s :: 0 <= s < job.n && lens[s] > 0 ==> s < dl.Length && dl[s] == lens[s]
    ensures Untouched(job.order, |job.order|, old(dl[..]), dl[..])
    ensures Prefix(lens) && Complete(lens) && Tally(bl[..], lens)
    ensures opt == Cost(job.freq, lens, lens, job.extra, job.n)
    ensures stat == Cost(job.freq, lens, job.slens, job.extra, job.n)
    ensures |d| == dl.Length && Depths(job.order, d, job.elems, job.joins, |job.order|)
    ensures !TooDeep(job.order, d, job.m, |job.order|) ==> AtDepths(job.order, d, lens)
    ensures TooDeep(job.order, d, job.m, |job.order|) ==> LongerLast(job.order, lens)
    ensures RepairedFrom(job, d, bl[..])
  {
    hide RepairedIn, RepairedFrom, Depths, CutDepths, TooDeep, AtDepths, LongerLast;
    hide GoodJob, LeavesDone, Tally, Kraft, Codes, Pow2, LeafCount, Seen, Cost, Untouched, SameSymbols, Used,
         Prefix, Complete, Overfull;
    ghost var dad := dl[..];
    JobFacts(job, dad);
    var over;
    over, opt, stat, lens, d := FirstPass(job, dl, bl);
    ShortTally(job, dl[..], bl[..], lens);
    LensUsed(job, dl[..], lens);
    if !TooDeep(job.order, d, job.m, |job.order|) { LensAtDepths(job, dl[..], lens, d); }
    ghost var lens0, cut, bl0 := lens, dl[..], bl[..];
    RepairedNone(bl0, job.m);
    RepairedIs(job, d, cut, lens0, bl0, bl0, 0);
    if over != 0 {
      ghost var codes := Codes(bl[..], job.m);
      OverfullStart(bl[..], lens, job.m, over, codes);
      ghost var dl0 := dl[..];
      Repair(bl, job.m, over, codes);
      RepairedIs(job, d, cut, lens0, bl0, bl[..], over / 2);
      OverfullEnd(bl[..], job.m, codes);
      var delta;
      delta, lens := HandOut(job, dl, bl[..], dad, lens);
      opt := opt + delta;
      UntouchedTrans(job.order, dad, dl0, dl[..]);
      LensUsed(job, dl[..], lens);
      CostFrame(job.freq, lens0, lens, job.slens, job.slens, job.extra, job.n);
    }
    KraftOneIsComplete(bl[..], lens, job.m);
    LeavesEqual(job, dl[..], lens);
  }

  lemma OverfullStart(bl: seq<nat>, lens: seq<nat>, m: nat, over: nat, codes: nat)
    requires Tally(bl, lens) && 1 <= m <= MAXBITS && codes == Codes(bl, m)
    requires (forall s :: 0 <= s < |lens| ==> lens[s] <= m) && Used(lens, |lens|) <= Pow2(m)
    requires 2 * Kraft(bl, m, m) == 2 * Pow2(m) + over
    requires over > 0 && over % 2 == 0 && bl[m] > over / 2
    ensures Overfull(bl, m, over / 2, codes)
  {
    hide Kraft, Pow2, CodesTo, Used;
    CodesIsCodesTo(bl, lens, m);
    CodesToIsUsed(lens, |lens|, m);
  }

  lemma OverfullEnd(bl: seq<nat>, m: nat, codes: nat)
    requires Overfull(bl, m, 0, codes)
    ensures 1 <= m < |bl| && bl[0] == 0 && Kraft(bl, m, m) == Pow2(m) && Codes(bl, m) == codes
  {
  }

  lemma UntouchedTrans(order: seq<nat>, a: seq<nat>, b: seq<nat>, c: seq<nat>)
    requires Untouched(order, |order|, a, b) && Untouched(order, |order|, b, c)
    ensures Untouched(order, |order|, a, c)
  {
  }

  lemma LeavesEqual(job: Job, dl: seq<nat>, lens: seq<nat>)
    requires |lens| == job.n && LeavesDone(job.order, dl, |job.order|, lens)
    ensures forall s :: 0 <= s < job.n && lens[s] > 0 ==> s < |dl| && dl[s] == lens[s]
  {
    forall s | 0 <= s < job.n && lens[s] > 0 ensures s < |dl| && dl[s] == lens[s] {
      assert Seen(job.order, |job.order|, s);
      var i :| 0 <= i < |job.order| && job.order[i] == s;
    }
  }
}
