/**
  build_tree of deps/zlib/trees.c as a whole: collect the symbols that occur,
  force two of them, join until one node is left, then lengths and codes.
 */
module BuildTree {
  import opened Bits
  import opened Canonical
  import GenCodes
  import opened BitLengths
  import opened HuffmanHeap
  import opened HuffmanOptimal
  import opened HuffmanTree

  // ----- what the joins weigh ---------------------------------------------------------------

  /** The values of internal nodes elems + lo .. elems + hi - 1, summed. */
  function Inner(v: seq<nat>, elems: nat, lo: nat, hi: nat): nat
    decreases hi
  {
    if hi <= lo then 0 else Inner(v, elems, lo, hi - 1) + At(v, elems + hi - 1)
  }

  lemma {:induction false} InnerFirst(v: seq<nat>, elems: nat, lo: nat, hi: nat)
    requires lo < hi
    ensures Inner(v, elems, lo, hi) == At(v, elems + lo) + Inner(v, elems, lo + 1, hi)
    decreases hi
  {
    if lo + 1 < hi { InnerFirst(v, elems, lo, hi - 1); } else { assert Inner(v, elems, lo, lo) == 0; }
  }

  lemma {:induction false} InnerSame(v: seq<nat>, u: seq<nat>, elems: nat, lo: nat, hi: nat)
    requires forall x: nat :: elems + lo <= x < elems + hi ==> At(v, x) == At(u, x)
    ensures Inner(v, elems, lo, hi) == Inner(u, elems, lo, hi)
    decreases hi
  {
    if lo < hi {
      InnerSame(v, u, elems, lo, hi - 1);
    }
  }

  lemma {:induction false} InnerAdd(p: seq<nat>, v: seq<nat>, u: seq<nat>, elems: nat, lo: nat, hi: nat)
    requires forall x: nat :: elems + lo <= x < elems + hi ==> At(p, x) == At(v, x) + At(u, x)
    ensures Inner(p, elems, lo, hi) == Inner(v, elems, lo, hi) + Inner(u, elems, lo, hi)
    decreases hi
  {
    if lo < hi {
      InnerAdd(p, v, u, elems, lo, hi - 1);
    }
  }

  /** p gives for each internal node the sum of its sons' values. */
  ghost predicate SonSums(order: seq<nat>, v: seq<nat>, p: seq<nat>, elems: nat, joins: nat) {
    && |order| == 2 * joins + 1
    && forall j :: 0 <= j < joins ==> SonSum(order, v, p, elems, joins, j)
  }

  ghost predicate SonSum(order: seq<nat>, v: seq<nat>, p: seq<nat>, elems: nat, joins: nat, j: nat)
    requires |order| == 2 * joins + 1 && j < joins
  {
    var a := SonsAt(joins, j);
    At(p, elems + j) == At(v, order[a]) + At(v, order[a + 1])
  }

  lemma {:induction false} PairTotal(order: seq<nat>, v: seq<nat>, p: seq<nat>, elems: nat, joins: nat, k: nat)
    requires SonSums(order, v, p, elems, joins) && k <= joins
    ensures Total(order[..2 * k + 1], v) == At(v, order[0]) + Inner(p, elems, joins - k, joins)
    decreases k
  {
    if k == 0 {
      assert order[..1][..0] == [];
    } else {
      PairTotal(order, v, p, elems, joins, k - 1);
      var j := joins - k;
      assert SonSum(order, v, p, elems, joins, j) && SonsAt(joins, j) == 2 * k - 1;
      InnerFirst(p, elems, j, joins);
      assert order[..2 * k + 1][..2 * k] == order[..2 * k];
      assert order[..2 * k][..2 * k - 1] == order[..2 * k - 1];
    }
  }

  lemma {:induction false} NodesTotal(list: seq<nat>, leaves: set<nat>, v: seq<nat>, elems: nat, joins: nat) returns (all: seq<nat>)
    requires multiset(list) == multiset(leaves)
    ensures multiset(all) == Nodes(leaves, elems, joins)
    ensures Total(all, v) == Total(list, v) + Inner(v, elems, 0, joins)
    decreases joins
  {
    hide Nodes, Total;
    if joins == 0 { all := list; NodesNone(leaves, elems); } else {
      var rest := NodesTotal(list, leaves, v, elems, joins - 1);
      var node: nat := elems + joins - 1;
      NodesNext(leaves, elems, joins - 1, node);
      all := rest + [node];
      TotalPush(rest, node, v);
    }
  }

  lemma NodesNone(leaves: set<nat>, elems: nat)
    ensures Nodes(leaves, elems, 0) == multiset(leaves)
  {
  }

  lemma TotalPush(list: seq<nat>, x: nat, v: seq<nat>)
    ensures Total(list + [x], v) == Total(list, v) + At(v, x)
  {
    assert (list + [x])[..|list|] == list;
  }

  /** Leaves and root against what fathers have more than their sons. */
  lemma LeafTotal(order: seq<nat>, list: seq<nat>, leaves: set<nat>, v: seq<nat>, p: seq<nat>, elems: nat, joins: nat)
    requires SonSums(order, v, p, elems, joins)
    requires multiset(list) == multiset(leaves) && multiset(order) == Nodes(leaves, elems, joins)
    ensures Total(list, v) + Inner(v, elems, 0, joins) == At(v, order[0]) + Inner(p, elems, 0, joins)
  {
    var all := NodesTotal(list, leaves, v, elems, joins);
    TotalPermuted(order, all, v);
    PairTotal(order, v, p, elems, joins, joins);
    assert order[..2 * joins + 1] == order;
  }

  /** A father weighs what its sons weigh. */
  ghost predicate Weighs(order: seq<nat>, w: seq<nat>, elems: nat, joins: nat) {
    SonSums(order, w, w, elems, joins)
  }

  /** The cost of the leaves at their depths is what was joined. */
  lemma DepthsCost(order: seq<nat>, list: seq<nat>, leaves: set<nat>, w: seq<nat>, d: seq<nat>, elems: nat, joins: nat)
    requires Weighs(order, w, elems, joins) && Depths(order, d, elems, joins, |order|) && |w| == |d| && elems + joins <= |w|
    requires multiset(list) == multiset(leaves) && multiset(order) == Nodes(leaves, elems, joins)
    requires forall i :: 0 <= i < |order| ==> order[i] < |w|
    ensures Total(list, Costs(w, d)) == Inner(w, elems, 0, joins)
  {
    hide Total, Inner, Depths;
    var c := Costs(w, d);
    var p: seq<nat> := seq(|w|, i requires 0 <= i < |w| => w[i] * d[i] + w[i]);
    forall j | 0 <= j < joins ensures SonSum(order, c, p, elems, joins, j) { CostSon(order, w, d, elems, joins, j, c, p); }
    LeafTotal(order, list, leaves, c, p, elems, joins);
    InnerAdd(p, c, w, elems, 0, joins);
    RootDepth(order, d, elems, joins);
  }

  lemma RootDepth(order: seq<nat>, d: seq<nat>, elems: nat, joins: nat)
    requires Depths(order, d, elems, joins, |order|)
    ensures order[0] < |d| && d[order[0]] == 0
  {
  }

  lemma SonDepths(order: seq<nat>, d: seq<nat>, elems: nat, joins: nat, j: nat)
    requires Depths(order, d, elems, joins, |order|) && |order| == 2 * joins + 1 && j < joins
    ensures var a := SonsAt(joins, j);
            && order[a] < |d| && order[a + 1] < |d| && elems + j < |d|
            && d[order[a]] == d[elems + j] + 1 && d[order[a + 1]] == d[elems + j] + 1
  {
    var a := SonsAt(joins, j);
    assert OneDeeper(order, d, elems, joins, a) && OneDeeper(order, d, elems, joins, a + 1);
  }

  lemma CostSon(order: seq<nat>, w: seq<nat>, d: seq<nat>, elems: nat, joins: nat, j: nat, c: seq<nat>, p: seq<nat>)
    requires Weighs(order, w, elems, joins) && Depths(order, d, elems, joins, |order|) && |w| == |d| && j < joins
    requires c == Costs(w, d) && p == seq(|w|, i requires 0 <= i < |w| => w[i] * d[i] + w[i])
    ensures SonSum(order, c, p, elems, joins, j)
  {
    SonDepths(order, d, elems, joins, j);
    assert SonSum(order, w, w, elems, joins, j);
    var a := SonsAt(joins, j);
    var x, y, u := order[a], order[a + 1], elems + j;
    SonProduct(w[x], w[y], d[u]);
  }

  lemma SonProduct(x: nat, y: nat, d: nat)
    ensures x * (d + 1) + y * (d + 1) == (x + y) * d + (x + y)
  {
  }

  /** The leaves at their depths fill the code space exactly. */
  lemma DepthsFill(order: seq<nat>, list: seq<nat>, leaves: set<nat>, d: seq<nat>, elems: nat, joins: nat, m: nat)
    requires Depths(order, d, elems, joins, |order|) && |order| == 2 * joins + 1 && elems + joins <= |d|
    requires multiset(list) == multiset(leaves) && multiset(order) == Nodes(leaves, elems, joins)
    requires forall x :: 0 <= x < |d| ==> d[x] <= m
    ensures Total(list, Shares(d, m)) == Pow2(m)
  {
    hide Total, Inner, Depths, Pow2;
    var s := Shares(d, m);
    forall j | 0 <= j < joins ensures SonSum(order, s, s, elems, joins, j) {
      SonDepths(order, d, elems, joins, j);
      PowStep(m - d[elems + j] - 1);
    }
    LeafTotal(order, list, leaves, s, s, elems, joins);
    RootDepth(order, d, elems, joins);
  }

  // ----- the loops of build_tree -------------------------------------------------------------------

  lemma RearrangedTrans(a: seq<nat>, b: seq<nat>, c: seq<nat>, k: nat, len: nat)
    requires Rearranged(a, b, 1, len) && Rearranged(b, c, k, len)
    ensures Rearranged(a, c, 1, len)
  {
  }

  lemma OpensNext(heap: seq<nat>, fc: seq<nat>, depth: seq<nat>, len: nat, k: nat)
    requires 1 <= k <= len < |heap| && Keyed(heap, len, fc, depth) && Ordered(Keys(heap, fc, depth), len, k + 1)
    ensures Sifting(heap, fc, depth, len, k, k)
  {
  }

  /** Establish sub-heaps of increasing lengths. */
  method Heapify(heap: array<nat>, len: nat, fc: seq<nat>, depth: seq<nat>)
    requires 1 <= len < heap.Length && Keyed(heap[..], len, fc, depth)
    modifies heap
    ensures Keyed(heap[..], len, fc, depth) && Ordered(Keys(heap[..], fc, depth), len, 1)
    ensures Rearranged(old(heap[..]), heap[..], 1, len)
  {
    hide Keyed, Keys, Rearranged, Sifting;
    ghost var start := heap[..];
    RearrangedSame(start, 1, len);
    var n := len / 2;
    NoFathers(heap[..], fc, depth, len, n + 1);
    while n >= 1
      invariant 0 <= n <= len / 2
      invariant Keyed(heap[..], len, fc, depth) && Ordered(Keys(heap[..], fc, depth), len, n + 1)
      invariant Rearranged(start, heap[..], 1, len)
    {
      ghost var before := heap[..];
      OpensNext(before, fc, depth, len, n);
      PqDownHeap(heap, len, fc, depth, n);
      RearrangedTrans(start, before, heap[..], n, len);
      n := n - 1;
    }
  }

  lemma NoFathers(heap: seq<nat>, fc: seq<nat>, depth: seq<nat>, len: nat, k: nat)
    requires 0 < len < |heap| && k > len / 2
    ensures Ordered(Keys(heap, fc, depth), len, k)
  {
  }

  /** A father's frequency is the sum of its sons', exactly. */
  ghost predicate Exact(heap: seq<nat>, fc: seq<nat>, elems: nat, joins: nat) {
    2 * joins <= |heap| && forall j :: 0 <= j < joins ==> ExactAt(heap, fc, elems, j)
  }

  ghost predicate ExactAt(heap: seq<nat>, fc: seq<nat>, elems: nat, j: nat)
    requires 2 * j + 2 <= |heap|
  {
    At(fc, elems + j) == At(fc, heap[|heap| - 1 - 2 * j]) + At(fc, heap[|heap| - 2 - 2 * j])
  }

  lemma ExactStep(h0: seq<nat>, len: nat, top: nat, dl: seq<nat>, fc: seq<nat>, leaves: set<nat>, elems: nat, joins: nat,
                  h1: seq<nat>, fc1: seq<nat>, node: nat)
    requires Forest(h0, len, top, dl, fc, leaves, elems, joins) && Leafy(leaves, elems)
    requires Exact(h0, fc, elems, joins) && node == elems + joins < |fc| == |fc1| && fc1 == fc[node := fc1[node]]
    requires |h1| == |h0| && 2 <= top && h1[top..] == h0[top..] && fc1[node] == At(fc1, h1[top - 1]) + At(fc1, h1[top - 2])
    ensures Exact(h1, fc1, elems, joins + 1)
    ensures Inner(fc1, elems, 0, joins + 1) == Inner(fc, elems, 0, joins) + fc1[node]
  {
    var j1 := joins + 1;
    assert forall i :: top <= i < |h0| ==> h1[i] == h1[top..][i - top] == h0[i];
    forall j | 0 <= j < j1 ensures ExactAt(h1, fc1, elems, j) {
      if j < joins {
        assert ExactAt(h0, fc, elems, j);
        JoinedNode(h0, len, top, dl, fc, leaves, elems, joins, |h0| - 1 - 2 * j);
        JoinedNode(h0, len, top, dl, fc, leaves, elems, joins, |h0| - 2 - 2 * j);
      }
    }
    InnerSame(fc1, fc, elems, 0, joins);
  }

  lemma ExactIsWeighs(heap: seq<nat>, top: nat, fc: seq<nat>, elems: nat, joins: nat, order: seq<nat>)
    requires Exact(heap, fc, elems, joins) && top == |heap| - 2 * joins && 1 < top && order == [heap[1]] + heap[top..]
    ensures Weighs(order, fc, elems, joins)
  {
    forall j | 0 <= j < joins ensures SonSum(order, fc, fc, elems, joins, j) {
      assert ExactAt(heap, fc, elems, j);
      var a := SonsAt(joins, j);
      assert order[a] == heap[top + a - 1] && order[a + 1] == heap[top + a];
    }
  }

  /** Nodes were joined from the lightest up, and the roots are no lighter than any of them. */
  ghost predicate Descends(heap: seq<nat>, len: nat, top: nat, fc: seq<nat>)
    requires len < |heap|
  {
    && (forall p, q :: top <= p < q < |heap| ==> At(fc, heap[p]) >= At(fc, heap[q]))
    && (top < |heap| ==> forall x :: x in Roots(heap, len) ==> At(fc, x) >= At(fc, heap[top]))
  }

  lemma RootAfter(h0: seq<nat>, len: nat, top: nat, dl: seq<nat>, fc: seq<nat>, leaves: set<nat>, elems: nat, joins: nat,
                  h1: seq<nat>, n: nat, m: nat, node: nat, x: nat)
    requires Forest(h0, len, top, dl, fc, leaves, elems, joins) && Leafy(leaves, elems) && node == elems + joins
    requires TwoLightest(Roots(h0, len), fc, n, m) && JoinMade(h0, h1, len, top, n, m, node) && x in Roots(h1, len - 1)
    ensures n < node && m < node
    ensures x == node || (x in Roots(h0, len) && x != n && x != m && x < node)
  {
    hide Forest, Leafy, Roots;
    var r0, r1 := multiset(Roots(h0, len)), multiset(Roots(h1, len - 1));
    assert n in r0 && m in r0 && x in r1;
    RootNotJoined(h0, len, top, dl, fc, leaves, elems, joins, n);
    RootNotJoined(h0, len, top, dl, fc, leaves, elems, joins, m);
    assert r1[x] + multiset{n, m}[x] == r0[x] + multiset{node}[x] by { assert (r1 + multiset{n, m})[x] == (r0 + multiset{node})[x]; }
    if x != node { RootNotJoined(h0, len, top, dl, fc, leaves, elems, joins, x); }
  }

  lemma DescendsStep(h0: seq<nat>, len: nat, top: nat, dl: seq<nat>, fc: seq<nat>, leaves: set<nat>, elems: nat, joins: nat,
                     h1: seq<nat>, fc1: seq<nat>, n: nat, m: nat, node: nat)
    requires Forest(h0, len, top, dl, fc, leaves, elems, joins) && Leafy(leaves, elems) && node == elems + joins < |fc|
    requires TwoLightest(Roots(h0, len), fc, n, m) && JoinMade(h0, h1, len, top, n, m, node) && Descends(h0, len, top, fc)
    requires fc1 == fc[node := At(fc, n) + At(fc, m)]
    ensures Descends(h1, len - 1, top - 2, fc1)
  {
    hide Forest, Leafy, Roots, JoinMade, TwoLightest;
    JoinSizes(h0, h1, len, top, n, m, node);
    LightestFacts(Roots(h0, len), fc, n, m);
    RootNotJoined(h0, len, top, dl, fc, leaves, elems, joins, n);
    RootNotJoined(h0, len, top, dl, fc, leaves, elems, joins, m);
    forall p | top <= p < |h0| ensures h1[p] == h0[p] && At(fc1, h1[p]) == At(fc, h0[p]) {
      JoinTail(h0, h1, len, top, n, m, node, p);
      JoinedNode(h0, len, top, dl, fc, leaves, elems, joins, p);
    }
    forall x | x in Roots(h1, len - 1) ensures At(fc1, x) >= At(fc1, m) {
      RootAfter(h0, len, top, dl, fc, leaves, elems, joins, h1, n, m, node, x);
      if x != node { LightestLess(Roots(h0, len), fc, n, m, x); }
    }
  }

  /** One join and what is known of all of them. */
  lemma StateStep(h0: seq<nat>, len: nat, top: nat, dl: seq<nat>, fc: seq<nat>, leaves: set<nat>, elems: nat, joins: nat,
                  h1: seq<nat>, fc1: seq<nat>, node: nat, list: seq<nat>, w0: seq<nat>)
    requires Forest(h0, len, top, dl, fc, leaves, elems, joins) && Leafy(leaves, elems) && |h1| == |h0|
    requires 2 <= len < |h0| && 2 <= top <= |h0| && node == elems + joins < |fc| == |fc1| && fc1 == fc[node := fc1[node]]
    requires GreedyState(h0, len, top, fc, elems, joins, list, w0) && h1[top..] == h0[top..]
    requires TwoLightest(Roots(h0, len), fc, h1[top - 1], h1[top - 2]) && JoinMade(h0, h1, len, top, h1[top - 1], h1[top - 2], node)
    requires fc1[node] == At(fc1, h1[top - 1]) + At(fc1, h1[top - 2])
    requires Greedy(list, w0, Roots(h1, len - 1), fc1, Inner(fc, elems, 0, joins) + fc1[node])
    ensures GreedyState(h1, len - 1, top - 2, fc1, elems, joins + 1, list, w0)
  {
    hide Forest, Leafy, Greedy, Exact, Descends, TwoLightest, JoinMade, Roots, Inner;
    ExactStep(h0, len, top, dl, fc, leaves, elems, joins, h1, fc1, node);
    LightestFacts(Roots(h0, len), fc, h1[top - 1], h1[top - 2]);
    RootNotJoined(h0, len, top, dl, fc, leaves, elems, joins, h1[top - 1]);
    RootNotJoined(h0, len, top, dl, fc, leaves, elems, joins, h1[top - 2]);
    DescendsStep(h0, len, top, dl, fc, leaves, elems, joins, h1, fc1, h1[top - 1], h1[top - 2], node);
  }

  lemma LightestFacts(list: seq<nat>, w: seq<nat>, a: nat, b: nat)
    requires TwoLightest(list, w, a, b)
    ensures a in list && b in list && a < |w| && b < |w| && w[a] <= w[b]
    ensures a in multiset(list) && b in multiset(list)
  {
  }

  lemma LightestLess(list: seq<nat>, w: seq<nat>, a: nat, b: nat, x: nat)
    requires TwoLightest(list, w, a, b) && x in list && x != a && x != b
    ensures x < |w| && w[b] <= w[x]
  {
  }

  /** The tree in order has its heavier nodes first. */
  ghost predicate HeavyFirst(order: seq<nat>, fc: seq<nat>) {
    forall i, j :: 0 <= i < j < |order| ==> At(fc, order[i]) >= At(fc, order[j])
  }

  lemma DescendsEnd(heap: seq<nat>, top: nat, fc: seq<nat>, order: seq<nat>)
    requires 1 < top <= |heap| && Descends(heap, 1, top, fc) && order == [heap[1]] + heap[top..]
    ensures HeavyFirst(order, fc)
  {
    assert Roots(heap, 1)[0] == heap[1];
    assert heap[1] in Roots(heap, 1);
    forall i, j | 0 <= i < j < |order| ensures At(fc, order[i]) >= At(fc, order[j]) {
      assert order[j] == heap[top + j - 1];
      if i > 0 { assert order[i] == heap[top + i - 1]; }
    }
  }

  /** What the joins leave: a tree in order, and a lower bound for the cost of any prefix code. */
  ghost predicate Grown(order: seq<nat>, dl: seq<nat>, fc: seq<nat>, leaves: set<nat>, elems: nat, joins: nat) {
    && TreeOrder(order, dl, elems, joins)
    && multiset(order) == Nodes(leaves, elems, joins)
    && forall s :: 0 <= s < elems ==> (Seen(order, |order|, s) <==> s in leaves)
  }

  ghost predicate Greedily(order: seq<nat>, list: seq<nat>, w0: seq<nat>, fc: seq<nat>, elems: nat, joins: nat) {
    && Weighs(order, fc, elems, joins) && HeavyFirst(order, fc)
    && exists roots :: NoCheaper(list, w0, roots, fc, Inner(fc, elems, 0, joins))
  }

  ghost predicate GreedyState(heap: seq<nat>, len: nat, top: nat, fc: seq<nat>, elems: nat, joins: nat, list: seq<nat>, w0: seq<nat>) {
    len < |heap| && Descends(heap, len, top, fc) && Greedy(list, w0, Roots(heap, len), fc, Inner(fc, elems, 0, joins)) && Exact(heap, fc, elems, joins)
  }

  /** Construct the Huffman tree by repeatedly combining the least two frequent nodes. */
  method JoinAll(heap: array<nat>, fc: array<nat>, dl: array<nat>, depth: array<nat>, len0: nat, elems: nat,
                 ghost leaves: set<nat>, ghost list: seq<nat>)
    returns (order: seq<nat>, joins: nat)
    requires heap != fc && heap != dl && heap != depth && fc != dl && fc != depth && dl != depth
    requires 2 <= len0 <= elems && heap.Length > 2 * elems && depth.Length >= 2 * elems
    requires fc.Length == dl.Length >= 2 * elems
    requires Ready(heap[..], len0, heap.Length, dl[..], fc[..], depth[..], leaves, elems, 0)
    requires multiset(list) == multiset(Roots(heap[..], len0))
    modifies heap, fc, dl, depth
    ensures joins == len0 - 1 && Grown(order, dl[..], fc[..], leaves, elems, joins)
    ensures forall x :: 0 <= x < elems ==> fc[x] == old(fc[x])
    ensures forall x :: 0 <= x < elems && x !in leaves ==> dl[x] == old(dl[x])
    ensures Total(list, old(fc[..])) < 0x1_0000 ==> Greedily(order, list, old(fc[..]), fc[..], elems, joins)
  {
    hide Ready, Greedy, Exact, Grown, Greedily, Total, Inner, Distinct, Roots, Forest, Leafy, Descends, TwoLightest, JoinMade;
    ghost var w0 := fc[..];
    var len, top, node := len0, heap.Length, elems;
    joins := 0;
    ReadyForest(heap[..], len, top, dl[..], fc[..], depth[..], leaves, elems, 0);
    RootsDistinct(heap[..], len, top, dl[..], fc[..], leaves, elems, 0);
    GreedyStart(heap[..], len, list, w0, elems);
    while len >= 2
      invariant 1 <= len == len0 - joins && top == heap.Length - 2 * joins && node == elems + joins
      invariant Ready(heap[..], len, top, dl[..], fc[..], depth[..], leaves, elems, joins)
      invariant forall x :: 0 <= x < elems ==> fc[x] == old(fc[x])
      invariant forall x :: 0 <= x < elems && x !in leaves ==> dl[x] == old(dl[x])
      invariant Total(list, w0) < 0x1_0000 ==> GreedyState(heap[..], len, top, fc[..], elems, joins, list, w0)
    {
      ghost var h0, f0, l0, d0 := heap[..], fc[..], dl[..], depth[..];
      JoinLeast(heap, fc, dl, depth, len, top, node, leaves, elems, joins, list, w0, Inner(f0, elems, 0, joins));
      if Total(list, w0) < 0x1_0000 {
        ReadyForest(h0, len, top, l0, f0, d0, leaves, elems, joins);
        StateStep(h0, len, top, l0, f0, leaves, elems, joins, heap[..], fc[..], node, list, w0);
      }
      len, top, joins, node := len - 1, top - 2, joins + 1, node + 1;
    }
    top := top - 1;
    ghost var h0 := heap[..];
    heap[top] := heap[1];
    order := heap[top..];
    assert order == [h0[1]] + h0[top + 1..];
    GrownEnd(h0, top + 1, dl[..], fc[..], depth[..], leaves, elems, joins, order);
    if Total(list, w0) < 0x1_0000 {
      GreedyEnd(h0, top + 1, fc[..], elems, joins, order, list, w0);
    }
  }

  lemma ReadyForest(heap: seq<nat>, len: nat, top: nat, dl: seq<nat>, fc: seq<nat>, depth: seq<nat>,
                   leaves: set<nat>, elems: nat, joins: nat)
    requires Ready(heap, len, top, dl, fc, depth, leaves, elems, joins)
    ensures Forest(heap, len, top, dl, fc, leaves, elems, joins) && Leafy(leaves, elems)
  {
  }

  lemma GreedyStart(heap: seq<nat>, len: nat, list: seq<nat>, fc: seq<nat>, elems: nat)
    requires len < |heap| && multiset(list) == multiset(Roots(heap, len)) && Distinct(Roots(heap, len))
    ensures GreedyState(heap, len, |heap|, fc, elems, 0, list, fc)
  {
    hide Total, NoCheaper, Distinct;
    TotalPermuted(list, Roots(heap, len), fc);
    NoCheaperStart(list, fc);
    NoCheaperPermuted(list, fc, list, fc, 0, Roots(heap, len));
  }

  lemma GrownEnd(heap: seq<nat>, top: nat, dl: seq<nat>, fc: seq<nat>, depth: seq<nat>, leaves: set<nat>, elems: nat, joins: nat, order: seq<nat>)
    requires Ready(heap, 1, top, dl, fc, depth, leaves, elems, joins) && joins >= 1
    requires elems + joins <= |dl| && order == [heap[1]] + heap[top..]
    ensures Grown(order, dl, fc, leaves, elems, joins)
  {
    hide Forest, TreeOrder, Seen;
    ForestIsTree(heap, top, dl, fc, leaves, elems, joins, order);
    OrderNodes(heap, top, dl, fc, leaves, elems, joins, order);
  }

  lemma GreedyEnd(heap: seq<nat>, top: nat, fc: seq<nat>, elems: nat, joins: nat, order: seq<nat>, list: seq<nat>, w0: seq<nat>)
    requires 1 < top == |heap| - 2 * joins && order == [heap[1]] + heap[top..]
    requires GreedyState(heap, 1, top, fc, elems, joins, list, w0)
    ensures Greedily(order, list, w0, fc, elems, joins)
  {
    hide NoCheaper, Exact, Weighs, Descends, HeavyFirst;
    DescendsEnd(heap, top, fc, order);
    ExactIsWeighs(heap, top, fc, elems, joins, order);
  }

  // ----- the symbols that occur --------------------------------------------------------------------

  ghost function Positive(fc: seq<nat>, n: nat): set<nat> {
    set s: nat | s < n && s < |fc| && fc[s] > 0
  }

  lemma PositiveStep(fc: seq<nat>, n: nat)
    requires n < |fc|
    ensures fc[n] > 0 ==> multiset(Positive(fc, n + 1)) == multiset(Positive(fc, n)) + multiset{n}
    ensures fc[n] == 0 ==> Positive(fc, n + 1) == Positive(fc, n)
  {
    if fc[n] > 0 {
      assert Positive(fc, n + 1) == Positive(fc, n) + {n};
    } else {
      assert Positive(fc, n + 1) == Positive(fc, n);
    }
  }

  lemma RootsPush(heap: seq<nat>, len: nat, x: nat)
    requires len + 1 < |heap|
    ensures multiset(Roots(heap[len + 1 := x], len + 1)) == multiset(Roots(heap, len)) + multiset{x}
  {
    assert Roots(heap[len + 1 := x], len + 1) == Roots(heap, len) + [x];
  }

  /** The symbols with a frequency stand in the heap. */
  ghost predicate Collected(fc: seq<nat>, heap: seq<nat>, depth: seq<nat>, n: nat, len: nat, maxCode: int) {
    && len <= n <= |fc| && len < |heap| && -1 <= maxCode < n
    && multiset(Roots(heap, len)) == multiset(Positive(fc, n)) && len == Used(fc, n)
    && (forall s :: maxCode < s < n ==> fc[s] == 0)
    && (maxCode >= 0 ==> fc[maxCode] > 0)
    && forall s :: 0 <= s < |depth| ==> depth[s] < 256
  }

  lemma CollectStep(fc: seq<nat>, heap: seq<nat>, depth: seq<nat>, n: nat, len: nat, maxCode: int)
    requires Collected(fc, heap, depth, n, len, maxCode) && n < |fc| && n < |depth| && n + 1 < |heap|
    ensures fc[n] != 0 ==> len + 1 < |heap| && Collected(fc, heap[len + 1 := n], depth[n := 0], n + 1, len + 1, n)
    ensures fc[n] == 0 ==> Collected(fc, heap, depth, n + 1, len, maxCode)
  {
    hide Positive, Roots;
    PositiveStep(fc, n);
    RootsPush(heap, len, n);
  }

  /** The first loop: symbols that occur go into the heap, the others have length zero. */
  method Collect(fc: seq<nat>, dl: array<nat>, heap: array<nat>, depth: array<nat>, elems: nat) returns (len: nat, maxCode: int)
    requires dl != heap && dl != depth && heap != depth
    requires elems <= |fc| && elems <= dl.Length && elems <= depth.Length && elems < heap.Length
    requires forall s :: 0 <= s < depth.Length ==> depth[s] < 256
    modifies dl, heap, depth
    ensures Collected(fc, heap[..], depth[..], elems, len, maxCode)
    ensures forall s :: 0 <= s < elems && fc[s] == 0 ==> dl[s] == 0
  {
    hide Collected;
    len, maxCode := 0, -1;
    CollectStart(fc, heap[..], depth[..]);
    var n: nat := 0;
    while n < elems
      invariant 0 <= n <= elems
      invariant Collected(fc, heap[..], depth[..], n, len, maxCode)
      invariant forall s :: 0 <= s < n && fc[s] == 0 ==> dl[s] == 0
    {
      ghost var h0: seq<nat>, d0: seq<nat> := heap[..], depth[..];
      CollectStep(fc, h0, d0, n, len, maxCode);
      if fc[n] != 0 {
        len := len + 1;
        heap[len], maxCode := n, n;
        depth[n] := 0;
        assert heap[..] == h0[len := n] && depth[..] == d0[n := 0];
      } else {
        dl[n] := 0;
      }
      n := n + 1;
    }
  }

  lemma CollectStart(fc: seq<nat>, heap: seq<nat>, depth: seq<nat>)
    requires 0 < |heap| && forall s :: 0 <= s < |depth| ==> depth[s] < 256
    ensures Collected(fc, heap, depth, 0, 0, -1)
  {
    assert Roots(heap, 0) == [];
    assert Positive(fc, 0) == {};
  }

  // ----- two codes at least ----------------------------------------------------------------------------

  lemma {:induction false} UsedRaise(fc: seq<nat>, n: nat, x: nat)
    requires n <= |fc| && x < |fc| && fc[x] == 0
    ensures Used(fc[x := 1], n) == Used(fc, n) + (if x < n then 1 else 0)
    decreases n
  {
    if n > 0 { UsedRaise(fc, n - 1, x); }
  }

  lemma {:induction false} UsedAtLeast(fc: seq<nat>, n: nat, a: nat, b: nat)
    requires a < b < n <= |fc| && fc[b] > 0
    ensures Used(fc, n) >= (if fc[a] > 0 then 2 else 1)
    decreases n
  {
    if b < n - 1 { UsedAtLeast(fc, n - 1, a, b); } else { UsedOne(fc, n - 1, a); }
  }

  lemma {:induction false} UsedOne(fc: seq<nat>, n: nat, a: nat)
    requires a < n <= |fc|
    ensures Used(fc, n) >= (if fc[a] > 0 then 1 else 0)
    decreases n
  {
    if a < n - 1 { UsedOne(fc, n - 1, a); }
  }

  /** The symbol that is forced has no frequency yet, and stays the largest or is zero. */
  lemma ForceStep(fc: seq<nat>, heap: seq<nat>, depth: seq<nat>, elems: nat, len: nat, maxCode: int, node: nat, max1: int)
    requires Collected(fc, heap, depth, elems, len, maxCode) && len < 2 && 3 <= elems && elems < |heap|
    requires elems <= |depth|
    requires node == (if maxCode < 2 then maxCode + 1 else 0) && max1 == (if maxCode < 2 then maxCode + 1 else maxCode)
    ensures node < 3 && fc[node] == 0 && len + 1 < |heap|
    ensures Collected(fc[node := 1], heap[len + 1 := node], depth[node := 0], elems, len + 1, max1)
  {
    if maxCode >= 2 { UsedAtLeast(fc, elems, 0, maxCode); }
    UsedRaise(fc, elems, node);
    RootsPush(heap, len, node);
    assert Positive(fc[node := 1], elems) == Positive(fc, elems) + {node};
    assert multiset(Positive(fc[node := 1], elems)) == multiset(Positive(fc, elems)) + multiset{node};
  }

  /** Frequencies after some symbols were given frequency one. */
  function Forced(fc: seq<nat>, forced: seq<nat>): (r: seq<nat>)
    ensures |r| == |fc|
  {
    if forced == [] then fc else
      var x, init := forced[|forced| - 1], Forced(fc, forced[..|forced| - 1]);
      if x < |fc| then init[x := 1] else init
  }

  /** Each of them had none before. */
  ghost predicate Dummies(fc: seq<nat>, forced: seq<nat>) {
    forced == [] ||
    (var x, init := forced[|forced| - 1], forced[..|forced| - 1];
     Dummies(fc, init) && x < 3 && x < |fc| && Forced(fc, init)[x] == 0)
  }

  /** While fewer than two symbols occur, force one: its single bit, and its static length, are taken off in advance. */
  method Force(fc: array<nat>, heap: array<nat>, depth: array<nat>, len0: nat, maxCode0: int, elems: nat, slens: seq<nat>)
    returns (len: nat, maxCode: int, opt: int, stat: int, ghost forced: seq<nat>)
    requires fc != heap && fc != depth && heap != depth && 3 <= elems < heap.Length && elems <= depth.Length && elems <= |slens|
    requires Collected(fc[..], heap[..], depth[..], elems, len0, maxCode0)
    modifies fc, heap, depth
    ensures Collected(fc[..], heap[..], depth[..], elems, len, maxCode)
    ensures len == (if len0 < 2 then 2 else len0) && len == len0 + |forced|
    ensures Dummies(old(fc[..]), forced) && fc[..] == Forced(old(fc[..]), forced)
    ensures opt + |forced| == 0 && stat + Total(forced, slens) == 0
  {
    hide Collected, Dummies, Forced, Total;
    len, maxCode, opt, stat, forced := len0, maxCode0, 0, 0, [];
    ForceStart(fc[..], slens);
    CollectedSize(fc[..], heap[..], depth[..], elems, len, maxCode);
    ghost var start: seq<nat> := fc[..];
    while len < 2
      invariant len == len0 + |forced| && (len0 >= 2 ==> forced == []) && (len0 < 2 ==> len <= 2)
      invariant Collected(fc[..], heap[..], depth[..], elems, len, maxCode)
      invariant Dummies(start, forced) && fc[..] == Forced(start, forced)
      invariant opt + |forced| == 0 && stat + Total(forced, slens) == 0
    {
      ghost var f0: seq<nat>, h0: seq<nat>, d0: seq<nat> := fc[..], heap[..], depth[..];
      CollectedSize(f0, h0, d0, elems, len, maxCode);
      len := len + 1;
      var node: nat, max1 := if maxCode < 2 then maxCode + 1 else 0, if maxCode < 2 then maxCode + 1 else maxCode;
      ForceStep(f0, h0, d0, elems, len - 1, maxCode, node, max1);
      heap[len], maxCode := node, max1;
      fc[node] := 1;
      depth[node] := 0;
      opt := opt - 1;
      stat := stat - slens[node];
      assert fc[..] == f0[node := 1] && heap[..] == h0[len := node] && depth[..] == d0[node := 0];
      ForcedMore(start, forced, node, slens);
      forced := forced + [node];
    }
  }

  lemma ForceStart(fc: seq<nat>, slens: seq<nat>)
    ensures Dummies(fc, []) && Forced(fc, []) == fc && Total([], slens) == 0
  {
  }

  lemma CollectedSize(fc: seq<nat>, heap: seq<nat>, depth: seq<nat>, n: nat, len: nat, maxCode: int)
    requires Collected(fc, heap, depth, n, len, maxCode)
    ensures len <= n <= |fc| && len < |heap| && -1 <= maxCode < n
  {
  }

  lemma ForcedMore(fc: seq<nat>, forced: seq<nat>, node: nat, slens: seq<nat>)
    requires Dummies(fc, forced) && node < 3 && node < |fc| && node < |slens| && Forced(fc, forced)[node] == 0
    ensures Dummies(fc, forced + [node]) && Forced(fc, forced + [node]) == Forced(fc, forced)[node := 1]
    ensures Total(forced + [node], slens) == Total(forced, slens) + slens[node]
  {
    var more := forced + [node];
    assert more[..|more| - 1] == forced && more[|more| - 1] == node;
  }

  // ----- a code of two symbols -------------------------------------------------------------------------

  lemma {:induction false} KraftAtMost(bl: seq<nat>, m: nat, n: nat)
    requires 1 <= n < |bl| && n <= m && 2 <= m
    ensures Codes(bl, n) >= bl[1] && Kraft(bl, m, n) <= Shl(bl[1], m - 1) + Shl(Codes(bl, n) - bl[1], m - 2)
    decreases n
  {
    hide Shl;
    if n == 1 {
      assert Kraft(bl, m, 0) == 0 && Codes(bl, 0) == 0;
    } else {
      KraftAtMost(bl, m, n - 1);
      ShlAdd(Codes(bl, n - 1) - bl[1], bl[n], m - 2);
      ShlLess(bl[n], m - n, m - 2);
    }
  }

  lemma {:induction false} ShlLess(x: nat, a: nat, b: nat)
    requires a <= b
    ensures Shl(x, a) <= Shl(x, b)
    decreases b
  {
    if a < b { ShlLess(x, a, b - 1); }
  }

  /** A complete code of two symbols has one bit for each. */
  lemma TwoCodes(bl: seq<nat>, lens: seq<nat>)
    requires Tally(bl, lens) && Complete(lens) && Codes(bl, MAXBITS) == 2
    ensures bl[1] == 2
  {
    hide Shl, Kraft, Codes, NextCode, Count;
    KraftIsNextCode(bl, lens, MAXBITS, MAXBITS);
    ShlNone(NextCode(lens, MAXBITS) + Count(lens, MAXBITS));
    KraftAtMost(bl, MAXBITS, MAXBITS);
    ShlOne(MAXBITS - 2);
    ShlOne(MAXBITS - 1);
    PowStep(MAXBITS - 2);
    PowStep(MAXBITS - 1);
    TwoHalves(MAXBITS, 1);
  }

  lemma {:induction false} CodesAt(bl: seq<nat>, n: nat, b: nat)
    requires 1 < b <= n < |bl|
    ensures Codes(bl, n) >= bl[1] + bl[b]
    decreases n
  {
    if b < n { CodesAt(bl, n - 1, b); } else { CodesFirst(bl, n - 1); }
  }

  lemma {:induction false} CodesFirst(bl: seq<nat>, n: nat)
    requires 1 <= n < |bl|
    ensures Codes(bl, n) >= bl[1]
    decreases n
  {
    if n > 1 { CodesFirst(bl, n - 1); }
  }

  lemma TwoSymbols(bl: seq<nat>, lens: seq<nat>, s: nat)
    requires Tally(bl, lens) && Complete(lens) && ValidLens(lens) && Used(lens, |lens|) == 2 && s < |lens| && lens[s] > 0
    ensures lens[s] == 1
  {
    hide Complete, Used, Codes, CodesTo;
    CodesIsCodesTo(bl, lens, MAXBITS);
    CodesToIsUsed(lens, |lens|, MAXBITS);
    TwoCodes(bl, lens);
    if lens[s] > 1 {
      CountToMono(lens, s, |lens|, lens[s]);
      CodesAt(bl, MAXBITS, lens[s]);
    }
  }

  // ----- the cost without the forced symbols ------------------------------------------------------------

  lemma {:induction false} CostForced(fc: seq<nat>, forced: seq<nat>, used: seq<nat>, l: seq<nat>, extra: seq<nat>, n: nat)
    requires n <= |used| && n <= |l| && n <= |fc| && n <= |extra| && Dummies(fc, forced)
    requires forall i :: 0 <= i < |forced| ==> forced[i] < n && used[forced[i]] > 0 && extra[forced[i]] == 0
    ensures Cost(Forced(fc, forced), used, l, extra, n) == Cost(fc, used, l, extra, n) + Total(forced, l)
    decreases |forced|
  {
    hide Cost;
    if forced != [] {
      var k := |forced| - 1;
      assert forall i :: 0 <= i < k ==> forced[..k][i] == forced[i];
      CostForced(fc, forced[..k], used, l, extra, n);
      CostBump(Forced(fc, forced[..k]), used, l, extra, n, forced[k]);
    }
  }

  lemma {:induction false} TotalOnes(list: seq<nat>, l: seq<nat>)
    requires forall i :: 0 <= i < |list| ==> list[i] < |l| && l[list[i]] == 1
    ensures Total(list, l) == |list|
    decreases |list|
  {
    if list != [] {
      var k := |list| - 1;
      assert forall i :: 0 <= i < k ==> list[..k][i] == list[i];
      TotalOnes(list[..k], l);
    }
  }

  lemma {:induction false} ForcedAre(fc: seq<nat>, forced: seq<nat>, s: nat)
    requires Dummies(fc, forced) && s < |fc|
    ensures Forced(fc, forced)[s] == (if s in forced then 1 else fc[s])
    ensures s in forced ==> fc[s] == 0 && s < 3
    decreases |forced|
  {
    if forced != [] {
      var k := |forced| - 1;
      assert forced == forced[..k] + [forced[k]];
      ForcedAre(fc, forced[..k], s);
    }
  }

  // ----- optimal lengths ------------------------------------------------------------------------------------

  /** The symbols with a frequency, in increasing order. */
  function Syms(freq: seq<nat>, n: nat): (list: seq<nat>)
    requires n <= |freq|
    ensures forall i :: 0 <= i < |list| ==> list[i] < n && freq[list[i]] > 0
  {
    if n == 0 then [] else Syms(freq, n - 1) + (if freq[n - 1] > 0 then [n - 1] else [])
  }

  lemma {:induction false} SymsNodes(freq: seq<nat>, n: nat)
    requires n <= |freq|
    ensures multiset(Syms(freq, n)) == multiset(Positive(freq, n))
    decreases n
  {
    if n == 0 {
      assert Positive(freq, 0) == {};
    } else {
      hide Positive, Syms;
      var x: nat := n - 1;
      SymsNodes(freq, x);
      SymsNext(freq, x);
      PositiveStep(freq, x);
    }
  }

  lemma SymsNext(freq: seq<nat>, x: nat)
    requires x < |freq|
    ensures freq[x] == 0 ==> Syms(freq, x + 1) == Syms(freq, x)
    ensures freq[x] > 0 ==> multiset(Syms(freq, x + 1)) == multiset(Syms(freq, x)) + multiset{x}
  {
    Appended(Syms(freq, x), x);
  }

  lemma Appended(list: seq<nat>, x: nat)
    ensures multiset(list + [x]) == multiset(list) + multiset{x}
  {
  }

  lemma {:induction false} SymsDistinct(freq: seq<nat>, n: nat)
    requires n <= |freq|
    ensures Distinct(Syms(freq, n))
    decreases n
  {
    if n > 0 { SymsDistinct(freq, n - 1); }
  }

  lemma {:induction false} SymsSame(f: seq<nat>, g: seq<nat>, n: nat)
    requires n <= |f| && n <= |g| && forall s :: 0 <= s < n ==> (f[s] > 0 <==> g[s] > 0)
    ensures Syms(f, n) == Syms(g, n)
    decreases n
  {
    if n > 0 { SymsSame(f, g, n - 1); }
  }

  lemma {:induction false} SymsEnd(f: seq<nat>, n: nat, m: nat)
    requires n <= m <= |f| && forall s :: n <= s < m ==> f[s] == 0
    ensures Syms(f, m) == Syms(f, n)
    decreases m
  {
    if n < m { SymsEnd(f, n, m - 1); }
  }

  /** The lengths d of the symbols are a prefix code, and no prefix code is cheaper. */
  ghost predicate Optimal(freq: seq<nat>, d: seq<nat>) {
    && |d| == |freq|
    && (exists m :: Good(Syms(freq, |freq|), d, m))
    && forall l, m :: |l| == |freq| && Good(Syms(freq, |freq|), l, m) ==>
         Total(Syms(freq, |freq|), Costs(freq, d)) <= Total(Syms(freq, |freq|), Costs(freq, l))
  }

  lemma {:induction false} AtMostAll(d: seq<nat>) returns (m: nat)
    ensures forall x :: 0 <= x < |d| ==> d[x] <= m
    decreases |d|
  {
    if d == [] { m := 0; } else {
      var k := |d| - 1;
      var rest := AtMostAll(d[..k]);
      m := if d[k] > rest then d[k] else rest;
      forall x | 0 <= x < |d| ensures d[x] <= m { assert x < k ==> d[..k][x] == d[x]; }
    }
  }

  /** What a list of symbols needs and costs depends on the symbols' own entries only. */
  lemma GoodShort(list: seq<nat>, a: seq<nat>, b: seq<nat>, m: nat)
    requires Good(list, a, m) && forall i :: 0 <= i < |list| ==> list[i] < |b| && b[list[i]] == a[list[i]]
    ensures Good(list, b, m)
  {
    hide Total, Pow2;
    TotalSame(list, Shares(a, m), Shares(b, m));
  }

  lemma CostsShort(list: seq<nat>, v: seq<nat>, a: seq<nat>, w: seq<nat>, b: seq<nat>)
    requires |v| == |a| && |w| == |b|
    requires forall i :: 0 <= i < |list| ==>
               list[i] < |a| && list[i] < |b| && a[list[i]] == b[list[i]] && v[list[i]] == w[list[i]]
    ensures Total(list, Costs(v, a)) == Total(list, Costs(w, b))
  {
    hide Total;
    TotalSame(list, Costs(v, a), Costs(w, b));
  }

  /** The depths of the tree are optimal lengths. */
  lemma DepthsOptimal(order: seq<nat>, dl: seq<nat>, fc: seq<nat>, elems: nat, joins: nat, w0: seq<nat>, d: seq<nat>,
                      n: nat, freq: seq<nat>)
    requires n <= elems <= |w0| == |fc| == |d| && freq == w0[..n]
    requires Grown(order, dl, fc, Positive(w0, elems), elems, joins) && |dl| == |d|
    requires Greedily(order, Syms(w0, elems), w0, fc, elems, joins) && Depths(order, d, elems, joins, |order|)
    requires forall s :: 0 <= s < elems ==> fc[s] == w0[s]
    requires forall s :: n <= s < elems ==> w0[s] == 0
    ensures Optimal(freq, d[..n])
  {
    hide Depths, Weighs, NoCheaper, Good, Total, Costs, Inner, Syms;
    var list := Syms(w0, elems);
    SymsNodes(w0, elems);
    SymsDistinct(w0, elems);
    SymsEnd(w0, n, elems);
    SymsSame(w0, freq, n);
    SymsRange(freq);
    assert list == Syms(freq, n);
    DepthsCost(order, list, Positive(w0, elems), fc, d, elems, joins);
    CostsShort(list, fc, d, freq, d[..n]);
    DepthsGood(order, list, Positive(w0, elems), d, elems, joins);
    var top :| Good(list, d, top);
    GoodShort(list, d, d[..n], top);
    forall l, m | |l| == n && Good(list, l, m) ensures Total(list, Costs(freq, d[..n])) <= Total(list, Costs(freq, l)) {
      var pad: seq<nat> := l + seq(|w0| - n, _ => 0);
      GoodShort(list, l, pad, m);
      CostsShort(list, freq, l, w0, pad);
      var roots :| NoCheaper(list, w0, roots, fc, Inner(fc, elems, 0, joins));
      NoCheaperEnd(list, w0, roots, fc, Inner(fc, elems, 0, joins), pad, m);
    }
  }

  lemma SymsRange(freq: seq<nat>)
    ensures forall i :: 0 <= i < |Syms(freq, |freq|)| ==> Syms(freq, |freq|)[i] < |freq|
  {
  }

  lemma DepthsGood(order: seq<nat>, list: seq<nat>, leaves: set<nat>, d: seq<nat>, elems: nat, joins: nat)
    requires Depths(order, d, elems, joins, |order|) && |order| == 2 * joins + 1 && elems + joins <= |d|
    requires multiset(list) == multiset(leaves) && multiset(order) == Nodes(leaves, elems, joins)
    requires Distinct(list) && forall i :: 0 <= i < |list| ==> list[i] < |d|
    ensures exists m :: Good(list, d, m)
  {
    hide Depths, Total, Distinct;
    var m := AtMostAll(d);
    DepthsFill(order, list, leaves, d, elems, joins, m);
    assert Good(list, d, m);
  }

  /** If no leaf is deeper than m, no node is. */
  lemma {:induction false} LeavesDeepest(order: seq<nat>, dad: seq<nat>, d: seq<nat>, elems: nat, joins: nat, m: nat, i: nat)
    requires TreeOrder(order, dad, elems, joins) && Depths(order, d, elems, joins, |order|) && i < |order|
    requires forall k :: 0 <= k < |order| && order[k] < elems ==> order[k] < |d| && d[order[k]] <= m
    ensures order[i] < |d| && d[order[i]] <= m
    decreases |order| - i
  {
    if order[i] >= elems {
      var j := order[i] - elems;
      assert BeforeSons(order, elems, joins, j);
      var a := SonsAt(joins, j);
      assert OneDeeper(order, d, elems, joins, a);
      LeavesDeepest(order, dad, d, elems, joins, m, a);
    }
  }

  /** Kraft's sum over the first n symbols, length by length. */
  function KraftTo(lens: seq<nat>, n: nat, b: nat): nat
    requires n <= |lens| && b <= MAXBITS
  {
    if b == 0 then 0 else KraftTo(lens, n, b - 1) + Shl(CountTo(lens, n, b), MAXBITS - b)
  }

  lemma {:induction false} KraftToNone(lens: seq<nat>, b: nat)
    requires b <= MAXBITS
    ensures KraftTo(lens, 0, b) == 0
    decreases b
  {
    if b > 0 { KraftToNone(lens, b - 1); ShlOne(MAXBITS - b); }
  }

  lemma {:induction false} KraftToStep(lens: seq<nat>, n: nat, b: nat)
    requires 0 < n <= |lens| && b <= MAXBITS
    ensures KraftTo(lens, n, b) == KraftTo(lens, n - 1, b) + (if 1 <= lens[n - 1] <= b then Pow2(MAXBITS - lens[n - 1]) else 0)
    decreases b
  {
    hide Shl, Pow2;
    if b > 0 {
      KraftToStep(lens, n, b - 1);
      ShlAdd(CountTo(lens, n - 1, b), 1, MAXBITS - b);
      ShlOne(MAXBITS - b);
    }
  }

  lemma {:induction false} KraftToIsKraft(bl: seq<nat>, lens: seq<nat>, b: nat)
    requires Tally(bl, lens) && b <= MAXBITS
    ensures KraftTo(lens, |lens|, b) == Kraft(bl, MAXBITS, b)
    decreases b
  {
    if b > 0 { KraftToIsKraft(bl, lens, b - 1); }
  }

  lemma {:induction false} SharesAreKraft(freq: seq<nat>, lens: seq<nat>, n: nat)
    requires n <= |lens| == |freq| && ValidLens(lens) && forall s :: 0 <= s < |lens| ==> (lens[s] > 0 <==> freq[s] > 0)
    ensures Total(Syms(freq, n), Shares(lens, MAXBITS)) == KraftTo(lens, n, MAXBITS)
    decreases n
  {
    hide KraftTo, Pow2, Syms, Total;
    if n == 0 { KraftToNone(lens, MAXBITS); SymsNone(freq, Shares(lens, MAXBITS)); } else {
      SharesAreKraft(freq, lens, n - 1);
      KraftToStep(lens, n, MAXBITS);
      SymsTotal(freq, n - 1, Shares(lens, MAXBITS));
    }
  }

  lemma SymsNone(freq: seq<nat>, v: seq<nat>)
    ensures Total(Syms(freq, 0), v) == 0
  {
  }

  lemma SymsTotal(freq: seq<nat>, x: nat, v: seq<nat>)
    requires x < |freq|
    ensures Total(Syms(freq, x + 1), v) == Total(Syms(freq, x), v) + (if freq[x] > 0 then At(v, x) else 0)
  {
    var list := Syms(freq, x + 1);
    if freq[x] > 0 {
      assert list[..|list| - 1] == Syms(freq, x);
    } else {
      assert list == Syms(freq, x);
    }
  }

  /** Every prefix code of the symbols competes. */
  lemma PrefixIsGood(freq: seq<nat>, lens: seq<nat>)
    requires |lens| == |freq| && ValidLens(lens) && Prefix(lens) && forall s :: 0 <= s < |lens| ==> (lens[s] > 0 <==> freq[s] > 0)
    ensures Good(Syms(freq, |freq|), lens, MAXBITS)
  {
    hide Prefix, Kraft, KraftTo, Total, Shl, NextCode, Pow2;
    var bl: seq<nat> := seq(MAXBITS + 1, b => if b <= 0 then 0 else Count(lens, b));
    SharesAreKraft(freq, lens, |lens|);
    KraftToIsKraft(bl, lens, MAXBITS);
    KraftIsNextCode(bl, lens, MAXBITS, MAXBITS);
    ShlNone(NextCode(lens, MAXBITS) + Count(lens, MAXBITS));
    PrefixAtEnd(lens);
    SymsDistinct(freq, |freq|);
  }

  lemma PrefixAtEnd(lens: seq<nat>)
    requires Prefix(lens)
    ensures NextCode(lens, MAXBITS) + Count(lens, MAXBITS) <= Pow2(MAXBITS)
  {
    assert Fits(lens, MAXBITS);
  }

  lemma {:induction false} CostIsTotal(freq: seq<nat>, l: seq<nat>, extra: seq<nat>, n: nat)
    requires n <= |freq| == |l| == |extra|
    ensures Cost(freq, freq, l, extra, n) == Total(Syms(freq, n), Costs(freq, l)) + Total(Syms(freq, n), Costs(freq, extra))
    decreases n
  {
    hide Costs, Syms, Total;
    if n == 0 { SymsNone(freq, Costs(freq, l)); SymsNone(freq, Costs(freq, extra)); } else {
      CostIsTotal(freq, l, extra, n - 1);
      SymsTotal(freq, n - 1, Costs(freq, l));
      SymsTotal(freq, n - 1, Costs(freq, extra));
      CostOne(freq, l, extra, n - 1);
    }
  }

  lemma CostOne(freq: seq<nat>, l: seq<nat>, extra: seq<nat>, s: nat)
    requires s < |freq| == |l| == |extra|
    ensures SymbolCost(freq[s], l[s], extra[s]) == At(Costs(freq, l), s) + At(Costs(freq, extra), s)
  {
  }

  /** No prefix code for the symbols that occur sends fewer bits than the optimal lengths. */
  lemma OptimalCost(freq: seq<nat>, best: seq<nat>, extra: seq<nat>, lens: seq<nat>)
    requires Optimal(freq, best) && |lens| == |freq| == |extra|
    requires ValidLens(lens) && Prefix(lens) && forall s :: 0 <= s < |lens| ==> (lens[s] > 0 <==> freq[s] > 0)
    ensures Cost(freq, freq, best, extra, |freq|) <= Cost(freq, freq, lens, extra, |freq|)
  {
    hide Good, Prefix, Cost, Total, Costs;
    PrefixIsGood(freq, lens);
    CostIsTotal(freq, best, extra, |freq|);
    CostIsTotal(freq, lens, extra, |freq|);
  }

  // ----- build_tree ---------------------------------------------------------------------------------------

  /** The symbols' frequencies, with one for each forced symbol. */
  function Weights(freq: seq<nat>, lens: seq<nat>): (w: seq<nat>)
    requires |lens| <= |freq|
    ensures |w| == |lens|
  {
    seq(|lens|, s requires 0 <= s < |lens| => if lens[s] > 0 && freq[s] == 0 then 1 else freq[s])
  }

  /** Which symbols have a code: those that occur, and if these are fewer than two, forced ones with one bit. */
  ghost predicate RightSymbols(freq: seq<nat>, elems: nat, lens: seq<nat>) {
    && |lens| <= elems <= |freq|
    && (forall s :: |lens| <= s < elems ==> freq[s] == 0)
    && (forall s :: 0 <= s < |lens| && freq[s] > 0 ==> lens[s] > 0)
    && (forall s :: 0 <= s < |lens| && freq[s] == 0 && lens[s] > 0 ==> lens[s] == 1 && s < 3 && Used(freq, elems) < 2)
    && Used(lens, |lens|) == if Used(freq, elems) < 2 then 2 else Used(freq, elems)
  }

  /** best are optimal lengths, and lens are these unless one of them is above m. */
  ghost predicate BestLengths(freq: seq<nat>, lens: seq<nat>, m: nat, best: seq<nat>)
    requires |lens| <= |freq|
  {
    && Optimal(Weights(freq, lens), best)
    && ((forall s :: 0 <= s < |lens| && lens[s] > 0 ==> best[s] <= m) ==>
          forall s :: 0 <= s < |lens| && lens[s] > 0 ==> lens[s] == best[s])
  }

  /** A rarer symbol has no shorter code than a more frequent one. */
  ghost predicate Graded(w: seq<nat>, lens: seq<nat>) {
    |w| == |lens| && forall s, t :: 0 <= s < |w| && 0 <= t < |w| && lens[s] > 0 && lens[t] > 0 && w[s] < w[t] ==> lens[s] >= lens[t]
  }

  /** With optimal lengths this is so, or else the two could be exchanged. */
  lemma OptimalGraded(freq: seq<nat>, d: seq<nat>, s: nat, t: nat)
    requires Optimal(freq, d) && s < |freq| && t < |freq| && 0 < freq[s] < freq[t]
    ensures d[s] >= d[t]
  {
    hide Good, Total, Costs, Distinct;
    SymsAll(freq, |freq|, s);
    SymsAll(freq, |freq|, t);
    var list := Syms(freq, |freq|);
    var m :| Good(list, d, m);
    if d[s] < d[t] { Exchange(list, freq, d, m, s, t); }
  }

  lemma {:induction false} SymsAll(freq: seq<nat>, n: nat, s: nat)
    requires s < n <= |freq| && freq[s] > 0
    ensures s in Syms(freq, n)
    decreases n
  {
    if s < n - 1 { SymsAll(freq, n - 1, s); }
  }

  /** And with lengths handed out from the longest down, to the lighter leaves first. */
  lemma GradedEnd(job: Job, d: seq<nat>, fc: seq<nat>, lens: seq<nat>)
    requires |lens| == job.n <= |d| && job.n <= |fc| && HeavyFirst(job.order, fc) && SameSymbols(job) && job.freq == fc[..job.n]
    requires Optimal(job.freq, d[..job.n]) && forall s :: 0 <= s < job.n ==> (lens[s] > 0 <==> job.freq[s] > 0)
    requires AtDepths(job.order, d, lens) || LongerLast(job.order, lens)
    ensures Graded(job.freq, lens)
  {
    hide Optimal;
    var w := job.freq;
    forall s, t | 0 <= s < |w| && 0 <= t < |w| && lens[s] > 0 && lens[t] > 0 && w[s] < w[t] ensures lens[s] >= lens[t] {
      var i :| 0 <= i < |job.order| && job.order[i] == s;
      var j :| 0 <= j < |job.order| && job.order[j] == t;
      OptimalGraded(w, d[..job.n], s, t);
      assert At(fc, job.order[i]) < At(fc, job.order[j]);
      assert j < i;
    }
  }

  ghost predicate LensStored(dl: seq<nat>, elems: nat, lens: seq<nat>) {
    && |lens| <= elems <= |dl| && lens == dl[..|lens|]
    && forall s :: |lens| <= s < elems ==> dl[s] == 0
  }

  lemma CollectedKeyed(fc: seq<nat>, heap: seq<nat>, depth: seq<nat>, elems: nat, len: nat, maxCode: int)
    requires Collected(fc, heap, depth, elems, len, maxCode) && 1 <= len && elems <= |depth|
    ensures Keyed(heap, len, fc, depth) && 0 <= maxCode < elems && len <= elems && len < |heap|
  {
    forall i | 1 <= i <= len && i < |heap| ensures heap[i] in Positive(fc, elems) {
      assert Roots(heap, len)[i - 1] == heap[i];
      assert heap[i] in multiset(Roots(heap, len));
    }
    assert heap[1] in Positive(fc, elems);
  }

  lemma CollectedFacts(fc: seq<nat>, heap: seq<nat>, depth: seq<nat>, elems: nat, len: nat, maxCode: int)
    requires Collected(fc, heap, depth, elems, len, maxCode)
    ensures elems <= |fc| && len == Used(fc, elems) && forall s: nat :: maxCode < s < elems ==> fc[s] == 0
  {
  }

  lemma GrownSeen(order: seq<nat>, dl: seq<nat>, fc: seq<nat>, leaves: set<nat>, elems: nat, joins: nat)
    requires Grown(order, dl, fc, leaves, elems, joins)
    ensures forall s :: 0 <= s < elems ==> (Seen(order, |order|, s) <==> s in leaves)
  {
  }

  lemma PowAtLeastTwo(m: nat)
    requires 1 <= m
    ensures Pow2(m) >= 2
  {
    Pow2Mono(1, m);
    assert Pow2(1) == 2 * Pow2(0);
  }

  lemma ReadyStart(fc: seq<nat>, h1: seq<nat>, h2: seq<nat>, depth: seq<nat>, dl: seq<nat>, elems: nat, len: nat, maxCode: int)
    requires Collected(fc, h1, depth, elems, len, maxCode) && Rearranged(h1, h2, 1, len)
    requires Keyed(h2, len, fc, depth) && Ordered(Keys(h2, fc, depth), len, 1)
    ensures Ready(h2, len, |h2|, dl, fc, depth, Positive(fc, elems), elems, 0)
    ensures len < |h2| && multiset(Syms(fc, elems)) == multiset(Roots(h2, len))
  {
    hide Keyed, Ordered, Keys;
    SymsNodes(fc, elems);
    assert h2[|h2|..] == [];
  }

  lemma {:induction false} UsedPrefix(fc: seq<nat>, n: nat, m: nat)
    requires n <= m <= |fc|
    ensures Used(fc[..n], n) <= Used(fc, m)
    decreases m
  {
    if n < m { UsedPrefix(fc, n, m - 1); } else { UsedSame(fc[..n], fc, n); }
  }

  /** The tree is what gen_bitlen expects. */
  lemma JobReady(job: Job, f1: seq<nat>, f2: seq<nat>, heap: seq<nat>, depth: seq<nat>, dl: seq<nat>, len: nat, extra: seq<nat>, slens: seq<nat>)
    requires 0 < job.n <= job.elems && Collected(f1, heap, depth, job.elems, len, job.n - 1) && |f2| == |f1|
    requires forall s :: 0 <= s < job.elems ==> f2[s] == f1[s]
    requires Grown(job.order, dl, f2, Positive(f1, job.elems), job.elems, job.joins)
    requires job.freq == f2[..job.n] && |extra| == |slens| == job.elems && job.extra == extra[..job.n] && job.slens == slens[..job.n]
    requires 1 <= job.m <= MAXBITS
    ensures GoodJob(job, dl) && SameSymbols(job) && Used(job.freq, job.n) <= len
  {
    hide TreeOrder, Seen, Used;
    forall i | 0 <= i < |job.order| && job.order[i] < job.elems ensures job.order[i] < job.n {
      SeenAt(job.order, i);
    }
    UsedPrefix(f1, job.n, job.elems);
    assert job.freq == f1[..job.n];
  }

  lemma SeenAt(order: seq<nat>, i: nat)
    requires i < |order|
    ensures Seen(order, |order|, order[i])
  {
  }

  /** Lengths as stored: symbols outside the tree still have the zero of the first loop. */
  lemma StoredLens(job: Job, f0: seq<nat>, forced: seq<nat>, heap: seq<nat>, depth: seq<nat>, len: nat,
                   l1: seq<nat>, l2: seq<nat>, dl: seq<nat>, lens: seq<nat>)
    requires |lens| == job.n <= job.elems <= |f0| && Dummies(f0, forced) && job.elems <= |l1| == |l2| == |dl| && 0 < job.n
    requires Collected(Forced(f0, forced), heap, depth, job.elems, len, job.n - 1)
    requires job.freq == Forced(f0, forced)[..job.n] && SameSymbols(job)
    requires forall s :: 0 <= s < job.elems && f0[s] == 0 ==> l1[s] == 0
    requires forall s :: 0 <= s < job.elems && s !in Positive(Forced(f0, forced), job.elems) ==> l2[s] == l1[s]
    requires Untouched(job.order, |job.order|, l2, dl)
    requires forall s :: 0 <= s < job.elems ==> (Seen(job.order, |job.order|, s) <==> s in Positive(Forced(f0, forced), job.elems))
    requires forall s :: 0 <= s < job.n ==> (lens[s] > 0 <==> job.freq[s] > 0)
    requires forall s :: 0 <= s < job.n && lens[s] > 0 ==> dl[s] == lens[s]
    ensures LensStored(dl, job.elems, lens)
  {
    hide Seen, Dummies, Forced;
    forall s | 0 <= s < job.elems && (s < job.n ==> lens[s] == 0) ensures dl[s] == 0 {
      ForcedAre(f0, forced, s);
    }
  }

  lemma ForcedSymbols(f0: seq<nat>, forced: seq<nat>, elems: nat, len0: nat, lens: seq<nat>, bl: seq<nat>, heap: seq<nat>, depth: seq<nat>, len: nat)
    requires 0 < |lens| <= elems <= |f0| && 3 <= elems && Dummies(f0, forced) && ValidLens(lens) && Complete(lens) && Tally(bl, lens)
    requires Collected(Forced(f0, forced), heap, depth, elems, len, |lens| - 1)
    requires len0 == Used(f0, elems) && len == (if len0 < 2 then 2 else len0) && len == len0 + |forced|
    requires forall s :: 0 <= s < |lens| ==> (lens[s] > 0 <==> Forced(f0, forced)[s] > 0)
    ensures RightSymbols(f0, elems, lens)
    ensures forall i :: 0 <= i < |forced| ==> forced[i] < |lens| && lens[forced[i]] == 1
    ensures Weights(f0, lens) == Forced(f0, forced)[..|lens|]
  {
    hide Dummies, Forced, Complete, Tally, Used, Positive, Roots;
    var f1 := Forced(f0, forced);
    UsedAll(f1, lens, elems);
    forall s | 0 <= s < elems ensures (s in forced || f1[s] == f0[s]) && (s in forced ==> f1[s] == 1 && f0[s] == 0 && s < 3) {
      ForcedAre(f0, forced, s);
    }
    forall s | 0 <= s < |lens| && s in forced ensures lens[s] == 1 { TwoSymbols(bl, lens, s); }
    DummiesRange(f0, forced);
    forall i | 0 <= i < |forced| ensures forced[i] < |lens| && lens[forced[i]] == 1 {
      ForcedAre(f0, forced, forced[i]);
    }
  }

  lemma {:induction false} DummiesRange(f0: seq<nat>, forced: seq<nat>)
    requires Dummies(f0, forced)
    ensures forall i :: 0 <= i < |forced| ==> forced[i] < 3 && forced[i] < |f0|
    decreases |forced|
  {
    if forced != [] {
      var k := |forced| - 1;
      DummiesRange(f0, forced[..k]);
      forall i | 0 <= i < |forced| ensures forced[i] < 3 && forced[i] < |f0| { assert i < k ==> forced[..k][i] == forced[i]; }
    }
  }

  lemma {:induction false} UsedAll(f: seq<nat>, lens: seq<nat>, elems: nat)
    requires |lens| <= elems <= |f|
    requires forall s :: 0 <= s < |lens| ==> (lens[s] > 0 <==> f[s] > 0)
    requires forall s :: |lens| <= s < elems ==> f[s] == 0
    ensures Used(lens, |lens|) == Used(f, elems)
    decreases elems
  {
    if |lens| < elems { UsedAll(f, lens, elems - 1); } else { UsedSame(lens, f, elems); }
  }

  /** The forced symbols' bits were taken off in advance. */
  lemma FinalCost(job: Job, f0: seq<nat>, forced: seq<nat>, lens: seq<nat>, extra: seq<nat>, slens: seq<nat>)
    requires |lens| == job.n <= |f0| && job.n <= |extra| == |slens| && Dummies(f0, forced)
    requires job.freq == Forced(f0, forced)[..job.n] && job.extra == extra[..job.n] && job.slens == slens[..job.n]
    requires 3 <= |extra| && extra[0] == extra[1] == extra[2] == 0
    requires forall i :: 0 <= i < |forced| ==> forced[i] < |lens| && lens[forced[i]] == 1
    ensures Cost(job.freq, lens, lens, job.extra, job.n) == Cost(f0, lens, lens, extra, job.n) + |forced|
    ensures Cost(job.freq, lens, job.slens, job.extra, job.n) == Cost(f0, lens, slens, extra, job.n) + Total(forced, slens)
  {
    hide Cost, Total, Dummies, Forced;
    DummiesRange(f0, forced);
    var f1, n := Forced(f0, forced), job.n;
    forall i | 0 <= i < |forced| ensures extra[forced[i]] == 0 {
      assert forced[i] == 0 || forced[i] == 1 || forced[i] == 2;
    }
    CostSame(job.freq, f1, lens, lens, lens, job.extra, extra, n);
    CostSame(job.freq, f1, lens, job.slens, slens, job.extra, extra, n);
    CostForced(f0, forced, lens, lens, extra, n);
    CostForced(f0, forced, lens, slens, extra, n);
    TotalOnes(forced, lens);
  }

  /** The sum of the frequencies, over all elements or up to the last symbol. */
  lemma SameTotal(w: seq<nat>, n: nat, elems: nat)
    requires n <= elems <= |w| && forall s :: n <= s < elems ==> w[s] == 0
    ensures Total(Syms(w, elems), w) == Total(Syms(w[..n], n), w[..n])
  {
    hide Total;
    SymsEnd(w, n, elems);
    SymsSame(w, w[..n], n);
    TotalSame(Syms(w, elems), w, w[..n]);
  }

  lemma GreedilyHeavy(order: seq<nat>, list: seq<nat>, w0: seq<nat>, fc: seq<nat>, elems: nat, joins: nat)
    requires Greedily(order, list, w0, fc, elems, joins)
    ensures HeavyFirst(order, fc)
  {
  }

  /** The lengths are the depths unless a leaf is too deep. */
  lemma BestEnd(job: Job, dl: seq<nat>, d: seq<nat>, f0: seq<nat>, lens: seq<nat>)
    requires GoodJob(job, dl) && |lens| == job.n <= |f0| && job.n <= |d| && Depths(job.order, d, job.elems, job.joins, |job.order|)
    requires SameSymbols(job) && forall s :: 0 <= s < job.n ==> (lens[s] > 0 <==> job.freq[s] > 0)
    requires !TooDeep(job.order, d, job.m, |job.order|) ==> AtDepths(job.order, d, lens)
    requires Optimal(Weights(f0, lens), d[..job.n])
    ensures BestLengths(f0, lens, job.m, d[..job.n])
  {
    hide Depths, Optimal, Weights, TreeOrder, Seen;
    if forall s :: 0 <= s < |lens| && lens[s] > 0 ==> d[..job.n][s] <= job.m {
      forall i | 0 <= i < |job.order| && job.order[i] < job.elems ensures job.order[i] < |d| && d[job.order[i]] <= job.m {
        SeenAt(job.order, i);
        assert d[..job.n][job.order[i]] == d[job.order[i]];
      }
      forall i | 0 <= i < |job.order| ensures job.order[i] < |d| && d[job.order[i]] <= job.m {
        LeavesDeepest(job.order, dl, d, job.elems, job.joins, job.m, i);
      }
      forall s | 0 <= s < |lens| && lens[s] > 0 ensures lens[s] == d[..job.n][s] {
        SeenFound(job.order, s);
      }
    }
  }

  lemma SeenFound(order: seq<nat>, s: nat)
    requires Seen(order, |order|, s)
    ensures exists i :: 0 <= i < |order| && order[i] == s
  {
  }

  /**
    build_tree: from frequencies to a complete prefix code of limited lengths.
    The lengths go to dl and the codes, bit-reversed, to fc; opt and stat are
    what is added to opt_len and static_len.
   */
  method BuildTree(fc: array<nat>, dl: array<nat>, heap: array<nat>, depth: array<nat>, bl: array<nat>,
                   elems: nat, m: nat, extra: seq<nat>, slens: seq<nat>)
    returns (maxCode: nat, opt: int, stat: int, ghost lens: seq<nat>, ghost best: seq<nat>)
    requires fc != dl && fc != heap && fc != depth && fc != bl && dl != heap && dl != depth && dl != bl
    requires heap != depth && heap != bl && depth != bl
    requires 3 <= elems && fc.Length == dl.Length >= 2 * elems && heap.Length > 2 * elems && depth.Length >= 2 * elems
    requires bl.Length == MAXBITS + 1 && 1 <= m <= MAXBITS && |extra| == |slens| == elems
    requires extra[0] == extra[1] == extra[2] == 0
    requires forall s :: 0 <= s < depth.Length ==> depth[s] < 256
    requires Used(fc[..], elems) <= Pow2(m)
    modifies fc, dl, heap, depth, bl
    ensures maxCode < elems && |lens| == maxCode + 1 && LensStored(dl[..], elems, lens)
    ensures forall s :: 0 <= s < |lens| ==> lens[s] <= m
    ensures Prefix(lens) && Complete(lens) && Tally(bl[..], lens)
    ensures RightSymbols(old(fc[..]), elems, lens)
    ensures forall s :: 0 <= s < |lens| && lens[s] > 0 ==> fc[s] == StreamCode(lens, s)
    ensures opt == Cost(old(fc[..]), lens, lens, extra, |lens|)
    ensures stat == Cost(old(fc[..]), lens, slens, extra, |lens|)
    ensures var w := Weights(old(fc[..]), lens);
            Total(Syms(w, |w|), w) < 0x1_0000 ==> BestLengths(old(fc[..]), lens, m, best) && Graded(w, lens)
  {
    hide Collected, Dummies, Forced, Total, Prefix, Complete, Tally, RightSymbols, BestLengths, Seen, Cost, Used, HeavyFirst, Graded,
         LongerLast,
         StreamCode, Weights, Syms, Keyed, Keys, Ordered, Rearranged, Grown, Greedily, Ready, GoodJob, SameSymbols,
         Untouched, Depths, TooDeep, AtDepths, Positive, Roots, Pow2;
    ghost var f0 := fc[..];
    var len, max := Collect(fc[..], dl, heap, depth, elems);
    CollectedFacts(f0, heap[..], depth[..], elems, len, max);
    PowAtLeastTwo(m);
    ghost var forced;
    ghost var len0 := len;
    len, max, opt, stat, forced := Force(fc, heap, depth, len, max, elems, slens);
    ghost var f1 := fc[..];
    ghost var h1, dp1 := heap[..], depth[..];
    CollectedKeyed(f1, h1, dp1, elems, len, max);
    CollectedFacts(f1, h1, dp1, elems, len, max);
    maxCode := max;
    Heapify(heap, len, fc[..], depth[..]);
    ReadyStart(f1, h1, heap[..], depth[..], dl[..], elems, len, max);
    ghost var l1 := dl[..];
    var order, joins := JoinAll(heap, fc, dl, depth, len, elems, Positive(f1, elems), Syms(f1, elems));
    ghost var l2 := dl[..];
    var n := maxCode + 1;
    var job := Job(order, elems, joins, n, m, fc[..n], extra[..n], slens[..n]);
    JobReady(job, f1, fc[..], h1, dp1, l2, len, extra, slens);
    ghost var f2 := fc[..];
    var addOpt, addStat;
    ghost var d;
    addOpt, addStat, lens, d := GenBitlen(job, dl, bl);
    best := d[..n];
    GrownSeen(order, l2, f2, Positive(f1, elems), elems, joins);
    StoredLens(job, f0, forced, h1, dp1, len, l1, l2, dl[..], lens);
    ForcedSymbols(f0, forced, elems, len0, lens, bl[..], h1, dp1, len);
    FinalCost(job, f0, forced, lens, extra, slens);
    opt, stat := opt + addOpt, stat + addStat;
    if Total(Syms(Weights(f0, lens), n), Weights(f0, lens)) < 0x1_0000 {
      SameTotal(f1, n, elems);
      DepthsOptimal(order, l2, f2, elems, joins, f1, d, n, f1[..n]);
      BestEnd(job, l2, d, f0, lens);
      GreedilyHeavy(order, Syms(f1, elems), f1, f2, elems, joins);
      GradedEnd(job, d, f2, lens);
    }
    GenCodes.GenCodes(fc, dl[..n], bl[..]);
  }
}
