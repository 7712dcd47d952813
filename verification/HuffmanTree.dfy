/**
  The loop of build_tree in deps/zlib/trees.c that joins the two least frequent
  nodes: what each turn keeps of heap, forest and cost.  The unions Freq/Code and
  Dad/Len of deps/zlib/deflate.h are the single arrays fc and dl.
 */
module HuffmanTree {
  import opened Bits
  import opened BitLengths
  import opened HuffmanHeap
  import opened HuffmanOptimal

  // ----- the forest while nodes are joined ------------------------------------------------------

  /** Every node made so far, once: the leaves and the internal nodes elems .. elems + joins - 1. */
  ghost function Nodes(leaves: set<nat>, elems: nat, joins: nat): multiset<nat> {
    if joins == 0 then multiset(leaves) else
      var node: nat := elems + joins - 1;
      Nodes(leaves, elems, joins - 1) + multiset{node}
  }

  ghost predicate Leafy(leaves: set<nat>, elems: nat) {
    forall x :: x in leaves ==> x < elems
  }

  /** Sons of internal node elems + j stand in pairs at the end of the array; frequencies are 16-bit numbers. */
  ghost predicate PairOk(heap: seq<nat>, dl: seq<nat>, fc: seq<nat>, elems: nat, j: nat)
    requires 2 * j + 2 <= |heap|
  {
    var a, b := heap[|heap| - 1 - 2 * j], heap[|heap| - 2 - 2 * j];
    && a < |dl| && b < |dl| && dl[a] == dl[b] == elems + j
    && elems + j < |fc| && a < |fc| && b < |fc| && fc[elems + j] == (fc[a] + fc[b]) % 0x1_0000
  }

  /**
    Roots in heap[1..len], joined nodes in heap[top..], each node once; a joined
    internal node stands before its sons.
   */
  ghost predicate Forest(heap: seq<nat>, len: nat, top: nat, dl: seq<nat>, fc: seq<nat>, leaves: set<nat>, elems: nat, joins: nat) {
    && 1 <= len < top <= |heap| && top == |heap| - 2 * joins
    && multiset(heap[1..len + 1]) + multiset(heap[top..]) == Nodes(leaves, elems, joins)
    && (forall j :: 0 <= j < joins ==> PairOk(heap, dl, fc, elems, j))
    && (forall p :: top <= p < |heap| && elems <= heap[p] < elems + joins ==> p < |heap| - 2 - 2 * (heap[p] - elems))
  }

  lemma {:induction false} NodesOnce(leaves: set<nat>, elems: nat, joins: nat, x: nat)
    requires Leafy(leaves, elems)
    ensures Nodes(leaves, elems, joins)[x] == if x in leaves || elems <= x < elems + joins then 1 else 0
  {
    if joins > 0 { NodesOnce(leaves, elems, joins - 1, x); }
  }

  lemma SliceMembers(s: seq<nat>, lo: nat, hi: nat, i: nat)
    requires lo <= i < hi <= |s|
    ensures s[i] in multiset(s[lo..hi])
  {
    assert s[i] == s[lo..hi][i - lo];
  }

  /** A list whose elements are all different, by their multiset. */
  lemma {:induction false} OnceIsDistinct(s: seq<nat>)
    requires forall x :: multiset(s)[x] <= 1
    ensures Distinct(s)
  {
    forall i, j | 0 <= i < j < |s| ensures s[i] != s[j] {
      assert s == s[..j] + s[j..];
      assert s[..j][i] == s[i] && s[j..][0] == s[j];
      assert multiset(s)[s[j]] == multiset(s[..j])[s[j]] + multiset(s[j..])[s[j]];
      assert s[i] in multiset(s[..j]) && s[j] in multiset(s[j..]);
      assert multiset(s[j..])[s[j]] >= 1;
    }
  }

  /** A finished forest of one root is a tree in order, as gen_bitlen expects it. */
  lemma ForestIsTree(heap: seq<nat>, top: nat, dl: seq<nat>, fc: seq<nat>, leaves: set<nat>, elems: nat, joins: nat, order: seq<nat>)
    requires Forest(heap, 1, top, dl, fc, leaves, elems, joins) && Leafy(leaves, elems) && joins >= 1
    requires elems + joins <= |dl| && order == [heap[1]] + heap[top..]
    ensures TreeOrder(order, dl, elems, joins)
    ensures forall s :: 0 <= s < elems ==> (Seen(order, |order|, s) <==> s in leaves)
  {
    OrderNodes(heap, top, dl, fc, leaves, elems, joins, order);
    OrderDads(heap, top, dl, fc, leaves, elems, joins, order);
    OrderBefore(heap, top, dl, fc, leaves, elems, joins, order);
    forall s | 0 <= s < elems ensures Seen(order, |order|, s) <==> s in leaves {
      NodesOnce(leaves, elems, joins, s);
      assert s in multiset(order) <==> s in order;
    }
  }

  lemma OrderNodes(heap: seq<nat>, top: nat, dl: seq<nat>, fc: seq<nat>, leaves: set<nat>, elems: nat, joins: nat, order: seq<nat>)
    requires Forest(heap, 1, top, dl, fc, leaves, elems, joins) && Leafy(leaves, elems) && joins >= 1
    requires order == [heap[1]] + heap[top..]
    ensures multiset(order) == Nodes(leaves, elems, joins) && Distinct(order) && |order| == 2 * joins + 1
    ensures forall i :: 0 <= i < |order| ==> order[i] < elems + joins
    ensures order[0] == elems + joins - 1
  {
    assert heap[1..2] == [heap[1]];
    assert multiset(order) == multiset(heap[1..2]) + multiset(heap[top..]);
    forall x ensures multiset(order)[x] <= 1 { NodesOnce(leaves, elems, joins, x); }
    OnceIsDistinct(order);
    forall i | 0 <= i < |order| ensures order[i] < elems + joins {
      assert order[i] in multiset(order);
      NodesOnce(leaves, elems, joins, order[i]);
    }
    NodesOnce(leaves, elems, joins, elems + joins - 1);
    assert elems + joins - 1 in multiset(order);
    assert forall k :: 1 <= k < |order| ==> order[k] == heap[top + k - 1];
    var i :| 0 <= i < |order| && order[i] == elems + joins - 1;
  }

  lemma OrderDads(heap: seq<nat>, top: nat, dl: seq<nat>, fc: seq<nat>, leaves: set<nat>, elems: nat, joins: nat, order: seq<nat>)
    requires Forest(heap, 1, top, dl, fc, leaves, elems, joins) && joins >= 1
    requires order == [heap[1]] + heap[top..]
    ensures forall i :: 1 <= i < |order| ==> order[i] < |dl| && dl[order[i]] == DadAt(elems, joins, i)
  {
    forall i | 1 <= i < |order| ensures order[i] < |dl| && dl[order[i]] == DadAt(elems, joins, i) {
      var j := joins - 1 - (i - 1) / 2;
      assert PairOk(heap, dl, fc, elems, j);
      assert order[i] == heap[top + i - 1];
    }
  }

  lemma OrderBefore(heap: seq<nat>, top: nat, dl: seq<nat>, fc: seq<nat>, leaves: set<nat>, elems: nat, joins: nat, order: seq<nat>)
    requires Forest(heap, 1, top, dl, fc, leaves, elems, joins) && Leafy(leaves, elems) && joins >= 1
    requires order == [heap[1]] + heap[top..] && multiset(order) == Nodes(leaves, elems, joins)
    ensures forall j :: 0 <= j < joins ==> BeforeSons(order, elems, joins, j)
  {
    forall j | 0 <= j < joins ensures BeforeSons(order, elems, joins, j) {
      NodesOnce(leaves, elems, joins, elems + j);
      assert elems + j in multiset(order);
      var i :| 0 <= i < |order| && order[i] == elems + j;
      if i > 0 { assert heap[top + i - 1] == elems + j; }
    }
  }

  // ----- one join ------------------------------------------------------------------------------

  /** The roots of the forest: the nodes in the heap. */
  function Roots(heap: seq<nat>, len: nat): seq<nat>
    requires len < |heap|
  {
    heap[1..len + 1]
  }

  lemma TakeFirst(heap: seq<nat>, len: nat)
    requires 2 <= len < |heap|
    ensures multiset(Roots(heap[1 := heap[len]], len - 1)) + multiset{heap[1]} == multiset(Roots(heap, len))
  {
    var after := heap[1 := heap[len]];
    assert Roots(heap, len) == [heap[1]] + heap[2..len] + [heap[len]];
    assert Roots(after, len - 1) == [heap[len]] + heap[2..len];
  }

  lemma PutFirst(heap: seq<nat>, len: nat, x: nat)
    requires 1 <= len < |heap|
    ensures multiset(Roots(heap[1 := x], len)) + multiset{heap[1]} == multiset(Roots(heap, len)) + multiset{x}
  {
    assert Roots(heap, len) == [heap[1]] + heap[2..len + 1];
    assert Roots(heap[1 := x], len) == [x] + heap[2..len + 1];
  }

  /** With another node in front, the heap is in order but for its root. */
  lemma OpenAtRoot(a: seq<nat>, len: nat, b: seq<nat>, len1: nat)
    requires Ordered(a, len, 1) && 1 <= len1 <= len < |a| == |b|
    requires forall i :: 2 <= i <= len1 ==> b[i] == a[i]
    ensures Hole(b, len1, 1, 1)
  {
    forall i | 1 <= i && 2 * i <= len1 && 0 < i && i != 1 ensures SonsOk(b, len1, i) { assert SonsOk(a, len, i); }
  }

  /** A node is in the heap or joined, and not both. */
  lemma RootNotJoined(heap: seq<nat>, len: nat, top: nat, dl: seq<nat>, fc: seq<nat>, leaves: set<nat>, elems: nat, joins: nat, x: nat)
    requires Forest(heap, len, top, dl, fc, leaves, elems, joins) && Leafy(leaves, elems)
    requires x in multiset(Roots(heap, len))
    ensures x !in multiset(heap[top..]) && (x in leaves || elems <= x < elems + joins) && x < elems + joins
    ensures multiset(Roots(heap, len))[x] == 1
  {
    NodesOnce(leaves, elems, joins, x);
    assert (multiset(Roots(heap, len)) + multiset(heap[top..]))[x] <= 1;
  }

  lemma JoinedNode(heap: seq<nat>, len: nat, top: nat, dl: seq<nat>, fc: seq<nat>, leaves: set<nat>, elems: nat, joins: nat, p: nat)
    requires Forest(heap, len, top, dl, fc, leaves, elems, joins) && Leafy(leaves, elems)
    requires top <= p < |heap|
    ensures heap[p] < elems + joins && heap[p] !in multiset(Roots(heap, len))
  {
    SliceMembers(heap, top, |heap|, p);
    assert heap[top..|heap|] == heap[top..];
    NodesOnce(leaves, elems, joins, heap[p]);
    assert (multiset(Roots(heap, len)) + multiset(heap[top..]))[heap[p]] <= 1;
  }

  lemma RootsDistinct(heap: seq<nat>, len: nat, top: nat, dl: seq<nat>, fc: seq<nat>, leaves: set<nat>, elems: nat, joins: nat)
    requires Forest(heap, len, top, dl, fc, leaves, elems, joins) && Leafy(leaves, elems)
    ensures Distinct(Roots(heap, len))
  {
    forall x ensures multiset(Roots(heap, len))[x] <= 1 { NodesOnce(leaves, elems, joins, x); }
    OnceIsDistinct(Roots(heap, len));
  }

  /** The heap after n and m are joined into `node`, before it is put in order again. */
  ghost predicate JoinMade(h0: seq<nat>, h1: seq<nat>, len: nat, top: nat, n: nat, m: nat, node: nat) {
    && 2 <= len < top <= |h0| == |h1| && len + 1 < top
    && multiset(Roots(h1, len - 1)) + multiset{n, m} == multiset(Roots(h0, len)) + multiset{node}
    && h1[top - 1] == n && h1[top - 2] == m
    && h1[top..] == h0[top..]
  }

  lemma JoinKeepsNodes(h0: seq<nat>, h1: seq<nat>, len: nat, top: nat, n: nat, m: nat, node: nat,
                       leaves: set<nat>, elems: nat, joins: nat)
    requires JoinMade(h0, h1, len, top, n, m, node) && node == elems + joins
    requires multiset(Roots(h0, len)) + multiset(h0[top..]) == Nodes(leaves, elems, joins)
    ensures multiset(Roots(h1, len - 1)) + multiset(h1[top - 2..]) == Nodes(leaves, elems, joins + 1)
  {
    hide Nodes, Roots;
    NodesNext(leaves, elems, joins, node);
    TailGrows(h1, top, n, m);
    var pair: multiset<nat>, one: multiset<nat>, t := multiset{n, m}, multiset{node}, multiset(h1[top..]);
    var r1, r0 := multiset(Roots(h1, len - 1)), multiset(Roots(h0, len));
    Regroup(r1, pair, t, r0, one);
  }

  lemma NodesNext(leaves: set<nat>, elems: nat, joins: nat, node: nat)
    requires node == elems + joins
    ensures Nodes(leaves, elems, joins + 1) == Nodes(leaves, elems, joins) + multiset{node}
  {
  }

  lemma TailGrows(h: seq<nat>, top: nat, n: nat, m: nat)
    requires 2 <= top <= |h| && h[top - 1] == n && h[top - 2] == m
    ensures multiset(h[top - 2..]) == multiset{n, m} + multiset(h[top..])
  {
    assert h[top - 2..] == [m] + ([n] + h[top..]);
  }

  lemma Regroup(r1: multiset<nat>, pair: multiset<nat>, t: multiset<nat>, r0: multiset<nat>, node: multiset<nat>)
    requires r1 + pair == r0 + node
    ensures r1 + (pair + t) == (r0 + t) + node
  {
    assert r1 + (pair + t) == (r1 + pair) + t;
    assert (r0 + node) + t == (r0 + t) + node;
  }

  lemma JoinKeepsForest(h0: seq<nat>, h1: seq<nat>, len: nat, top: nat, dl: seq<nat>, fc: seq<nat>,
                        leaves: set<nat>, elems: nat, joins: nat, n: nat, m: nat, node: nat)
    requires Forest(h0, len, top, dl, fc, leaves, elems, joins) && Leafy(leaves, elems)
    requires JoinMade(h0, h1, len, top, n, m, node) && node == elems + joins < |fc| && node < |dl|
    requires n in multiset(Roots(h0, len)) && m in multiset(Roots(h0, len))
    ensures n < node && m < node
    ensures Forest(h1, len - 1, top - 2, dl[n := node][m := node], fc[node := (fc[n] + fc[m]) % 0x1_0000],
                   leaves, elems, joins + 1)
  {
    hide JoinMade;
    RootNotJoined(h0, len, top, dl, fc, leaves, elems, joins, n);
    RootNotJoined(h0, len, top, dl, fc, leaves, elems, joins, m);
    JoinKeepsNodes(h0, h1, len, top, n, m, node, leaves, elems, joins);
    var dl1, fc1, j1 := dl[n := node][m := node], fc[node := (fc[n] + fc[m]) % 0x1_0000], joins + 1;
    JoinSizes(h0, h1, len, top, n, m, node);
    forall j | 0 <= j < j1 ensures PairOk(h1, dl1, fc1, elems, j) {
      if j < joins {
        JoinKeepsPair(h0, h1, len, top, dl, fc, leaves, elems, joins, n, m, node, j);
      } else {
        JoinPair(h0, h1, len, top, dl, fc, joins, n, m, node, elems);
      }
    }
    forall p | top - 2 <= p < |h1| && elems <= h1[p] < elems + j1 ensures p < |h1| - 2 - 2 * (h1[p] - elems) {
      if p >= top { JoinedNode(h0, len, top, dl, fc, leaves, elems, joins, p); JoinTail(h0, h1, len, top, n, m, node, p); }
    }
  }

  lemma JoinSizes(h0: seq<nat>, h1: seq<nat>, len: nat, top: nat, n: nat, m: nat, node: nat)
    requires JoinMade(h0, h1, len, top, n, m, node)
    ensures 2 <= len < top <= |h0| == |h1| && len + 1 < top && h1[top - 1] == n && h1[top - 2] == m
    ensures h1[top..] == h0[top..]
  {
  }

  lemma JoinTail(h0: seq<nat>, h1: seq<nat>, len: nat, top: nat, n: nat, m: nat, node: nat, p: nat)
    requires JoinMade(h0, h1, len, top, n, m, node) && top <= p < |h0|
    ensures h1[p] == h0[p]
  {
    assert h1[p] == h1[top..][p - top];
    assert h0[p] == h0[top..][p - top];
  }

  lemma JoinKeepsPair(h0: seq<nat>, h1: seq<nat>, len: nat, top: nat, dl: seq<nat>, fc: seq<nat>,
                      leaves: set<nat>, elems: nat, joins: nat, n: nat, m: nat, node: nat, j: nat)
    requires Forest(h0, len, top, dl, fc, leaves, elems, joins) && Leafy(leaves, elems)
    requires JoinMade(h0, h1, len, top, n, m, node) && node == elems + joins < |fc| && node < |dl|
    requires n in multiset(Roots(h0, len)) && m in multiset(Roots(h0, len)) && n < node && m < node && j < joins
    ensures PairOk(h1, dl[n := node][m := node], fc[node := (fc[n] + fc[m]) % 0x1_0000], elems, j)
  {
    hide JoinMade;
    JoinSizes(h0, h1, len, top, n, m, node);
    assert PairOk(h0, dl, fc, elems, j);
    var p := |h0| - 2 - 2 * j;
    JoinedNode(h0, len, top, dl, fc, leaves, elems, joins, p);
    JoinedNode(h0, len, top, dl, fc, leaves, elems, joins, p + 1);
    JoinTail(h0, h1, len, top, n, m, node, p);
    JoinTail(h0, h1, len, top, n, m, node, p + 1);
  }

  lemma JoinPair(h0: seq<nat>, h1: seq<nat>, len: nat, top: nat, dl: seq<nat>, fc: seq<nat>, joins: nat, n: nat, m: nat, node: nat, elems: nat)
    requires JoinMade(h0, h1, len, top, n, m, node) && top == |h0| - 2 * joins && node == elems + joins < |fc| && node < |dl|
    requires n < node && m < node
    ensures PairOk(h1, dl[n := node][m := node], fc[node := (fc[n] + fc[m]) % 0x1_0000], elems, joins)
  {
  }

  /** Between joins: a forest whose roots are a heap. */
  ghost predicate Ready(heap: seq<nat>, len: nat, top: nat, dl: seq<nat>, fc: seq<nat>, depth: seq<nat>,
                        leaves: set<nat>, elems: nat, joins: nat) {
    && Forest(heap, len, top, dl, fc, leaves, elems, joins) && Leafy(leaves, elems)
    && Keyed(heap, len, fc, depth) && Ordered(Keys(heap, fc, depth), len, 1)
  }

  /** The order of frequencies is the first part of the order of keys. */
  lemma KeyIsFrequency(fc: seq<nat>, depth: seq<nat>, a: nat, b: nat)
    requires a < |fc| && b < |fc| && a < |depth| && b < |depth| && depth[a] < 256 && depth[b] < 256
    requires Key(fc, depth, a) <= Key(fc, depth, b)
    ensures fc[a] <= fc[b]
  {
  }

  lemma FirstIsLightest(heap: seq<nat>, len: nat, fc: seq<nat>, depth: seq<nat>, i: nat)
    requires 1 <= i <= len < |heap| && Keyed(heap, len, fc, depth) && Ordered(Keys(heap, fc, depth), len, 1)
    ensures heap[1] < |fc| && heap[i] < |fc| && fc[heap[1]] <= fc[heap[i]]
  {
    RootIsLeast(Keys(heap, fc, depth), len, i);
    KeyIsFrequency(fc, depth, heap[1], heap[i]);
  }

  /** The heap after its least node was taken, before it is put in order again. */
  lemma TakenIsOpen(heap: seq<nat>, len: nat, fc: seq<nat>, depth: seq<nat>)
    requires 2 <= len < |heap| && Keyed(heap, len, fc, depth) && Ordered(Keys(heap, fc, depth), len, 1)
    ensures Sifting(heap[1 := heap[len]], fc, depth, len - 1, 1, 1)
  {
    var after := heap[1 := heap[len]];
    OpenAtRoot(Keys(heap, fc, depth), len, Keys(after, fc, depth), len - 1);
  }

  lemma TakeLeast(h0: seq<nat>, len: nat, fc: seq<nat>, depth: seq<nat>, h2: seq<nat>)
    requires 2 <= len < |h0| && Keyed(h0, len, fc, depth) && Ordered(Keys(h0, fc, depth), len, 1)
    requires Rearranged(h0[1 := h0[len]], h2, 1, len - 1) && Distinct(Roots(h0, len))
    requires Keyed(h2, len - 1, fc, depth) && Ordered(Keys(h2, fc, depth), len - 1, 1)
    ensures multiset(Roots(h2, len - 1)) + multiset{h0[1]} == multiset(Roots(h0, len))
    ensures TwoLightest(Roots(h0, len), fc, h0[1], h2[1])
    ensures forall i :: len <= i < |h0| ==> h2[i] == h0[i]
  {
    hide Keyed, Ordered, Keys;
    TakeFirst(h0, len);
    var n, m := h0[1], h2[1];
    var r0, r2 := Roots(h0, len), Roots(h2, len - 1);
    SliceMembers(h2, 1, len, 1);
    assert r0[0] == n;
    TakenElsewhere(r0, r2, n);
    assert m in multiset(r0);
    LeastAmong(h0, len, fc, depth, m);
    forall i | 0 <= i < |r0| && r0[i] != n && r0[i] != m ensures r0[i] < |fc| && fc[m] <= fc[r0[i]] {
      InRest(r0, r2, n, r0[i]);
      LeastAmong(h2, len - 1, fc, depth, r0[i]);
    }
  }

  lemma InRest(r0: seq<nat>, r2: seq<nat>, n: nat, x: nat)
    requires multiset(r2) + multiset{n} == multiset(r0) && x in r0 && x != n
    ensures x in r2
  {
    assert x in multiset(r0);
    assert x in multiset(r2);
  }

  lemma TakenElsewhere(r0: seq<nat>, r2: seq<nat>, n: nat)
    requires multiset(r2) + multiset{n} == multiset(r0) && Distinct(r0) && |r0| > 0 && r0[0] == n
    ensures n !in r2
  {
    assert r0 == [n] + r0[1..];
    assert n !in r0[1..];
    assert multiset(r0) == multiset{n} + multiset(r0[1..]);
    assert multiset(r0)[n] == 1 && multiset(r2)[n] == 0;
  }

  lemma LeastAmong(heap: seq<nat>, len: nat, fc: seq<nat>, depth: seq<nat>, x: nat)
    requires 1 <= len < |heap| && Keyed(heap, len, fc, depth) && Ordered(Keys(heap, fc, depth), len, 1)
    requires x in Roots(heap, len)
    ensures heap[1] < |fc| && x < |fc| && fc[heap[1]] <= fc[x]
  {
    hide Keyed, Ordered, Keys;
    var i :| 0 <= i < |Roots(heap, len)| && Roots(heap, len)[i] == x;
    FirstIsLightest(heap, len, fc, depth, i + 1);
  }

  /** With the new node in front the heap is again open at its root only. */
  lemma PlacedIsOpen(h2: seq<nat>, len: nat, fc: seq<nat>, depth: seq<nat>, h3: seq<nat>, fc1: seq<nat>, depth1: seq<nat>, node: nat)
    requires 1 <= len < |h2| == |h3| && Keyed(h2, len, fc, depth) && Ordered(Keys(h2, fc, depth), len, 1)
    requires |fc1| == |fc| && |depth1| == |depth| && node < |fc| && node < |depth| && node !in Roots(h2, len)
    requires forall x :: 0 <= x < |fc| && x != node ==> fc1[x] == fc[x]
    requires forall x :: 0 <= x < |depth| && x != node ==> depth1[x] == depth[x]
    requires depth1[node] < 256
    requires h3[1] == node && forall i :: 2 <= i <= len ==> h3[i] == h2[i]
    ensures Sifting(h3, fc1, depth1, len, 1, 1)
  {
    forall i | 2 <= i <= len ensures h3[i] != node && Keys(h3, fc1, depth1)[i] == Keys(h2, fc, depth)[i] {
      assert Roots(h2, len)[i - 1] == h2[i];
    }
    OpenAtRoot(Keys(h2, fc, depth), len, Keys(h3, fc1, depth1), len);
  }

  lemma JoinIsMade(h0: seq<nat>, h2: seq<nat>, h3: seq<nat>, h4: seq<nat>, len: nat, top: nat, n: nat, m: nat, node: nat)
    requires 2 <= len && len + 1 < top <= |h0| == |h2|
    requires multiset(Roots(h2, len - 1)) + multiset{n} == multiset(Roots(h0, len)) && h2[1] == m
    requires forall i :: len <= i < |h0| ==> h2[i] == h0[i]
    requires h3 == SetJoin(h2, top, n, m, node) && Rearranged(h3, h4, 1, len - 1)
    ensures JoinMade(h0, h4, len, top, n, m, node)
  {
    PutFirst(h2, len - 1, node);
    assert Roots(h3, len - 1) == Roots(h2[1 := node], len - 1);
    var r4, r2 := multiset(Roots(h4, len - 1)), multiset(Roots(h2, len - 1));
    assert r4 + multiset{m} == r2 + multiset{node};
    Pairs(r4, r2, multiset(Roots(h0, len)), n, m, node);
  }

  lemma Pairs(r4: multiset<nat>, r2: multiset<nat>, r0: multiset<nat>, n: nat, m: nat, node: nat)
    requires r4 + multiset{m} == r2 + multiset{node} && r2 + multiset{n} == r0
    ensures r4 + multiset{n, m} == r0 + multiset{node}
  {
    assert r4 + multiset{n, m} == (r4 + multiset{m}) + multiset{n};
    assert (r2 + multiset{node}) + multiset{n} == (r2 + multiset{n}) + multiset{node};
  }

  // ----- the lower bound ---------------------------------------------------------------------------

  /** Nothing of the frequencies was lost, and no prefix code is cheaper than what was joined. */
  ghost predicate Greedy(leaves: seq<nat>, w0: seq<nat>, roots: seq<nat>, fc: seq<nat>, joined: nat) {
    Total(roots, fc) == Total(leaves, w0) && NoCheaper(leaves, w0, roots, fc, joined)
  }

  /** While the frequencies add up to less than 2^16 a join is exact and greedy. */
  lemma GreedyStep(leaves: seq<nat>, w0: seq<nat>, roots: seq<nat>, fc: seq<nat>, joined: nat,
                   n: nat, m: nat, node: nat, after: seq<nat>, fc1: seq<nat>)
    requires Greedy(leaves, w0, roots, fc, joined) && Total(leaves, w0) < 0x1_0000
    requires TwoLightest(roots, fc, n, m) && JoinedList(roots, n, m, node, after) && Distinct(after)
    requires node !in roots && node < |fc| && fc1 == fc[node := (fc[n] + fc[m]) % 0x1_0000]
    ensures fc1[node] == fc[n] + fc[m] && Greedy(leaves, w0, after, fc1, joined + fc1[node])
  {
    hide Total, NoCheaper, Distinct;
    var i :| 0 <= i < |roots| && roots[i] == n;
    var j :| 0 <= j < |roots| && roots[j] == m;
    TotalTwo(roots, fc, i, j);
    assert fc1[node] == fc[n] + fc[m];
    JoinedTotal(roots, fc, n, m, node, after, fc1[node]);
    NoCheaperStep(leaves, w0, roots, fc, joined, n, m, node, after);
  }

  /** One turn of the do-while loop of build_tree. */
  method JoinLeast(heap: array<nat>, fc: array<nat>, dl: array<nat>, depth: array<nat>, len: nat, top: nat, node: nat,
                   ghost leaves: set<nat>, ghost elems: nat, ghost joins: nat,
                   ghost list: seq<nat>, ghost w0: seq<nat>, ghost joined: nat)
    requires heap != fc && heap != dl && heap != depth && fc != dl && fc != depth && dl != depth
    requires Ready(heap[..], len, top, dl[..], fc[..], depth[..], leaves, elems, joins) && 2 <= len && len + 1 < top
    requires node == elems + joins && node < fc.Length && node < dl.Length && node < depth.Length
    requires Total(list, w0) < 0x1_0000 ==> Greedy(list, w0, Roots(heap[..], len), fc[..], joined)
    modifies heap, fc, dl, depth
    ensures Ready(heap[..], len - 1, top - 2, dl[..], fc[..], depth[..], leaves, elems, joins + 1)
    ensures fc[..] == old(fc[..])[node := fc[node]]
    ensures forall x :: 0 <= x < elems && x < dl.Length && x !in leaves ==> dl[x] == old(dl[x])
    ensures heap[top..] == old(heap[top..])
    ensures TwoLightest(Roots(old(heap[..]), len), old(fc[..]), heap[top - 1], heap[top - 2])
    ensures JoinMade(old(heap[..]), heap[..], len, top, heap[top - 1], heap[top - 2], node)
    ensures Total(list, w0) < 0x1_0000 ==> Greedy(list, w0, Roots(heap[..], len - 1), fc[..], joined + fc[node])
    ensures Total(list, w0) < 0x1_0000 ==> fc[node] == At(fc[..], heap[top - 1]) + At(fc[..], heap[top - 2])
  {
    hide Forest, Keyed, Ordered, Keys, Greedy, Rearranged, TwoLightest, Distinct, Total, JoinedList, JoinMade, Roots;
    ghost var h0: seq<nat>, f0: seq<nat>, d0: seq<nat>, l0: seq<nat> := heap[..], fc[..], depth[..], dl[..];
    ReadySizes(h0, len, top, l0, f0, d0, leaves, elems, joins);
    RootsDistinct(h0, len, top, l0, f0, leaves, elems, joins);
    var n := PqRemove(heap, len, fc[..], depth[..]);
    var m := heap[1];
    ghost var h2 := heap[..];
    TwoRoots(h0, len, top, l0, f0, leaves, elems, joins, n, m);
    NotRoot(h0, h2, len, n, node);
    Father(heap, fc, dl, depth, len - 1, top, n, m, node);
    ghost var h4 := heap[..];
    JoinIsMade(h0, h2, SetJoin(h2, top, n, m, node), h4, len, top, n, m, node);
    JoinKeepsForest(h0, h4, len, top, l0, f0, leaves, elems, joins, n, m, node);
    JoinSizes(h0, h4, len, top, n, m, node);
    if Total(list, w0) < 0x1_0000 {
      RootsDistinct(h4, len - 1, top - 2, dl[..], fc[..], leaves, elems, joins + 1);
      JoinIsJoined(h0, h4, len, top, n, m, node);
      GreedyStep(list, w0, Roots(h0, len), f0, joined, n, m, node, Roots(h4, len - 1), fc[..]);
    }
  }

  /** pqremove: take the least node out; the next one comes to the front. */
  method PqRemove(heap: array<nat>, len: nat, fc: seq<nat>, depth: seq<nat>) returns (n: nat)
    requires 2 <= len < heap.Length && Keyed(heap[..], len, fc, depth) && Ordered(Keys(heap[..], fc, depth), len, 1)
    requires Distinct(Roots(heap[..], len))
    modifies heap
    ensures n == old(heap[1])
    ensures Keyed(heap[..], len - 1, fc, depth) && Ordered(Keys(heap[..], fc, depth), len - 1, 1)
    ensures multiset(Roots(heap[..], len - 1)) + multiset{n} == multiset(Roots(old(heap[..]), len))
    ensures TwoLightest(Roots(old(heap[..]), len), fc, n, heap[1])
    ensures forall i :: len <= i < heap.Length ==> heap[i] == old(heap[i])
  {
    hide Keyed, Ordered, Keys, Rearranged, TwoLightest, Distinct, Sifting, Roots;
    ghost var h0: seq<nat> := heap[..];
    n := heap[1];
    heap[1] := heap[len];
    TakenIsOpen(h0, len, fc, depth);
    assert heap[..] == h0[1 := h0[len]];
    PqDownHeap(heap, len - 1, fc, depth, 1);
    TakeLeast(h0, len, fc, depth, heap[..]);
  }

  function SetJoin(heap: seq<nat>, top: nat, n: nat, m: nat, node: nat): seq<nat>
    requires 2 < top <= |heap|
  {
    heap[top - 1 := n][top - 2 := m][1 := node]
  }

  /** Create a new node, father of n and m, and put it into the heap in the place of m. */
  method Father(heap: array<nat>, fc: array<nat>, dl: array<nat>, depth: array<nat>, len: nat, top: nat, n: nat, m: nat, node: nat)
    requires heap != fc && heap != dl && heap != depth && fc != dl && fc != depth && dl != depth
    requires 1 <= len && len + 2 < top <= heap.Length
    requires Keyed(heap[..], len, fc[..], depth[..]) && Ordered(Keys(heap[..], fc[..], depth[..]), len, 1)
    requires node < fc.Length && node < dl.Length && node < depth.Length && n < node && m < node && node !in Roots(heap[..], len)
    modifies heap, fc, dl, depth
    ensures fc[..] == old(fc[..])[node := (old(fc[n]) + old(fc[m])) % 0x1_0000]
    ensures dl[..] == old(dl[..])[n := node][m := node]
    ensures Keyed(heap[..], len, fc[..], depth[..]) && Ordered(Keys(heap[..], fc[..], depth[..]), len, 1)
    ensures Rearranged(SetJoin(old(heap[..]), top, n, m, node), heap[..], 1, len)
  {
    hide Keyed, Ordered, Keys, Rearranged, Sifting, Roots;
    ghost var h2: seq<nat>, f0: seq<nat>, d0: seq<nat> := heap[..], fc[..], depth[..];
    heap[top - 1] := n;
    heap[top - 2] := m;
    fc[node] := (fc[n] + fc[m]) % 0x1_0000;
    depth[node] := ((if depth[n] >= depth[m] then depth[n] else depth[m]) + 1) % 256;
    dl[n] := node;
    dl[m] := node;
    heap[1] := node;
    assert heap[..] == SetJoin(h2, top, n, m, node);
    PlacedIsOpen(h2, len, f0, d0, heap[..], fc[..], depth[..], node);
    PqDownHeap(heap, len, fc[..], depth[..], 1);
  }

  lemma ReadySizes(heap: seq<nat>, len: nat, top: nat, dl: seq<nat>, fc: seq<nat>, depth: seq<nat>,
                   leaves: set<nat>, elems: nat, joins: nat)
    requires Ready(heap, len, top, dl, fc, depth, leaves, elems, joins)
    ensures 1 <= len < top <= |heap| && top == |heap| - 2 * joins && Leafy(leaves, elems)
    ensures heap[1] < |fc|
  {
  }

  lemma JoinIsJoined(h0: seq<nat>, h1: seq<nat>, len: nat, top: nat, n: nat, m: nat, node: nat)
    requires JoinMade(h0, h1, len, top, n, m, node)
    ensures JoinedList(Roots(h0, len), n, m, node, Roots(h1, len - 1))
  {
  }

  lemma NotRoot(h0: seq<nat>, h2: seq<nat>, len: nat, n: nat, node: nat)
    requires 2 <= len < |h0| == |h2|
    requires multiset(Roots(h2, len - 1)) + multiset{n} == multiset(Roots(h0, len)) && node !in Roots(h0, len)
    ensures node !in Roots(h2, len - 1)
  {
    assert multiset(Roots(h0, len))[node] == 0;
    assert multiset(Roots(h2, len - 1))[node] == 0;
  }

  lemma TwoRoots(heap: seq<nat>, len: nat, top: nat, dl: seq<nat>, fc: seq<nat>, leaves: set<nat>, elems: nat, joins: nat, n: nat, m: nat)
    requires Forest(heap, len, top, dl, fc, leaves, elems, joins) && Leafy(leaves, elems)
    requires TwoLightest(Roots(heap, len), fc, n, m)
    ensures n in multiset(Roots(heap, len)) && m in multiset(Roots(heap, len)) && n != m
    ensures n < elems + joins && m < elems + joins && elems + joins !in Roots(heap, len)
    ensures n in leaves || n >= elems
    ensures m in leaves || m >= elems
  {
    RootNotJoined(heap, len, top, dl, fc, leaves, elems, joins, n);
    RootNotJoined(heap, len, top, dl, fc, leaves, elems, joins, m);
    if elems + joins in Roots(heap, len) {
      RootNotJoined(heap, len, top, dl, fc, leaves, elems, joins, elems + joins);
    }
  }
}
