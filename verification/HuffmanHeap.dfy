/**
  The priority queue of deps/zlib/trees.c: nodes in heap[1..len], a father at i
  before its sons at 2i and 2i + 1, ordered by frequency and then by depth.
 */
module HuffmanHeap {

  /** Frequency first, depth as tie breaker: the order that `smaller` compares. */
  function Key(fc: seq<nat>, depth: seq<nat>, n: nat): nat {
    if n < |fc| && n < |depth| then fc[n] * 256 + depth[n] else 0
  }

  /** The nodes in the heap exist; what lies elsewhere in the array does not matter. */
  ghost predicate Keyed(heap: seq<nat>, len: nat, fc: seq<nat>, depth: seq<nat>) {
    && (forall i :: 1 <= i <= len && i < |heap| ==> heap[i] < |fc| && heap[i] < |depth|)
    && (forall n :: 0 <= n < |depth| ==> depth[n] < 256)
  }

  /** smaller(tree, n, m, depth) */
  predicate Smaller(fc: seq<nat>, depth: seq<nat>, n: nat, m: nat)
    requires n < |fc| && n < |depth| && m < |fc| && m < |depth|
  {
    fc[n] < fc[m] || (fc[n] == fc[m] && depth[n] <= depth[m])
  }

  lemma SmallerIsKey(fc: seq<nat>, depth: seq<nat>, n: nat, m: nat)
    requires n < |fc| && n < |depth| && m < |fc| && m < |depth| && depth[n] < 256 && depth[m] < 256
    ensures Smaller(fc, depth, n, m) <==> Key(fc, depth, n) <= Key(fc, depth, m)
  {
  }

  /** Fathers from position k on come before their sons; `keys` are the keys by position. */
  ghost predicate Ordered(keys: seq<nat>, len: nat, k: nat) {
    && 0 < len < |keys|
    && forall i :: k <= i && 2 * i <= len && 0 < i ==> SonsOk(keys, len, i)
  }

  ghost predicate SonsOk(keys: seq<nat>, len: nat, i: nat)
    requires 0 < len < |keys| && 0 < i && 2 * i <= len
  {
    keys[i] <= keys[2 * i] && (2 * i + 1 <= len ==> keys[i] <= keys[2 * i + 1])
  }

  /** Ordered but for the element at position h, which came down from its father's place. */
  ghost predicate Hole(keys: seq<nat>, len: nat, k: nat, h: nat) {
    && 0 < k <= h <= len < |keys|
    && (forall i :: k <= i && 2 * i <= len && 0 < i && i != h ==> SonsOk(keys, len, i))
    && (k < h ==> h / 2 >= k && FatherOk(keys, len, h))
  }

  ghost predicate FatherOk(keys: seq<nat>, len: nat, h: nat)
    requires 1 < h <= len < |keys|
  {
    && (2 * h <= len ==> keys[h / 2] <= keys[2 * h])
    && (2 * h + 1 <= len ==> keys[h / 2] <= keys[2 * h + 1])
  }

  function Swap<T>(s: seq<T>, i: nat, j: nat): seq<T>
    requires i < |s| && j < |s|
  {
    s[i := s[j]][j := s[i]]
  }

  /** Exchanging the element with its smaller son moves the hole down. */
  lemma HoleMoves(keys: seq<nat>, len: nat, k: nat, h: nat, j: nat)
    requires Hole(keys, len, k, h) && (j == 2 * h || j == 2 * h + 1) && j <= len
    requires keys[j] <= keys[h]
    requires keys[j] <= keys[2 * h] && (2 * h + 1 <= len ==> keys[j] <= keys[2 * h + 1])
    ensures Hole(Swap(keys, h, j), len, k, j)
  {
    var after := Swap(keys, h, j);
    forall i | k <= i && 2 * i <= len && 0 < i && i != j ensures SonsOk(after, len, i) {
      if i != h { assert SonsOk(keys, len, i); }
    }
    if 2 * j <= len { assert SonsOk(keys, len, j); }
  }

  lemma HoleCloses(keys: seq<nat>, len: nat, k: nat, h: nat)
    requires Hole(keys, len, k, h)
    requires 2 * h <= len ==> SonsOk(keys, len, h)
    ensures Ordered(keys, len, k)
  {
  }

  /** The first element is the least. */
  lemma {:induction false} RootIsLeast(keys: seq<nat>, len: nat, i: nat)
    requires Ordered(keys, len, 1) && 1 <= i <= len
    ensures keys[1] <= keys[i]
    decreases i
  {
    if i > 1 {
      RootIsLeast(keys, len, i / 2);
      assert SonsOk(keys, len, i / 2);
    }
  }

  // ----- permutations -----------------------------------------------------------------------

  lemma SwapKeeps<T>(s: seq<T>, i: nat, j: nat, lo: nat, hi: nat)
    requires lo <= i < hi <= |s| && lo <= j < hi
    ensures multiset(Swap(s, i, j)[lo..hi]) == multiset(s[lo..hi])
  {
    var t := s[lo..hi];
    var a, b := i - lo, j - lo;
    assert Swap(s, i, j)[lo..hi] == t[a := t[b]][b := t[a]];
    assert multiset(t[a := t[b]]) == multiset(t) - multiset{t[a]} + multiset{t[b]};
    assert multiset(t[a := t[b]][b := t[a]]) == multiset(t[a := t[b]]) - multiset{t[a := t[b]][b]} + multiset{t[a]};
  }

  /** The keys of the nodes, by position. */
  function Keys(heap: seq<nat>, fc: seq<nat>, depth: seq<nat>): (keys: seq<nat>) {
    seq(|heap|, i requires 0 <= i < |heap| => Key(fc, depth, heap[i]))
  }

  lemma KeysSwap(heap: seq<nat>, fc: seq<nat>, depth: seq<nat>, i: nat, j: nat)
    requires i < |heap| && j < |heap|
    ensures Keys(Swap(heap, i, j), fc, depth) == Swap(Keys(heap, fc, depth), i, j)
  {
    var after := Swap(heap, i, j);
    assert forall n :: 0 <= n < |heap| ==> after[n] == (if n == j then heap[i] else if n == i then heap[j] else heap[n]);
  }

  /** Of two sons the smaller is compared: either the father is in place, or that son goes up. */
  lemma SonChosen(view: seq<nat>, fc: seq<nat>, depth: seq<nat>, len: nat, h: nat, j: nat)
    requires Keyed(view, len, fc, depth) && 0 < h && 2 * h <= len < |view|
    requires j == 2 * h || (j == 2 * h + 1 && j <= len)
    requires j == 2 * h + 1 ==> Smaller(fc, depth, view[2 * h + 1], view[2 * h])
    requires j == 2 * h && j < len ==> !Smaller(fc, depth, view[2 * h + 1], view[2 * h])
    ensures var keys := Keys(view, fc, depth);
            && keys[j] <= keys[2 * h] && (2 * h + 1 <= len ==> keys[j] <= keys[2 * h + 1])
            && (Smaller(fc, depth, view[h], view[j]) ==> SonsOk(keys, len, h))
            && (!Smaller(fc, depth, view[h], view[j]) ==> keys[j] <= keys[h])
  {
    if 2 * h + 1 <= len { SmallerIsKey(fc, depth, view[2 * h + 1], view[2 * h]); }
    SmallerIsKey(fc, depth, view[h], view[j]);
  }

  /** b is a with the elements of positions k..len in other places. */
  ghost predicate Rearranged(a: seq<nat>, b: seq<nat>, k: nat, len: nat) {
    && |a| == |b| && 1 <= k <= len < |a|
    && multiset(b[1..len + 1]) == multiset(a[1..len + 1])
    && forall i :: 0 <= i < |a| && (i < k || i > len) ==> b[i] == a[i]
  }

  lemma RearrangedSwap(a: seq<nat>, b: seq<nat>, k: nat, len: nat, i: nat, j: nat)
    requires Rearranged(a, b, k, len) && k <= i <= len && k <= j <= len
    ensures Rearranged(a, Swap(b, i, j), k, len)
  {
    SwapKeeps(b, i, j, 1, len + 1);
  }

  lemma KeyedSwap(heap: seq<nat>, len: nat, fc: seq<nat>, depth: seq<nat>, i: nat, j: nat)
    requires 1 <= i <= len < |heap| && 1 <= j <= len && Keyed(heap, len, fc, depth)
    ensures Keyed(Swap(heap, i, j), len, fc, depth)
    ensures Keys(Swap(heap, i, j), fc, depth) == Swap(Keys(heap, fc, depth), i, j)
  {
    KeysSwap(heap, fc, depth, i, j);
  }

  /** The state of the loop: v is in the hole at h. */
  ghost predicate Sifting(view: seq<nat>, fc: seq<nat>, depth: seq<nat>, len: nat, k: nat, h: nat) {
    Keyed(view, len, fc, depth) && Hole(Keys(view, fc, depth), len, k, h)
  }

  lemma SiftStep(view: seq<nat>, fc: seq<nat>, depth: seq<nat>, len: nat, k: nat, h: nat, j: nat)
    requires Sifting(view, fc, depth, len, k, h) && 2 * h <= len < |view| && 0 < h
    requires j == 2 * h || (j == 2 * h + 1 && j <= len)
    requires j == 2 * h + 1 ==> Smaller(fc, depth, view[2 * h + 1], view[2 * h])
    requires j == 2 * h && j < len ==> !Smaller(fc, depth, view[2 * h + 1], view[2 * h])
    ensures Smaller(fc, depth, view[h], view[j]) ==> Ordered(Keys(view, fc, depth), len, k)
    ensures !Smaller(fc, depth, view[h], view[j]) ==> Sifting(Swap(view, h, j), fc, depth, len, k, j)
  {
    hide Hole, Ordered, Keys, Key;
    SonChosen(view, fc, depth, len, h, j);
    if Smaller(fc, depth, view[h], view[j]) {
      HoleCloses(Keys(view, fc, depth), len, k, h);
    } else {
      HoleRange(Keys(view, fc, depth), len, k, h);
      HoleMoves(Keys(view, fc, depth), len, k, h, j);
      KeyedSwap(view, len, fc, depth, h, j);
    }
  }

  lemma HoleRange(keys: seq<nat>, len: nat, k: nat, h: nat)
    requires Hole(keys, len, k, h)
    ensures 0 < k <= h <= len < |keys|
  {
  }

  /**
    pqdownheap: restore the order by moving the node at k down.  The nodes stay
    the same; only their places in k..len change.
   */
  method PqDownHeap(heap: array<nat>, len: nat, fc: seq<nat>, depth: seq<nat>, k: nat)
    requires 1 <= k <= len < heap.Length && Sifting(heap[..], fc, depth, len, k, k)
    modifies heap
    ensures Keyed(heap[..], len, fc, depth) && Ordered(Keys(heap[..], fc, depth), len, k)
    ensures Rearranged(old(heap[..]), heap[..], k, len)
  {
    hide Hole, Ordered, Keys, Key, Rearranged;
    var v := heap[k];
    var h := k;
    var j := 2 * k;
    ghost var start, view := heap[..], heap[..];             // view: the heap with v in the hole
    RearrangedSame(start, k, len);
    while j <= len
      invariant k <= h <= len && j == 2 * h && len < heap.Length
      invariant |view| == heap.Length && heap[..] == view[h := heap[h]] && view[h] == v
      invariant Sifting(view, fc, depth, len, k, h) && Rearranged(start, view, k, len)
      decreases len - h
    {
      assert forall i :: 0 <= i < heap.Length && i != h ==> heap[i] == view[i];
      if j < len && Smaller(fc, depth, heap[j + 1], heap[j]) {
        j := j + 1;
      }
      SiftStep(view, fc, depth, len, k, h, j);
      if Smaller(fc, depth, v, heap[j]) {
        heap[h] := v;
        assert heap[..] == view;
        return;
      }
      RearrangedSwap(start, view, k, len, h, j);
      ghost var next := Swap(view, h, j);
      heap[h] := heap[j];
      assert heap[..] == next[j := heap[j]];
      view := next;
      h := j;
      j := 2 * j;
    }
    heap[h] := v;
    assert heap[..] == view;
    HoleCloses(Keys(view, fc, depth), len, k, h);
  }

  lemma RearrangedSame(a: seq<nat>, k: nat, len: nat)
    requires 1 <= k <= len < |a|
    ensures Rearranged(a, a, k, len)
  {
  }
}
