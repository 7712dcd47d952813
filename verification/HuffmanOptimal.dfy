/**
  Why joining the two least frequent nodes is optimal: whatever lengths a prefix
  code gives to a list of nodes, there are lengths for the list after the join
  that together with the join cost no more.
 */
module HuffmanOptimal {
  import opened Bits
  import opened BitLengths

  // ----- sums over a list of nodes --------------------------------------------------------

  /** A value for every node, summed over the list. */
  function Total(list: seq<nat>, v: seq<nat>): nat {
    if list == [] then 0
    else Total(list[..|list| - 1], v) + At(v, list[|list| - 1])
  }

  function At(v: seq<nat>, x: nat): nat {
    if x < |v| then v[x] else 0
  }

  lemma {:induction false} TotalSame(list: seq<nat>, v: seq<nat>, u: seq<nat>)
    requires forall i :: 0 <= i < |list| ==> At(v, list[i]) == At(u, list[i])
    ensures Total(list, v) == Total(list, u)
    decreases |list|
  {
    if list != [] {
      var init := list[..|list| - 1];
      assert forall i :: 0 <= i < |init| ==> init[i] == list[i];
      TotalSame(init, v, u);
    }
  }

  lemma {:induction false} TotalRemove(list: seq<nat>, v: seq<nat>, i: nat)
    requires i < |list|
    ensures Total(list, v) == Total(list[..i] + list[i + 1..], v) + At(v, list[i])
    decreases |list|
  {
    var n := |list| - 1;
    if i == n {
      assert list[..i] + list[i + 1..] == list[..n];
    } else {
      TotalRemove(list[..n], v, i);
      var rest := list[..i] + list[i + 1..];
      assert rest[..|rest| - 1] == list[..n][..i] + list[..n][i + 1..];
      assert rest[|rest| - 1] == list[n];
    }
  }

  /** The order of the list does not matter. */
  lemma {:induction false} TotalPermuted(a: seq<nat>, b: seq<nat>, v: seq<nat>)
    requires multiset(a) == multiset(b)
    ensures Total(a, v) == Total(b, v)
    decreases |a|
  {
    SameLength(a, b);
    if a != [] {
      var n := |a| - 1;
      assert a == a[..n] + [a[n]];
      assert a[n] in multiset(b);
      var i :| 0 <= i < |b| && b[i] == a[n];
      var rest := b[..i] + b[i + 1..];
      assert b == b[..i] + [b[i]] + b[i + 1..];
      SameBut(multiset(a[..n]), multiset(rest), a[n]);
      TotalPermuted(a[..n], rest, v);
      TotalRemove(b, v, i);
    }
  }

  lemma SameBut(a: multiset<nat>, b: multiset<nat>, x: nat)
    requires a + multiset{x} == b + multiset{x}
    ensures a == b
  {
    assert a == (a + multiset{x}) - multiset{x};
    assert b == (b + multiset{x}) - multiset{x};
  }

  lemma SameLength(a: seq<nat>, b: seq<nat>)
    requires multiset(a) == multiset(b)
    ensures |a| == |b|
  {
    assert |multiset(a)| == |a|;
    assert |multiset(b)| == |b|;
  }

  lemma {:induction false} TotalUpdate(list: seq<nat>, v: seq<nat>, x: nat, y: nat)
    requires Distinct(list) && x < |v| && x in list
    ensures Total(list, v[x := y]) + v[x] == Total(list, v) + y
    decreases |list|
  {
    var n := |list| - 1;
    if list[n] == x {
      TotalSame(list[..n], v, v[x := y]);
    } else {
      TotalUpdate(list[..n], v, x, y);
    }
  }

  lemma TotalMember(list: seq<nat>, v: seq<nat>, i: nat)
    requires i < |list|
    ensures Total(list, v) >= At(v, list[i])
  {
    TotalRemove(list, v, i);
  }

  lemma TotalTwo(list: seq<nat>, v: seq<nat>, i: nat, j: nat)
    requires i < |list| && j < |list| && i != j
    ensures Total(list, v) >= At(v, list[i]) + At(v, list[j])
  {
    if j < i {
      TotalTwo(list, v, j, i);
    } else {
      TotalRemove(list, v, i);
      var rest := list[..i] + list[i + 1..];
      assert rest[j - 1] == list[j];
      TotalMember(rest, v, j - 1);
    }
  }

  // ----- lengths ------------------------------------------------------------------------------

  /** What each node takes of the code space, in units of 2^-m. */
  function Shares(l: seq<nat>, m: nat): (s: seq<nat>)
    ensures |s| == |l|
  {
    seq(|l|, i requires 0 <= i < |l| => if l[i] <= m then Pow2(m - l[i]) else 0)
  }

  function Costs(w: seq<nat>, l: seq<nat>): (s: seq<nat>)
    requires |w| == |l|
    ensures |s| == |w|
  {
    seq(|w|, i requires 0 <= i < |w| => w[i] * l[i])
  }

  /** Lengths for the nodes of the list that satisfy Kraft's inequality. */
  ghost predicate Good(list: seq<nat>, l: seq<nat>, m: nat) {
    && Distinct(list)
    && (forall i :: 0 <= i < |list| ==> list[i] < |l| && l[list[i]] <= m)
    && Total(list, Shares(l, m)) <= Pow2(m)
  }

  lemma GoodUpdate(list: seq<nat>, l: seq<nat>, m: nat, x: nat, y: nat)
    requires Good(list, l, m) && x in list && x < |l| && y <= m
    ensures Total(list, Shares(l[x := y], m)) + Pow2(m - l[x]) == Total(list, Shares(l, m)) + Pow2(m - y)
  {
    hide Pow2, Total;
    assert Shares(l[x := y], m) == Shares(l, m)[x := Pow2(m - y)];
    TotalUpdate(list, Shares(l, m), x, Pow2(m - y));
  }

  lemma CostUpdate(list: seq<nat>, w: seq<nat>, l: seq<nat>, x: nat, y: nat)
    requires Distinct(list) && x in list && x < |l| == |w|
    ensures Total(list, Costs(w, l[x := y])) + w[x] * l[x] == Total(list, Costs(w, l)) + w[x] * y
  {
    hide Total;
    assert Costs(w, l[x := y]) == Costs(w, l)[x := w[x] * y];
    TotalUpdate(list, Costs(w, l), x, w[x] * y);
  }

  /** Exchanging the lengths of two nodes keeps the shares; giving the longer to the lighter costs no more. */
  lemma Exchange(list: seq<nat>, w: seq<nat>, l: seq<nat>, m: nat, x: nat, y: nat)
    requires Good(list, l, m) && x in list && y in list && x < |l| == |w| && y < |l|
    requires w[x] <= w[y] && l[x] <= l[y]
    ensures Good(list, l[x := l[y]][y := l[x]], m)
    ensures Total(list, Costs(w, l[x := l[y]][y := l[x]])) <= Total(list, Costs(w, l))
    ensures w[x] < w[y] && l[x] < l[y] ==> Total(list, Costs(w, l[x := l[y]][y := l[x]])) < Total(list, Costs(w, l))
  {
    hide Pow2, Total, Costs, Shares;
    if x == y {
      assert l[x := l[y]][y := l[x]] == l;
    } else {
      var k := l[x := l[y]];
      GoodUpdate(list, l, m, x, l[y]);
      CostUpdate(list, w, l, x, l[y]);
      CostUpdate(list, w, k, y, l[x]);
      ExchangeShares(list, l, m, x, y);
      Products(w[x], w[y], l[x], l[y]);
    }
  }

  lemma Products(a: nat, b: nat, p: nat, q: nat)
    requires a <= b && p <= q
    ensures a * q + b * p <= a * p + b * q
    ensures a < b && p < q ==> a * q + b * p < a * p + b * q
  {
    var d, e := b - a, q - p;
    assert b * q - b * p == b * e && a * q - a * p == a * e && b * e - a * e == d * e && d * e >= 0;
  }

  lemma ExchangeShares(list: seq<nat>, l: seq<nat>, m: nat, x: nat, y: nat)
    requires Good(list, l, m) && x in list && y in list && x < |l| && y < |l| && x != y
    ensures Total(list, Shares(l[x := l[y]][y := l[x]], m)) == Total(list, Shares(l, m))
  {
    hide Pow2, Total;
    var s := Shares(l, m);
    var t := s[x := s[y]];
    assert Shares(l[x := l[y]][y := l[x]], m) == t[y := s[x]];
    TotalUpdate(list, s, x, s[y]);
    TotalUpdate(list, t, y, s[x]);
  }

  // ----- two nodes of the greatest length --------------------------------------------------------

  ghost predicate Longest(list: seq<nat>, l: seq<nat>, i: nat) {
    && i < |list|
    && (forall k :: 0 <= k < |list| ==> list[k] < |l|)
    && (forall k :: 0 <= k < |list| ==> l[list[k]] <= l[list[i]])
  }

  lemma {:induction false} SomeLongest(list: seq<nat>, l: seq<nat>) returns (i: nat)
    requires list != [] && forall k :: 0 <= k < |list| ==> list[k] < |l|
    ensures Longest(list, l, i)
    decreases |list|
  {
    var n := |list| - 1;
    if n == 0 { i := 0; } else {
      var j := SomeLongest(list[..n], l);
      assert forall k :: 0 <= k < n ==> list[..n][k] == list[k];
      i := if l[list[n]] >= l[list[j]] then n else j;
    }
  }

  /** A list of multiples of u has a multiple of u as its sum. */
  lemma {:induction false} SharesDivide(list: seq<nat>, s: seq<nat>, u: nat) returns (f: nat)
    requires forall k :: 0 <= k < |list| ==> Divides(u, At(s, list[k]))
    ensures Total(list, s) == f * u
    decreases |list|
  {
    if list == [] { f := 0; } else {
      var n := |list| - 1;
      assert forall k :: 0 <= k < n ==> list[..n][k] == list[k];
      var g := SharesDivide(list[..n], s, u);
      assert Divides(u, At(s, list[n]));
      var h: nat :| At(s, list[n]) == h * u;
      f := g + h;
      assert f * u == g * u + h * u;
    }
  }

  ghost predicate Divides(u: nat, x: nat) {
    exists f: nat :: x == f * u
  }

  lemma {:induction false} PowDivides(a: nat, b: nat)
    requires a <= b
    ensures Divides(Pow2(a), Pow2(b))
    decreases b
  {
    if a < b {
      PowDivides(a, b - 1);
      var f: nat :| Pow2(b - 1) == f * Pow2(a);
      assert Pow2(b) == (f + f) * Pow2(a);
    } else {
      assert Pow2(b) == 1 * Pow2(a);
    }
  }

  /** Multiples of 2u that leave room for u leave room for 2u. */
  lemma RoomForTwo(a: nat, b: nat, v: nat, u: nat)
    requires u > 0 && v == 2 * u && a * v + u <= b * v
    ensures a * v + v <= b * v
  {
    if b <= a { MulMono(v, b, a); }
    MulMono(v, a + 1, b);
  }

  /** If one node alone has the greatest length, a shorter one will do. */
  lemma ShortenLongest(list: seq<nat>, w: seq<nat>, l: seq<nat>, m: nat, i: nat)
    requires Good(list, l, m) && Longest(list, l, i) && |l| == |w| && |list| >= 2
    requires forall k :: 0 <= k < |list| && k != i ==> l[list[k]] < l[list[i]]
    ensures l[list[i]] > 0
    ensures Good(list, l[list[i] := l[list[i]] - 1], m)
    ensures Total(list, Costs(w, l[list[i] := l[list[i]] - 1])) <= Total(list, Costs(w, l))
  {
    hide Pow2, Total, Costs, Shares;
    var x := list[i];
    var k := if i == 0 then 1 else 0;
    assert l[list[k]] < l[x];
    var y := l[x] - 1;
    GoodUpdate(list, l, m, x, y);
    CostUpdate(list, w, l, x, y);
    MulMono(w[x], y, l[x]);
    RoomToShorten(list, l, m, i);
  }

  lemma MulMono(w: nat, y: nat, x: nat)
    requires y <= x
    ensures w * y <= w * x
  {
    assert w * x == w * y + w * (x - y);
  }

  lemma RoomToShorten(list: seq<nat>, l: seq<nat>, m: nat, i: nat)
    requires Good(list, l, m) && i < |list| && l[list[i]] > 0
    requires forall k :: 0 <= k < |list| && k != i ==> l[list[k]] < l[list[i]]
    ensures Total(list, Shares(l, m)) + Pow2(m + 1 - l[list[i]]) <= Pow2(m) + Pow2(m - l[list[i]])
  {
    hide Pow2, Total;
    var x := list[i];
    var s, u := Shares(l, m), Pow2(m + 1 - l[x]);
    var f := RestDivides(list, l, m, i, u);
    PowDivides(m + 1 - l[x], m);
    var g: nat :| Pow2(m) == g * u;
    TotalRemove(list, s, i);
    PowStep(m - l[x]);
    RoomForTwo(f, g, u, Pow2(m - l[x]));
  }

  lemma PowStep(n: nat)
    ensures Pow2(n + 1) == 2 * Pow2(n) && Pow2(n) > 0
  {
  }

  lemma RestDivides(list: seq<nat>, l: seq<nat>, m: nat, i: nat, u: nat) returns (f: nat)
    requires Good(list, l, m) && i < |list| && l[list[i]] > 0
    requires forall k :: 0 <= k < |list| && k != i ==> l[list[k]] < l[list[i]]
    requires u == Pow2(m + 1 - l[list[i]])
    ensures Total(list[..i] + list[i + 1..], Shares(l, m)) == f * u
  {
    hide Pow2, Total, Divides;
    var rest, s := list[..i] + list[i + 1..], Shares(l, m);
    forall k | 0 <= k < |rest| ensures Divides(u, At(s, rest[k])) {
      var x := rest[k];
      assert x == list[if k < i then k else k + 1];
      PowDivides(m + 1 - l[list[i]], m - l[x]);
    }
    f := SharesDivide(rest, s, u);
  }

  /** Lengths no dearer with two nodes of the greatest length. */
  lemma {:induction false} TwoLongest(list: seq<nat>, w: seq<nat>, l: seq<nat>, m: nat)
    returns (l1: seq<nat>, i: nat, j: nat)
    requires Good(list, l, m) && |l| == |w| && |list| >= 2
    ensures |l1| == |l| && Good(list, l1, m) && Total(list, Costs(w, l1)) <= Total(list, Costs(w, l))
    ensures i != j && Longest(list, l1, i) && Longest(list, l1, j)
    decreases Total(list, l)
  {
    hide Pow2, Total, Costs, Shares;
    i := SomeLongest(list, l);
    if j0 :| 0 <= j0 < |list| && j0 != i && l[list[j0]] == l[list[i]] {
      l1, j := l, j0;
    } else {
      ShortenLongest(list, w, l, m, i);
      TotalUpdate(list, l, list[i], l[list[i]] - 1);
      l1, i, j := TwoLongest(list, w, l[list[i] := l[list[i]] - 1], m);
    }
  }

  // ----- one join ----------------------------------------------------------------------------------

  /** a and b are the two lightest nodes of the list. */
  ghost predicate TwoLightest(list: seq<nat>, w: seq<nat>, a: nat, b: nat) {
    && a in list && b in list && a != b && a < |w| && b < |w| && w[a] <= w[b]
    && forall i :: 0 <= i < |list| && list[i] != a && list[i] != b ==> list[i] < |w| && w[b] <= w[list[i]]
  }

  /** Lengths no dearer in which the two lightest are brothers. */
  lemma LightestAreBrothers(list: seq<nat>, w: seq<nat>, l: seq<nat>, m: nat, a: nat, b: nat) returns (l1: seq<nat>)
    requires Good(list, l, m) && |l| == |w| && TwoLightest(list, w, a, b)
    ensures |l1| == |l| && Good(list, l1, m) && Total(list, Costs(w, l1)) <= Total(list, Costs(w, l))
    ensures l1[a] == l1[b] > 0
  {
    hide Pow2, Total, Costs, Shares;
    AtLeastTwo(list, a, b);
    var k, i, j := TwoLongest(list, w, l, m);
    var p, q := list[i], list[j];
    assert p != q;
    if p == b || q == a { p, q := q, p; }
    assert p in list && q in list;
    Exchange(list, w, k, m, a, p);
    var k1 := k[a := k[p]][p := k[a]];
    assert k1[a] == k[p] && k1[q] == k[q];
    assert k1[b] <= k[p];
    Exchange(list, w, k1, m, b, q);
    l1 := k1[b := k1[q]][q := k1[b]];
    NotBothZero(list, l1, m, a, b);
  }

  lemma AtLeastTwo(list: seq<nat>, a: nat, b: nat)
    requires a in list && b in list && a != b
    ensures |list| >= 2
  {
    var i :| 0 <= i < |list| && list[i] == a;
    var j :| 0 <= j < |list| && list[j] == b;
  }

  lemma NotBothZero(list: seq<nat>, l: seq<nat>, m: nat, a: nat, b: nat)
    requires Good(list, l, m) && a in list && b in list && a != b && l[a] == l[b]
    ensures l[a] > 0
  {
    hide Pow2, Total;
    var i :| 0 <= i < |list| && list[i] == a;
    var j :| 0 <= j < |list| && list[j] == b;
    TotalTwo(list, Shares(l, m), i, j);
    PowStep(m);
  }

  /** The list after the join of a and b into node. */
  ghost predicate JoinedList(list: seq<nat>, a: nat, b: nat, node: nat, after: seq<nat>) {
    multiset(list) + multiset{node} == multiset(after) + multiset{a, b}
  }

  /**
    One join: lengths for the list give lengths for the joined list that cost
    less by the weight of the new node.
   */
  lemma JoinStep(list: seq<nat>, w: seq<nat>, l: seq<nat>, m: nat, a: nat, b: nat, node: nat, after: seq<nat>)
    returns (l2: seq<nat>)
    requires Good(list, l, m) && |l| == |w| && TwoLightest(list, w, a, b)
    requires JoinedList(list, a, b, node, after) && Distinct(after) && node !in list && node < |w|
    ensures |l2| == |w| && Good(after, l2, m)
    ensures var w2 := w[node := w[a] + w[b]];
            Total(list, Costs(w, l)) >= w[a] + w[b] + Total(after, Costs(w2, l2))
  {
    hide Pow2, Total, Costs, Shares;
    var l1 := LightestAreBrothers(list, w, l, m, a, b);
    l2 := l1[node := l1[a] - 1];
    var w2 := w[node := w[a] + w[b]];
    JoinedMembers(list, l1, m, a, b, node, after, l2);
    JoinedShares(list, l1, m, a, b, node, after);
    JoinedCosts(list, w, l1, m, a, b, node, after, w2, l2);
  }

  lemma JoinedMembers(list: seq<nat>, l: seq<nat>, m: nat, a: nat, b: nat, node: nat, after: seq<nat>, l2: seq<nat>)
    requires Good(list, l, m) && JoinedList(list, a, b, node, after) && node < |l|
    requires a < |l| && 0 < l[a] <= m && l2 == l[node := l[a] - 1]
    ensures forall i :: 0 <= i < |after| ==> after[i] < |l2| && l2[after[i]] <= m
  {
    forall i | 0 <= i < |after| ensures after[i] < |l2| && l2[after[i]] <= m {
      assert after[i] in multiset(after);
      if after[i] != node {
        assert (multiset(list) + multiset{node})[after[i]] >= 1;
        assert after[i] in list;
      }
    }
  }

  /** Any sum over the list, when a value of the new node is known. */
  lemma JoinedTotal(list: seq<nat>, v: seq<nat>, a: nat, b: nat, node: nat, after: seq<nat>, y: nat)
    requires JoinedList(list, a, b, node, after) && node !in list && node < |v| && a < |v| && b < |v| && a != node && b != node
    ensures Total(after, v[node := y]) + v[a] + v[b] == Total(list, v) + y
  {
    var v2 := v[node := y];
    var x, z := list + [node], after + [a, b];
    assert multiset(x) == multiset(z) by {
      assert multiset([a, b]) == multiset{a, b};
    }
    TotalPermuted(x, z, v2);
    assert x[..|x| - 1] == list;
    assert z[..|z| - 1] == after + [a];
    assert (after + [a])[..|after|] == after;
    TotalSame(list, v, v2);
  }

  lemma JoinedShares(list: seq<nat>, l: seq<nat>, m: nat, a: nat, b: nat, node: nat, after: seq<nat>)
    requires Good(list, l, m) && JoinedList(list, a, b, node, after) && node !in list && node < |l|
    requires a in list && b in list && l[a] == l[b] && 0 < l[a] <= m
    ensures Total(after, Shares(l[node := l[a] - 1], m)) == Total(list, Shares(l, m))
  {
    hide Pow2, Total;
    JoinedTotal(list, Shares(l, m), a, b, node, after, Pow2(m - (l[a] - 1)));
    assert Shares(l[node := l[a] - 1], m) == Shares(l, m)[node := Pow2(m - (l[a] - 1))];
    PowStep(m - l[a]);
  }

  lemma JoinedCosts(list: seq<nat>, w: seq<nat>, l: seq<nat>, m: nat, a: nat, b: nat, node: nat, after: seq<nat>,
                    w2: seq<nat>, l2: seq<nat>)
    requires Good(list, l, m) && JoinedList(list, a, b, node, after) && node !in list && node < |l| == |w|
    requires a in list && b in list && l[a] == l[b] && 0 < l[a] <= m
    requires w2 == w[node := w[a] + w[b]] && l2 == l[node := l[a] - 1]
    ensures Total(list, Costs(w, l)) == w[a] + w[b] + Total(after, Costs(w2, l2))
  {
    hide Total;
    var y := (w[a] + w[b]) * (l[a] - 1);
    JoinedTotal(list, Costs(w, l), a, b, node, after, y);
    assert Costs(w2, l2) == Costs(w, l)[node := y];
    assert y == w[a] * l[a] + w[b] * l[a] - w[a] - w[b];
  }

  // ----- all joins -----------------------------------------------------------------------------------

  /**
    No prefix code for the leaves costs less than the weight joined so far plus
    some code for the nodes that are left.
   */
  ghost predicate NoCheaper(leaves: seq<nat>, w0: seq<nat>, list: seq<nat>, w: seq<nat>, joined: nat) {
    forall l, m :: |l| == |w0| && Good(leaves, l, m) ==> Covered(leaves, w0, list, w, joined, l, m)
  }

  ghost predicate Covered(leaves: seq<nat>, w0: seq<nat>, list: seq<nat>, w: seq<nat>, joined: nat, l: seq<nat>, m: nat)
    requires |l| == |w0|
  {
    exists l2 :: |l2| == |w| && Good(list, l2, m)
              && Total(leaves, Costs(w0, l)) >= joined + Total(list, Costs(w, l2))
  }

  lemma NoCheaperStart(leaves: seq<nat>, w: seq<nat>)
    ensures NoCheaper(leaves, w, leaves, w, 0)
  {
    hide Total, Costs, Good;
    forall l, m | |l| == |w| && Good(leaves, l, m) ensures Covered(leaves, w, leaves, w, 0, l, m) {
      assert |l| == |w| && Good(leaves, l, m);
    }
  }

  lemma NoCheaperStep(leaves: seq<nat>, w0: seq<nat>, list: seq<nat>, w: seq<nat>, joined: nat,
                      a: nat, b: nat, node: nat, after: seq<nat>)
    requires NoCheaper(leaves, w0, list, w, joined) && TwoLightest(list, w, a, b)
    requires JoinedList(list, a, b, node, after) && Distinct(after) && node !in list && node < |w|
    ensures NoCheaper(leaves, w0, after, w[node := w[a] + w[b]], joined + w[a] + w[b])
  {
    hide Total, Costs, Good, TwoLightest, JoinedList;
    LightRange(list, w, a, b);
    var w2, j2 := w[node := w[a] + w[b]], joined + w[a] + w[b];
    forall l, m | |l| == |w0| && Good(leaves, l, m) ensures Covered(leaves, w0, after, w2, j2, l, m) {
      assert Covered(leaves, w0, list, w, joined, l, m);
      var l1 :| |l1| == |w| && Good(list, l1, m) && Total(leaves, Costs(w0, l)) >= joined + Total(list, Costs(w, l1));
      var l2 := JoinStep(list, w, l1, m, a, b, node, after);
    }
  }

  lemma LightRange(list: seq<nat>, w: seq<nat>, a: nat, b: nat)
    requires TwoLightest(list, w, a, b)
    ensures a < |w| && b < |w|
  {
  }

  /** In the end the weight joined is a lower bound for every prefix code. */
  lemma NoCheaperEnd(leaves: seq<nat>, w0: seq<nat>, list: seq<nat>, w: seq<nat>, joined: nat, l: seq<nat>, m: nat)
    requires NoCheaper(leaves, w0, list, w, joined) && |l| == |w0| && Good(leaves, l, m)
    ensures joined <= Total(leaves, Costs(w0, l))
  {
    hide Total, Costs, Good;
    assert Covered(leaves, w0, list, w, joined, l, m);
  }

  /** Another order of the same nodes. */
  lemma NoCheaperPermuted(leaves: seq<nat>, w0: seq<nat>, list: seq<nat>, w: seq<nat>, joined: nat, after: seq<nat>)
    requires NoCheaper(leaves, w0, list, w, joined) && multiset(list) == multiset(after) && Distinct(after)
    ensures NoCheaper(leaves, w0, after, w, joined)
  {
    hide Total, Costs, Distinct;
    forall l, m | |l| == |w0| && Good(leaves, l, m) ensures Covered(leaves, w0, after, w, joined, l, m) {
      assert Covered(leaves, w0, list, w, joined, l, m);
      var l1 :| |l1| == |w| && Good(list, l1, m) && Total(leaves, Costs(w0, l)) >= joined + Total(list, Costs(w, l1));
      TotalPermuted(list, after, Costs(w, l1));
      TotalPermuted(list, after, Shares(l1, m));
      GoodPermuted(list, l1, m, after);
    }
  }

  lemma GoodPermuted(list: seq<nat>, l: seq<nat>, m: nat, after: seq<nat>)
    requires Good(list, l, m) && multiset(list) == multiset(after) && Distinct(after)
    requires Total(list, Shares(l, m)) == Total(after, Shares(l, m))
    ensures Good(after, l, m)
  {
    hide Total, Shares, Pow2;
    forall i | 0 <= i < |after| ensures after[i] < |l| && l[after[i]] <= m {
      assert after[i] in multiset(after);
      assert after[i] in multiset(list);
      assert after[i] in list;
    }
  }
}
