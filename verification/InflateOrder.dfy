/**
  The order in which deps/zlib/inftrees.c visits symbols: sorted by length and
  then by symbol, so that each code is the one before it, incremented and
  extended with zeros.
 */
module InflateOrder {
  import opened Bits
  import opened Canonical

  /** All symbols that have a code, in canonical order. */
  ghost predicate SortedSymbols(work: seq<nat>, lens: seq<nat>) {
    && (forall i :: 0 <= i < |work| ==> work[i] < |lens| && lens[work[i]] > 0)
    && (forall i, j :: 0 <= i < j < |work| ==> Before(lens, work[i], work[j]))
    && (forall s :: 0 <= s < |lens| && lens[s] > 0 ==> s in work)
  }

  /** t is the symbol right after s. */
  ghost predicate Follows(lens: seq<nat>, s: nat, t: nat) {
    && s < |lens| && t < |lens| && 0 < lens[s] && Before(lens, s, t)
    && forall u :: 0 <= u < |lens| && lens[u] > 0 && Before(lens, u, t) && u != s ==> Before(lens, u, s)
  }

  lemma SortedFollows(work: seq<nat>, lens: seq<nat>, k: nat)
    requires SortedSymbols(work, lens) && k + 1 < |work|
    ensures Follows(lens, work[k], work[k + 1])
  {
    var s, t := work[k], work[k + 1];
    forall u | 0 <= u < |lens| && lens[u] > 0 && Before(lens, u, t) && u != s ensures Before(lens, u, s) {
      var j :| 0 <= j < |work| && work[j] == u;
      assert j > k + 1 ==> Before(lens, t, u);
    }
  }

  // ----- counting between two symbols --------------------------------------------------

  lemma {:induction false} CountBetween(lens: seq<nat>, m: nat, n: nat, b: nat)
    requires m <= n <= |lens| && forall u :: m <= u < n ==> lens[u] != b
    ensures CountTo(lens, m, b) == CountTo(lens, n, b)
    decreases n - m
  {
    if m < n { CountBetween(lens, m, n - 1, b); }
  }

  /** How many codes of each length remain once the symbols before t are done. */
  function Remaining(lens: seq<nat>, t: nat, b: nat): int
    requires t < |lens|
  {
    if b < lens[t] then 0
    else if b == lens[t] then Count(lens, b) - CountTo(lens, t, b)
    else Count(lens, b)
  }

  lemma NoneAfter(lens: seq<nat>, s: nat, t: nat)
    requires Follows(lens, s, t) && lens[s] < lens[t]
    ensures CountTo(lens, s, lens[s]) + 1 == Count(lens, lens[s])
  {
    forall u | s + 1 <= u < |lens| ensures lens[u] != lens[s] {
      assert lens[u] == lens[s] ==> Before(lens, u, t);
    }
    CountBetween(lens, s + 1, |lens|, lens[s]);
  }

  lemma NoneBefore(lens: seq<nat>, s: nat, t: nat)
    requires Follows(lens, s, t) && lens[s] < lens[t]
    ensures CountTo(lens, t, lens[t]) == 0
  {
    forall u | 0 <= u < t ensures lens[u] != lens[t] {
      assert lens[u] == lens[t] ==> Before(lens, u, t);
    }
    CountBetween(lens, 0, t, lens[t]);
  }

  lemma NoneBetween(lens: seq<nat>, s: nat, t: nat, b: nat)
    requires Follows(lens, s, t) && lens[s] < b < lens[t]
    ensures Count(lens, b) == 0
  {
    forall u | 0 <= u < |lens| ensures lens[u] != b {
      assert lens[u] == b ==> Before(lens, u, t);
    }
    CountBetween(lens, 0, |lens|, b);
  }

  lemma LastOfLength(lens: seq<nat>, s: nat, t: nat)
    requires Follows(lens, s, t) && lens[s] < lens[t]
    ensures CountTo(lens, s, lens[s]) + 1 == Count(lens, lens[s])
    ensures CountTo(lens, t, lens[t]) == 0
    ensures forall b :: lens[s] < b < lens[t] ==> Count(lens, b) == 0
  {
    hide CountTo, Count;
    NoneAfter(lens, s, t);
    NoneBefore(lens, s, t);
    forall b | lens[s] < b < lens[t] ensures Count(lens, b) == 0 { NoneBetween(lens, s, t, b); }
  }

  lemma SameLength(lens: seq<nat>, s: nat, t: nat)
    requires Follows(lens, s, t) && lens[s] == lens[t]
    ensures CountTo(lens, t, lens[t]) == CountTo(lens, s, lens[s]) + 1
  {
    assert forall u :: s + 1 <= u < t && lens[u] == lens[s] ==> Before(lens, u, t);
    CountBetween(lens, s + 1, t, lens[s]);
  }

  /** Doing s takes one code of its length and nothing else. */
  lemma RemainingStep(lens: seq<nat>, s: nat, t: nat, b: nat)
    requires Follows(lens, s, t)
    ensures Remaining(lens, t, b) == Remaining(lens, s, b) - (if b == lens[s] then 1 else 0)
  {
    if lens[s] == lens[t] { SameLength(lens, s, t); } else { LastOfLength(lens, s, t); }
  }

  lemma {:induction false} NextCodeSkips(lens: seq<nat>, b: nat, c: nat)
    requires 1 <= b < c && forall l :: b < l < c ==> Count(lens, l) == 0
    ensures NextCode(lens, c) == Shl(NextCode(lens, b) + Count(lens, b), c - b)
    decreases c
  {
    var x := NextCode(lens, b) + Count(lens, b);
    if b + 1 == c {
      assert Shl(x, 1) == 2 * Shl(x, 0);
    } else {
      NextCodeSkips(lens, b, c - 1);
    }
  }

  /** The next code is this code plus one, with zeros appended. */
  lemma NextIsIncrement(lens: seq<nat>, s: nat, t: nat)
    requires Follows(lens, s, t)
    ensures lens[s] <= lens[t] && CodeOf(lens, t) == Shl(CodeOf(lens, s) + 1, lens[t] - lens[s])
  {
    if lens[s] == lens[t] {
      SameLength(lens, s, t);
      assert Shl(CodeOf(lens, s) + 1, 0) == CodeOf(lens, s) + 1;
    } else {
      LastOfLength(lens, s, t);
      NextCodeSkips(lens, lens[s], lens[t]);
    }
  }

  lemma FirstIsLeast(work: seq<nat>, lens: seq<nat>, u: nat)
    requires SortedSymbols(work, lens) && |work| > 0 && u < |lens|
    ensures lens[u] == 0 || u == work[0] || Before(lens, work[0], u)
  {
    if lens[u] > 0 {
      var j :| 0 <= j < |work| && work[j] == u;
    }
  }

  lemma {:induction false} NextCodeZero(lens: seq<nat>, b: nat)
    requires forall c :: 1 <= c < b ==> Count(lens, c) == 0
    ensures NextCode(lens, b) == 0
  {
    if b > 1 { NextCodeZero(lens, b - 1); }
  }

  // ----- incrementing a reversed code ----------------------------------------------------

  /** Increment a code whose bits are reversed: carry from the top down. */
  function BackInc(len: nat, h: nat): nat {
    if len == 0 then 0
    else if Shr(h, len - 1) % 2 == 1 then BackInc(len - 1, h)
    else Low(h, len - 1) + Pow2(len - 1)
  }

  lemma {:induction false} BackIncBound(len: nat, h: nat)
    ensures BackInc(len, h) < Pow2(len)
  {
    if len > 0 {
      LowBound(h, len - 1);
      if Shr(h, len - 1) % 2 == 1 { BackIncBound(len - 1, h); }
    }
  }

  lemma BackIncStops(len: nat, h: nat)
    requires len > 0 && Shr(h, len - 1) % 2 == 0
    ensures Rev(len, BackInc(len, h)) == 2 * Rev(len - 1, h) + 1
  {
    hide Rev, Low, Pow2, Shl;
    var g := Low(h, len - 1) + Pow2(len - 1);
    LowBound(h, len - 1);
    ShlOne(len - 1);
    Join(1, Low(h, len - 1), len - 1);
    RevTop(len, g);
    RevLow(len - 1, g);
    RevLow(len - 1, h);
  }

  lemma NoReversal(h: nat)
    ensures Rev(0, h) == 0
  {
  }

  lemma {:induction false} BackIncIsIncrement(len: nat, h: nat)
    ensures Rev(len, BackInc(len, h)) == if Rev(len, h) + 1 == Pow2(len) then 0 else Rev(len, h) + 1
    decreases len
  {
    hide Rev, Shr, Low;
    if len == 0 {
      NoReversal(h);
      NoReversal(BackInc(len, h));
    } else {
      RevTop(len, h);
      RevBound(len - 1, h);
      if Shr(h, len - 1) % 2 == 1 {
        var g := BackInc(len - 1, h);
        RevTop(len, g);
        BackIncBound(len - 1, h);
        LowSmall(g, len - 1);
        BackIncIsIncrement(len - 1, h);
      } else {
        BackIncStops(len, h);
      }
    }
  }

  /** The code after s, in the stream: increment backwards. */
  lemma NextStreamCode(lens: seq<nat>, s: nat, t: nat)
    requires Follows(lens, s, t) && ValidLens(lens) && Prefix(lens)
    ensures BackInc(lens[s], StreamCode(lens, s)) == StreamCode(lens, t)
  {
    hide Rev, BackInc, Shl, Pow2, Low, CodeOf, Prefix;
    var l, c, h := lens[s], CodeOf(lens, s), StreamCode(lens, s);
    NextIsIncrement(lens, s, t);
    RevShl(l, lens[t] - l, c + 1);
    CodeFits(lens, s);
    NotLast(lens, s, t);
    RevRev(l, c);
    LowSmall(c, l);
    BackIncIsIncrement(l, h);
    BackIncBound(l, h);
    var g := BackInc(l, h);
    RevRev(l, g);
    LowSmall(g, l);
  }

  /** If a code follows, this one is not all ones. */
  lemma NotLast(lens: seq<nat>, s: nat, t: nat)
    requires Follows(lens, s, t) && ValidLens(lens) && Prefix(lens)
    ensures CodeOf(lens, s) + 1 < Pow2(lens[s])
  {
    hide Rev, Pow2, CodeOf, Prefix, Shl;
    var l, d := lens[s], lens[t] - lens[s];
    CodeFits(lens, s);
    CodeFits(lens, t);
    NextIsIncrement(lens, s, t);
    if CodeOf(lens, s) + 1 >= Pow2(l) {
      ShlMono(Pow2(l), CodeOf(lens, s) + 1, d);
      ShlPow2(l, d);
    }
  }

  // ----- codes that share their first bits ------------------------------------------------

  /** The first `root` bits of a longer code, as a number. */
  function RootPrefix(lens: seq<nat>, root: nat, s: nat): nat
    requires s < |lens| && root <= lens[s]
  {
    Shr(CodeOf(lens, s), lens[s] - root)
  }

  lemma RootPrefixIsLow(lens: seq<nat>, root: nat, s: nat)
    requires s < |lens| && root <= lens[s]
    ensures Low(StreamCode(lens, s), root) == Rev(root, RootPrefix(lens, root, s))
    ensures Low(CodeOf(lens, s), lens[s]) == CodeOf(lens, s) ==>
              Rev(root, StreamCode(lens, s)) == RootPrefix(lens, root, s)
  {
    hide Rev, Low, Shr, CodeOf;
    var l, c, h := lens[s], CodeOf(lens, s), StreamCode(lens, s);
    RevRev(root, h);
    RevPrefix(l, root, h);
    RevRev(l, c);
    // Rev(root, h) is the first root bits of Low(c, l)
    LowShr(c, l - root, root);
    RevLow(root, Shr(c, l - root));
    assert Low(h, root) == Rev(root, Shr(Low(c, l), l - root));
  }

  lemma {:induction false} ShrShl(x: nat, d: nat, e: nat)
    requires d <= e
    ensures Shr(Shl(x, d), e) == Shr(x, e - d)
  {
    if d > 0 { ShrShl(x, d - 1, e - 1); }
  }

  lemma {:induction false} ShrMono(a: nat, b: nat, n: nat)
    requires a <= b
    ensures Shr(a, n) <= Shr(b, n)
  {
    if n > 0 { ShrMono(a / 2, b / 2, n - 1); }
  }

  lemma PrefixOfPlace(lens: seq<nat>, root: nat, s: nat)
    requires s < |lens| && root <= lens[s] <= MAXBITS
    ensures RootPrefix(lens, root, s) == Shr(Place(lens, s), MAXBITS - root)
  {
    ShrShl(CodeOf(lens, s), MAXBITS - lens[s], MAXBITS - root);
  }

  /** First bits grow along the order. */
  lemma RootPrefixMono(lens: seq<nat>, root: nat, s: nat, t: nat)
    requires s < |lens| && t < |lens| && ValidLens(lens) && 0 < lens[s] && Before(lens, s, t)
    requires root <= lens[s]
    ensures root <= lens[t] && RootPrefix(lens, root, s) <= RootPrefix(lens, root, t)
  {
    hide Shr, Shl, CodeOf, Pow2;
    PlaceOrder(lens, s, t);
    PrefixOfPlace(lens, root, s);
    PrefixOfPlace(lens, root, t);
    ShrMono(Place(lens, s), Place(lens, t), MAXBITS - root);
  }

  /** Codes share their first bits in the stream exactly if they share them as numbers. */
  lemma SameRoot(lens: seq<nat>, root: nat, s: nat, t: nat)
    requires s < |lens| && t < |lens| && ValidLens(lens) && Prefix(lens)
    requires 0 < lens[s] && 0 < lens[t] && root <= lens[s] && root <= lens[t]
    ensures Low(StreamCode(lens, s), root) == Low(StreamCode(lens, t), root)
        <==> RootPrefix(lens, root, s) == RootPrefix(lens, root, t)
  {
    hide Rev, Low, Shr, CodeOf, Pow2, Prefix;
    CodeFits(lens, s);
    CodeFits(lens, t);
    LowSmall(CodeOf(lens, s), lens[s]);
    LowSmall(CodeOf(lens, t), lens[t]);
    RootPrefixIsLow(lens, root, s);
    RootPrefixIsLow(lens, root, t);
    RevLow(root, StreamCode(lens, s));
    RevLow(root, StreamCode(lens, t));
  }
}
