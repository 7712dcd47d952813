/**
  Canonical Huffman codes, as section 3.2.2 of RFC 1951 defines them from code
  lengths alone.  Code lengths are at most 15; length zero means "no code".
  Streams of bits are numbers read from the low bit up; a code is sent with its
  most significant bit first, so in a stream it stands reversed.
 */
module Canonical {
  import opened Bits

  const MAXBITS: nat := 15

  // ----- reversing bits ----------------------------------------------------------

  /** The first n bits of a stream as a number whose top bit is the first bit. */
  function Rev(n: nat, x: nat): nat {
    if n == 0 then 0 else Shl(x % 2, n - 1) + Rev(n - 1, x / 2)
  }

  lemma {:induction false} RevBound(n: nat, x: nat)
    ensures Rev(n, x) < Pow2(n)
  {
    if n > 0 {
      RevBound(n - 1, x / 2);
      ShlOne(n - 1);
    }
  }

  /** The last of the n bits is the low bit of the reversal. */
  lemma {:induction false} RevTop(n: nat, x: nat)
    requires n > 0
    ensures Rev(n, x) == 2 * Rev(n - 1, x) + Shr(x, n - 1) % 2
  {
    if n > 1 {
      RevTop(n - 1, x / 2);
      assert Shl(x % 2, n - 1) == 2 * Shl(x % 2, n - 2);
    } else {
      assert Rev(0, x / 2) == 0 && Rev(0, x) == 0;
    }
  }

  /** Reversing only looks at the first n bits. */
  lemma {:induction false} RevLow(n: nat, x: nat)
    ensures Rev(n, Low(x, n)) == Rev(n, x)
  {
    if n > 0 { RevLow(n - 1, x / 2); }
  }

  /** Reversing twice gives the first n bits back. */
  lemma {:induction false} RevRev(n: nat, x: nat)
    ensures Rev(n, Rev(n, x)) == Low(x, n)
  {
    if n > 0 {
      var y := Rev(n, x);
      RevRev(n - 1, x / 2);
      RevBound(n - 1, x / 2);
      Join(x % 2, Rev(n - 1, x / 2), n - 1);
      RevTop(n, y);
      RevLow(n - 1, y);
    }
  }

  /** Dropping the last bits of a reversal leaves the reversal of the first ones. */
  lemma {:induction false} RevPrefix(n: nat, m: nat, x: nat)
    requires m <= n
    ensures Shr(Rev(n, x), n - m) == Rev(m, x)
    decreases n - m
  {
    if m < n {
      RevTop(n, x);
      assert Rev(n, x) / 2 == Rev(n - 1, x);
      RevPrefix(n - 1, m, x);
    }
  }

  /** Zeros appended to a code do not show in the reversed code. */
  lemma {:induction false} RevShl(n: nat, d: nat, c: nat)
    ensures Rev(n + d, Shl(c, d)) == Rev(n, c)
  {
    if d > 0 {
      RevShl(n, d - 1, c);
      ShlOne(n + d - 1);
    }
  }

  // ----- code lengths and codes ----------------------------------------------------

  predicate ValidLens(lens: seq<nat>) {
    forall i :: 0 <= i < |lens| ==> lens[i] <= MAXBITS
  }

  /** How many of the first n symbols have length b. */
  function CountTo(lens: seq<nat>, n: nat, b: nat): (c: nat)
    requires n <= |lens|
    ensures c <= n
  {
    if n == 0 then 0 else CountTo(lens, n - 1, b) + (if lens[n - 1] == b then 1 else 0)
  }

  function Count(lens: seq<nat>, b: nat): nat {
    CountTo(lens, |lens|, b)
  }

  /** bl is the distribution of the lengths, with no entry for length zero. */
  ghost predicate Tally(bl: seq<nat>, lens: seq<nat>) {
    |bl| == MAXBITS + 1 && bl[0] == 0 && forall b :: 1 <= b <= MAXBITS ==> bl[b] == Count(lens, b)
  }

  /** The first code of length b: the codes of each length follow those of the length before. */
  function NextCode(lens: seq<nat>, b: nat): nat {
    if b <= 1 then 0 else 2 * (NextCode(lens, b - 1) + Count(lens, b - 1))
  }

  /** The code of symbol s, most significant bit first. */
  function CodeOf(lens: seq<nat>, s: nat): nat
    requires s < |lens|
  {
    NextCode(lens, lens[s]) + CountTo(lens, s, lens[s])
  }

  /** The code of symbol s as it stands in a stream. */
  function StreamCode(lens: seq<nat>, s: nat): nat
    requires s < |lens|
  {
    Rev(lens[s], CodeOf(lens, s))
  }

  /** A stream starts with the code of symbol s. */
  predicate StartsWith(lens: seq<nat>, s: nat, v: nat)
    requires s < |lens|
  {
    lens[s] > 0 && Low(v, lens[s]) == StreamCode(lens, s)
  }

  /** The codes of length up to b leave room: Kraft's inequality up to length b. */
  predicate Fits(lens: seq<nat>, b: nat) {
    NextCode(lens, b) + Count(lens, b) <= Pow2(b)
  }

  /** No length is over-subscribed. */
  ghost predicate Prefix(lens: seq<nat>) {
    forall b :: 1 <= b <= MAXBITS ==> Fits(lens, b)
  }

  /** Every stream starts with some code: Kraft's sum is exactly one. */
  predicate Complete(lens: seq<nat>) {
    NextCode(lens, MAXBITS) + Count(lens, MAXBITS) == Pow2(MAXBITS)
  }

  lemma {:induction false} CountToMono(lens: seq<nat>, m: nat, n: nat, b: nat)
    requires m <= n <= |lens|
    ensures CountTo(lens, m, b) <= CountTo(lens, n, b)
    ensures m < n && lens[m] == b ==> CountTo(lens, m, b) < CountTo(lens, n, b)
    decreases n - m
  {
    if m < n {
      CountToMono(lens, m, n - 1, b);
      if m == n - 1 { assert CountTo(lens, n, b) == CountTo(lens, m, b) + (if lens[m] == b then 1 else 0); }
    }
  }

  // ----- where codes lie on the line of all streams ------------------------------------

  /** The end of the codes of length b, in units of 2^-15. */
  function EndOf(lens: seq<nat>, b: nat): nat
    requires b <= MAXBITS
  {
    Shl(NextCode(lens, b) + Count(lens, b), MAXBITS - b)
  }

  /** The start of the codes of length b, in the same units. */
  function BeginOf(lens: seq<nat>, b: nat): nat
    requires b <= MAXBITS
  {
    Shl(NextCode(lens, b), MAXBITS - b)
  }

  /** The start of symbol s. */
  function Place(lens: seq<nat>, s: nat): nat
    requires s < |lens| && lens[s] <= MAXBITS
  {
    Shl(CodeOf(lens, s), MAXBITS - lens[s])
  }

  lemma EndIsNextBegin(lens: seq<nat>, b: nat)
    requires 1 <= b < MAXBITS
    ensures EndOf(lens, b) == BeginOf(lens, b + 1)
  {
    var x := NextCode(lens, b) + Count(lens, b);
    ShlShl(x, 1, MAXBITS - b - 1);
    assert Shl(x, 1) == 2 * Shl(x, 0);
  }

  lemma BeginBeforeEnd(lens: seq<nat>, b: nat)
    requires b <= MAXBITS
    ensures BeginOf(lens, b) <= EndOf(lens, b)
  {
    ShlMono(NextCode(lens, b), NextCode(lens, b) + Count(lens, b), MAXBITS - b);
  }

  lemma {:induction false} EndMono(lens: seq<nat>, b: nat, c: nat)
    requires 1 <= b < c <= MAXBITS
    ensures EndOf(lens, b) <= BeginOf(lens, c) <= EndOf(lens, c)
    decreases c
  {
    BeginBeforeEnd(lens, c);
    EndIsNextBegin(lens, c - 1);
    if b < c - 1 { EndMono(lens, b, c - 1); }
  }

  /** Symbol s occupies [Place, Place + 2^(15 - len)), inside its length's range. */
  lemma PlaceRange(lens: seq<nat>, s: nat)
    requires s < |lens| && 1 <= lens[s] <= MAXBITS
    ensures BeginOf(lens, lens[s]) <= Place(lens, s)
    ensures Place(lens, s) + Pow2(MAXBITS - lens[s]) <= EndOf(lens, lens[s])
  {
    var b := lens[s];
    CountToMono(lens, s, |lens|, b);
    ShlMono(NextCode(lens, b), CodeOf(lens, s), MAXBITS - b);
    ShlMono(CodeOf(lens, s), NextCode(lens, b) + Count(lens, b), MAXBITS - b);
  }

  /** s comes before t in canonical order. */
  predicate Before(lens: seq<nat>, s: nat, t: nat)
    requires s < |lens| && t < |lens|
  {
    lens[s] < lens[t] || (lens[s] == lens[t] && s < t)
  }

  lemma PlaceOrder(lens: seq<nat>, s: nat, t: nat)
    requires s < |lens| && t < |lens| && 1 <= lens[s] && lens[t] <= MAXBITS && Before(lens, s, t)
    ensures Place(lens, s) + Pow2(MAXBITS - lens[s]) <= Place(lens, t)
  {
    PlaceRange(lens, s);
    PlaceRange(lens, t);
    if lens[s] < lens[t] {
      EndMono(lens, lens[s], lens[t]);
    } else {
      CountToMono(lens, s, t, lens[s]);
      ShlMono(CodeOf(lens, s), CodeOf(lens, t), MAXBITS - lens[s]);
    }
  }

  lemma CodeFits(lens: seq<nat>, s: nat)
    requires s < |lens| && 1 <= lens[s] <= MAXBITS && Prefix(lens)
    ensures CodeOf(lens, s) < Pow2(lens[s])
  {
    assert Fits(lens, lens[s]);
    CountToMono(lens, s, |lens|, lens[s]);
  }

  /** A stream starts with a code exactly if, read as a number, it lies in the code's range. */
  lemma StreamInRange(lens: seq<nat>, s: nat, v: nat)
    requires s < |lens| && 1 <= lens[s] <= MAXBITS && Prefix(lens)
    ensures StartsWith(lens, s, v) <==>
            Place(lens, s) <= Rev(MAXBITS, v) < Place(lens, s) + Pow2(MAXBITS - lens[s])
  {
    hide Rev, Low, Shl, Shr, CodeOf, Prefix;
    var l, c, p := lens[s], CodeOf(lens, s), Rev(MAXBITS, v);
    var d := MAXBITS - l;
    CodeFits(lens, s);
    RevPrefix(MAXBITS, l, v);
    RevLow(l, v);
    RevRev(l, v);
    RevRev(l, c);
    LowSmall(c, l);
    assert StartsWith(lens, s, v) <==> Shr(p, d) == c;
    Split(p, d);
    LowBound(p, d);
    if Place(lens, s) <= p < Place(lens, s) + Pow2(d) {
      Join(c, p - Shl(c, d), d);
    }
  }

  /** No stream starts with two different codes. */
  lemma PrefixFree(lens: seq<nat>, s: nat, t: nat, v: nat)
    requires s < |lens| && t < |lens| && ValidLens(lens) && Prefix(lens)
    requires StartsWith(lens, s, v) && StartsWith(lens, t, v)
    ensures s == t
  {
    hide Rev, Low, CodeOf, Prefix, Place;
    StreamInRange(lens, s, v);
    StreamInRange(lens, t, v);
    if Before(lens, s, t) {
      PlaceOrder(lens, s, t);
    } else if Before(lens, t, s) {
      PlaceOrder(lens, t, s);
    }
  }

  lemma {:induction false} FindNth(lens: seq<nat>, n: nat, b: nat, r: nat) returns (s: nat)
    requires n <= |lens| && r < CountTo(lens, n, b)
    ensures s < n && lens[s] == b && CountTo(lens, s, b) == r
    decreases n
  {
    if r < CountTo(lens, n - 1, b) {
      s := FindNth(lens, n - 1, b, r);
    } else {
      s := n - 1;
    }
  }

  lemma {:induction false} FindLength(lens: seq<nat>, p: nat, c: nat) returns (b: nat)
    requires 1 <= c <= MAXBITS && p < EndOf(lens, c)
    ensures 1 <= b <= c && BeginOf(lens, b) <= p < EndOf(lens, b)
    decreases c
  {
    ShlOne(MAXBITS - 1);
    if c == 1 || BeginOf(lens, c) <= p {
      b := c;
    } else {
      EndIsNextBegin(lens, c - 1);
      b := FindLength(lens, p, c - 1);
    }
  }

  /** With a complete set of lengths every stream starts with a code. */
  lemma Decodable(lens: seq<nat>, v: nat) returns (s: nat)
    requires ValidLens(lens) && Prefix(lens) && Complete(lens)
    ensures s < |lens| && StartsWith(lens, s, v)
  {
    var p := Rev(MAXBITS, v);
    RevBound(MAXBITS, v);
    assert EndOf(lens, MAXBITS) == Pow2(MAXBITS);
    var b := FindLength(lens, p, MAXBITS);
    s := SymbolAt(lens, p, b);
    StreamInRange(lens, s, v);
  }

  lemma SymbolAt(lens: seq<nat>, p: nat, b: nat) returns (s: nat)
    requires 1 <= b <= MAXBITS && BeginOf(lens, b) <= p < EndOf(lens, b)
    ensures s < |lens| && lens[s] == b && Place(lens, s) <= p < Place(lens, s) + Pow2(MAXBITS - b)
  {
    hide Shl, Shr, Low, NextCode, Pow2;
    var d := MAXBITS - b;
    var x := Shr(p, d);
    Split(p, d);
    LowBound(p, d);
    if x < NextCode(lens, b) { ShlMono(x, NextCode(lens, b), d); }
    if x >= NextCode(lens, b) + Count(lens, b) { ShlMono(NextCode(lens, b) + Count(lens, b), x, d); }
    s := FindNth(lens, |lens|, b, x - NextCode(lens, b));
  }
}
