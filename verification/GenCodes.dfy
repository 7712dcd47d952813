/**
  The encoder's side of deps/zlib/trees.c: bit reversal and the assignment of
  codes to the symbols of a tree whose lengths are known.
 */
module GenCodes {
  import opened Bits
  import opened Canonical

  /** bi_reverse */
  method BiReverse(code: nat, len: nat) returns (r: nat)
    requires 1 <= len
    ensures r == Rev(len, code)
  {
    var c, n, res := code, len, 0;
    ghost var i := 0;
    assert Rev(0, code) == 0;
    while n > 0
      invariant 0 <= n && i == len - n
      invariant c == Shr(code, i) && res == 2 * Rev(i, code)
    {
      RevTop(i + 1, code);
      ShrShr(code, i, 1);
      assert Shr(c, 1) == Shr(c / 2, 0);
      res := res + c % 2;          // res is even: this is res |= code & 1
      c := c / 2;
      res := 2 * res;
      n, i := n - 1, i + 1;
    }
    r := res / 2;
  }

  lemma NextCodeBound(lens: seq<nat>, b: nat)
    requires Prefix(lens) && 1 <= b <= MAXBITS
    ensures NextCode(lens, b) + Count(lens, b) <= 0x8000
  {
    assert Fits(lens, b);
    Pow2Mono(b, MAXBITS);
    assert Pow2(MAXBITS) == 0x8000 by { Pow2Bytes(); assert Pow2(16) == 2 * Pow2(15); }
  }

  /** The first loop of gen_codes; the cast to 16 bits loses nothing. */
  method FirstCodes(blCount: seq<nat>, ghost lens: seq<nat>) returns (next: array<nat>)
    requires Tally(blCount, lens) && Prefix(lens)
    ensures fresh(next) && next.Length == MAXBITS + 1
    ensures forall b :: 1 <= b <= MAXBITS ==> next[b] == NextCode(lens, b)
  {
    hide Prefix;
    next := new nat[MAXBITS + 1];
    var code := 0;
    var bits := 1;
    while bits <= MAXBITS
      invariant 1 <= bits <= MAXBITS + 1 && next.Length == MAXBITS + 1
      invariant code == if bits == 1 then 0 else NextCode(lens, bits - 1)
      invariant forall b :: 1 <= b < bits ==> next[b] == NextCode(lens, b)
    {
      code := 2 * (code + blCount[bits - 1]);
      NextCodeBound(lens, bits);
      next[bits] := code % 0x1_0000;
      bits := bits + 1;
    }
  }

  lemma CountNone(lens: seq<nat>)
    ensures forall b :: 1 <= b <= MAXBITS ==> CountTo(lens, 0, b) == 0
  {
  }

  /** Taking one code of a length moves to the next; the 16-bit counter does not wrap. */
  lemma CodeStep(lens: seq<nat>, n: nat)
    requires n < |lens| && ValidLens(lens) && Prefix(lens)
    ensures forall b :: 1 <= b <= MAXBITS && b != lens[n] ==> CountTo(lens, n + 1, b) == CountTo(lens, n, b)
    ensures lens[n] != 0 ==>
              var next := NextCode(lens, lens[n]) + CountTo(lens, n, lens[n]);
              && StreamCode(lens, n) == Rev(lens[n], next)
              && (next + 1) % 0x1_0000 == NextCode(lens, lens[n]) + CountTo(lens, n + 1, lens[n])
  {
    hide Prefix, Rev, NextCode;
    if lens[n] != 0 {
      NextCodeBound(lens, lens[n]);
      CountToMono(lens, n, |lens|, lens[n]);
    }
  }

  /**
    gen_codes: every symbol with a length gets its canonical code, reversed for
    the stream.  `fc` holds frequencies before and codes after, as the union in
    deps/zlib/deflate.h does; symbols without a length keep what they had.
   */
  method GenCodes(fc: array<nat>, lens: seq<nat>, blCount: seq<nat>)
    requires |lens| <= fc.Length && ValidLens(lens) && Prefix(lens) && Tally(blCount, lens)
    modifies fc
    ensures forall n :: 0 <= n < |lens| && lens[n] != 0 ==> fc[n] == StreamCode(lens, n)
    ensures forall n :: 0 <= n < fc.Length && (n >= |lens| || lens[n] == 0) ==> fc[n] == old(fc[n])
  {
    hide Prefix, Rev, Tally, NextCode, CountTo, StreamCode;
    CountNone(lens);
    var next := FirstCodes(blCount, lens);
    var n := 0;
    while n < |lens|
      invariant 0 <= n <= |lens| && next.Length == MAXBITS + 1 && fresh(next)
      invariant forall b :: 1 <= b <= MAXBITS ==> next[b] == NextCode(lens, b) + CountTo(lens, n, b)
      invariant forall i :: 0 <= i < n && lens[i] != 0 ==> fc[i] == StreamCode(lens, i)
      invariant forall i :: 0 <= i < fc.Length && (i >= n || lens[i] == 0) ==> fc[i] == old(fc[i])
    {
      var len := lens[n];
      CodeStep(lens, n);
      if len != 0 {
        var r := BiReverse(next[len], len);
        fc[n] := r;
        next[len] := (next[len] + 1) % 0x1_0000;
      }
      n := n + 1;
    }
  }
}
