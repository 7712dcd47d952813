/**
  deps/SFMT: the SIMD-oriented fast Mersenne twister in its portable form, for
  any recursion over 128-bit words and any sizes.  Every way of drawing numbers is
  measured against one sequence of words that the recursion defines.
 */
module Sfmt {
  import opened Bits


  /** A 128-bit word as four lanes of 32 bits. */
  datatype Quad = Quad(u0: nat, u1: nat, u2: nat, u3: nat)

  function Lane(w: Quad, k: nat): nat
    requires k < 4
  {
    if k == 0 then w.u0 else if k == 1 then w.u1 else if k == 2 then w.u2 else w.u3
  }

  /** A 64-bit word is two lanes of one 128-bit word. */
  lemma EvenLane(i: nat)
    requires i % 2 == 0
    ensures (i + 1) / 4 == i / 4 && (i + 1) % 4 == i % 4 + 1 && (i + 2) % 2 == 0
    ensures forall n: nat :: i < 4 * n ==> i + 2 <= 4 * n
  {
    var q, r := i / 4, i % 4;
    assert i == 4 * q + r && r != 3;
  }

  type Recursion = (Quad, Quad, Quad, Quad) -> Quad

  /** The sequence of 128-bit words that starts with the seed. */
  ghost function Stream(f: Recursion, seed: seq<Quad>, pos1: nat, k: nat): Quad
    requires 2 <= |seed| && pos1 < |seed|
  {
    if k < |seed| then seed[k]
    else f(Stream(f, seed, pos1, k - |seed|), Stream(f, seed, pos1, k - |seed| + pos1),
           Stream(f, seed, pos1, k - 2), Stream(f, seed, pos1, k - 1))
  }

  // How far back each word lies that the recursion is given: with a recursion that
  // returns that word the sequence repeats at this distance.

  /** n words back. */
  lemma {:induction false} FirstLag(f: Recursion, seed: seq<Quad>, pos1: nat, k: nat)
    requires 2 <= |seed| && pos1 < |seed| && forall a, b, c, d :: f(a, b, c, d) == a
    ensures Stream(f, seed, pos1, k) == seed[k % |seed|]
    decreases k
  {
    if k >= |seed| {
      FirstLag(f, seed, pos1, k - |seed|);
      BackBy(k, |seed|);
    }
  }

  /** n - pos1 words back. */
  lemma {:induction false} SecondLag(f: Recursion, seed: seq<Quad>, pos1: nat, k: nat)
    requires 2 <= |seed| && pos1 < |seed| && pos1 <= k && forall a, b, c, d :: f(a, b, c, d) == b
    ensures Stream(f, seed, pos1, k) == seed[pos1 + (k - pos1) % (|seed| - pos1)]
    decreases k
  {
    hide Stream;
    var n, lag := |seed|, |seed| - pos1;
    if k >= n {
      SecondStep(f, seed, pos1, k);
      SecondLag(f, seed, pos1, k - lag);
      BackBy(k - pos1, lag);
      assert k - lag - pos1 == k - pos1 - lag;
    } else {
      FromSeed(f, seed, pos1, k);
      Below(k - pos1, lag);
    }
  }

  lemma SecondStep(f: Recursion, seed: seq<Quad>, pos1: nat, k: nat)
    requires 2 <= |seed| && pos1 < |seed| <= k && forall a, b, c, d :: f(a, b, c, d) == b
    ensures Stream(f, seed, pos1, k) == Stream(f, seed, pos1, k - (|seed| - pos1))
  {
  }

  lemma FromSeed(f: Recursion, seed: seq<Quad>, pos1: nat, k: nat)
    requires 2 <= |seed| && pos1 < |seed| && k < |seed|
    ensures Stream(f, seed, pos1, k) == seed[k]
  {
  }

  lemma Below(x: nat, w: nat)
    requires x < w
    ensures x % w == x
  {
  }

  /** Two words back, and one. */
  lemma {:induction false} LastLags(f: Recursion, seed: seq<Quad>, pos1: nat, k: nat)
    requires 2 <= |seed| && pos1 < |seed| && |seed| - 2 <= k
    ensures (forall a, b, c, d :: f(a, b, c, d) == c) ==> Stream(f, seed, pos1, k) == seed[|seed| - 2 + (k - (|seed| - 2)) % 2]
    ensures (forall a, b, c, d :: f(a, b, c, d) == d) && |seed| <= k ==> Stream(f, seed, pos1, k) == seed[|seed| - 1]
    decreases k
  {
    if k >= |seed| {
      LastLags(f, seed, pos1, k - 2);
      if k > |seed| { LastLags(f, seed, pos1, k - 1); }
    }
  }

  class Generator {
    const recursion: Recursion
    const n: nat
    const pos1: nat
    const state: array<Quad>
    var idx: nat
    ghost const seed: seq<Quad>
    ghost var at: nat

    ghost predicate Sizes() {
      2 <= n && pos1 < n && state.Length == n == |seed|
    }

    ghost function Word128(k: nat): Quad
      requires Sizes()
    {
      Stream(recursion, seed, pos1, k)
    }

    lemma NextWord(k: nat, r1: Quad, r2: Quad)
      requires Sizes() && k >= n && Last(r1, r2, k)
      ensures Word128(k) == recursion(Word128(k - n), Word128(k - n + pos1), r1, r2)
      ensures Last(r2, Word128(k), k + 1)
    {
    }

    /** r1 and r2 are the two words before number k. */
    ghost predicate Last(r1: Quad, r2: Quad, k: nat)
      requires Sizes()
    {
      k >= 2 && r1 == Word128(k - 2) && r2 == Word128(k - 1)
    }

    lemma LastOfState(r1: Quad, r2: Quad)
      requires Valid() && r1 == state[n - 2] && r2 == state[n - 1]
      ensures Last(r1, r2, at + n)
    {
      assert state[n - 2] == Word128(at + (n - 2)) && state[n - 1] == Word128(at + (n - 1));
    }

    /** The k-th 32-bit word. */
    ghost function Word32(k: nat): nat
      requires Sizes()
    {
      Lane(Word128(k / 4), k % 4)
    }

    /** The state is the n words of the sequence from number `at` on. */
    ghost predicate Valid()
      reads this, state
    {
      Sizes() && idx <= 4 * n && forall j :: 0 <= j < n ==> state[j] == Word128(at + j)
    }

    /** The number of the next 32-bit word. */
    ghost function Position(): nat
      reads this
    {
      4 * at + idx
    }

    /** A seeded state: the first draw comes after it. */
    constructor (recursion: Recursion, pos1: nat, seed: seq<Quad>)
      requires 2 <= |seed| && pos1 < |seed|
      ensures Valid() && fresh(state) && Position() == 4 * n && idx == 4 * n
      ensures this.recursion == recursion && this.pos1 == pos1 && this.seed == seed && n == |seed|
    {
      this.recursion := recursion;
      this.pos1 := pos1;
      this.n := |seed|;
      this.seed := seed;
      state := new Quad[|seed|](i requires 0 <= i < |seed| => seed[i]);
      idx := 4 * |seed|;
      at := 0;
    }

    /** sfmt_gen_rand_all: the next n words, in place. */
    method GenRandAll()
      requires Valid()
      modifies this`at, state
      ensures Valid() && at == old(at) + n
    {
      hide Stream, Word128, Last;
      var r1, r2, i := n - 2, n - 1, 0;
      LastOfState(state[r1], state[r2]);
      while i < n - pos1
        invariant 0 <= i <= n - pos1 && at == old(at)
        invariant Follows(r1, r2, i) && Last(state[r1], state[r2], at + n + i)
        invariant forall j :: 0 <= j < n ==> state[j] == Word128(if j < i then at + n + j else at + j)
      {
        NextWord(at + n + i, state[r1], state[r2]);
        state[i] := recursion(state[i], state[i + pos1], state[r1], state[r2]);
        r1 := r2;
        r2 := i;
        i := i + 1;
      }
      while i < n
        invariant n - pos1 <= i <= n && at == old(at)
        invariant Follows(r1, r2, i) && Last(state[r1], state[r2], at + n + i)
        invariant forall j :: 0 <= j < n ==> state[j] == Word128(if j < i then at + n + j else at + j)
      {
        NextWord(at + n + i, state[r1], state[r2]);
        state[i] := recursion(state[i], state[i + pos1 - n], state[r1], state[r2]);
        r1 := r2;
        r2 := i;
        i := i + 1;
      }
      at := at + n;
    }

    /** r1 and r2 are the places of the last two words before the i-th new one. */
    ghost predicate Follows(r1: int, r2: int, i: nat)
    {
      && 2 <= n
      && r2 == (if i == 0 then n - 1 else i - 1)
      && r1 == (if i == 0 then n - 2 else if i == 1 then n - 1 else i - 2)
    }

    /** New words when the old ones are used up. */
    method Refill()
      requires Valid()
      modifies this, state
      ensures Valid() && idx < 4 * n && Position() == old(Position())
      ensures idx == if old(idx) >= 4 * n then 0 else old(idx)
    {
      hide Stream, Word128;
      if idx >= 4 * n {
        GenRandAll();
        idx := 0;
      }
    }

    /** The word at a place of the state. */
    lemma LaneAt(i: nat)
      requires Valid() && i < 4 * n
      ensures Lane(state[i / 4], i % 4) == Word32(4 * at + i)
    {
      hide Stream, Lane, Word128;
      assert (4 * at + i) / 4 == at + i / 4 && (4 * at + i) % 4 == i % 4;
      assert state[i / 4] == Word128(at + i / 4);
    }

    /** sfmt_genrand_uint32 */
    method GenrandUint32() returns (r: nat)
      requires Valid()
      modifies this, state
      ensures Valid() && r == Word32(old(Position())) && Position() == old(Position()) + 1
    {
      hide Stream, Lane, Word128, Word32;
      Refill();
      LaneAt(idx);
      r := Lane(state[idx / 4], idx % 4);
      idx := idx + 1;
    }

    /** sfmt_genrand_uint64, on a little-endian machine */
    method GenrandUint64() returns (r: nat)
      requires Valid() && idx % 2 == 0
      modifies this, state
      ensures Valid() && idx % 2 == 0 && Position() == old(Position()) + 2
      ensures r == Word32(old(Position())) + 0x1_0000_0000 * Word32(old(Position()) + 1)
    {
      hide Stream, Lane, Word128, Word32;
      Refill();
      EvenLane(idx);
      LaneAt(idx);
      LaneAt(idx + 1);
      var w := state[idx / 4];
      r := Lane(w, idx % 4) + 0x1_0000_0000 * Lane(w, idx % 4 + 1);
      idx := idx + 2;
    }

    /** The first n words of gen_rand_array, from the state and from each other. */
    method FirstWords(out: array<Quad>) returns (r1: Quad, r2: Quad)
      requires Valid() && out != state && out.Length >= n
      modifies out
      ensures Last(r1, r2, at + n + n)
      ensures forall k :: 0 <= k < n ==> out[k] == Word128(at + n + k)
    {
      hide Stream, Word128, Last;
      r1, r2 := state[n - 2], state[n - 1];
      LastOfState(r1, r2);
      var i := 0;
      while i < n - pos1
        invariant 0 <= i <= n - pos1 && Last(r1, r2, at + n + i)
        invariant forall k :: 0 <= k < i ==> out[k] == Word128(at + n + k)
      {
        NextWord(at + n + i, r1, r2);
        out[i] := recursion(state[i], state[i + pos1], r1, r2);
        r1 := r2;
        r2 := out[i];
        i := i + 1;
      }
      while i < n
        invariant n - pos1 <= i <= n && Last(r1, r2, at + n + i)
        invariant forall k :: 0 <= k < i ==> out[k] == Word128(at + n + k)
      {
        NextWord(at + n + i, r1, r2);
        out[i] := recursion(state[i], out[i + pos1 - n], r1, r2);
        r1 := r2;
        r2 := out[i];
        i := i + 1;
      }
    }

    /** The words that leave the state alone: all but the last n. */
    method MiddleWords(out: array<Quad>, p1: Quad, p2: Quad) returns (r1: Quad, r2: Quad, i: nat)
      requires Valid() && out != state && out.Length >= n && Last(p1, p2, at + n + n)
      requires forall k :: 0 <= k < n ==> out[k] == Word128(at + n + k)
      modifies out
      ensures Last(r1, r2, at + n + i) && i == if n < out.Length - n then out.Length - n else n
      ensures forall k :: 0 <= k < i ==> out[k] == Word128(at + n + k)
    {
      hide Stream, Word128, Last;
      r1, r2, i := p1, p2, n;
      while i < out.Length - n
        invariant n <= i && (i <= out.Length - n || i == n) && Last(r1, r2, at + n + i)
        invariant forall k :: 0 <= k < i ==> out[k] == Word128(at + n + k)
      {
        NextWord(at + n + i, r1, r2);
        out[i] := recursion(out[i - n], out[i + pos1 - n], r1, r2);
        r1 := r2;
        r2 := out[i];
        i := i + 1;
      }
    }

    /**
      gen_rand_array: `out` is filled with the words after the state, and the last
      n of them become the state.  Where 2 n > |out|, the state is part copied
      from words already there and part taken as they are made.
     */
    method GenRandArray(out: array<Quad>)
      requires Valid() && out != state && out.Length >= n
      modifies this`at, state, out
      ensures Valid() && at == old(at) + out.Length
      ensures forall k :: 0 <= k < out.Length ==> out[k] == Word128(old(at) + n + k)
    {
      hide Stream, Word128, Last;
      var size := out.Length;
      var r1, r2 := FirstWords(out);
      var i;
      r1, r2, i := MiddleWords(out, r1, r2);
      var j := 0;
      while j < 2 * n - size
        invariant at == old(at) && 0 <= j && (j <= 2 * n - size || j == 0)
        invariant forall k :: 0 <= k < i ==> out[k] == Word128(at + n + k)
        invariant forall m :: 0 <= m < j ==> state[m] == Word128(at + size + m)
      {
        assert at + n + (j + size - n) == at + size + j;
        state[j] := out[j + size - n];
        j := j + 1;
      }
      while i < size
        invariant n <= i <= size && i - j == size - n && j <= n && Last(r1, r2, at + n + i)
        invariant at == old(at)
        invariant forall k :: 0 <= k < i ==> out[k] == Word128(at + n + k)
        invariant forall m :: 0 <= m < j ==> state[m] == Word128(at + size + m)
      {
        NextWord(at + n + i, r1, r2);
        out[i] := recursion(out[i - n], out[i + pos1 - n], r1, r2);
        r1 := r2;
        r2 := out[i];
        state[j] := out[i];
        i, j := i + 1, j + 1;
      }
      at := at + size;
    }

    /** sfmt_fill_array32 for an array of 4 |out| words */
    method FillArray32(out: array<Quad>)
      requires Valid() && out != state && idx == 4 * n && 4 * out.Length >= 4 * n
      modifies this, state, out
      ensures Valid() && idx == 4 * n && Position() == old(Position()) + 4 * out.Length
      ensures forall k :: 0 <= k < 4 * out.Length ==> Lane(out[k / 4], k % 4) == Word32(old(Position()) + k)
    {
      GenRandArray(out);
      idx := 4 * n;
    }

    /** sfmt_fill_array64 for an array of 2 |out| words, each of two lanes */
    method FillArray64(out: array<Quad>)
      requires Valid() && out != state && idx == 4 * n && 2 * out.Length >= 2 * n
      modifies this, state, out
      ensures Valid() && idx == 4 * n && Position() == old(Position()) + 4 * out.Length
      ensures forall k :: 0 <= k < 4 * out.Length ==> Lane(out[k / 4], k % 4) == Word32(old(Position()) + k)
    {
      GenRandArray(out);
      idx := 4 * n;
    }
  }

  /** Lanes of an array, in order. */
  ghost function Lanes(out: seq<Quad>): (words: seq<nat>)
    ensures |words| == 4 * |out|
  {
    seq(4 * |out|, k requires 0 <= k < 4 * |out| => Lane(out[k / 4], k % 4))
  }

  /** Two generators over the same sequence. */
  ghost predicate Alike(g: Generator, h: Generator) {
    g.recursion == h.recursion && g.seed == h.seed && g.n == h.n && g.pos1 == h.pos1
  }

  /**
    Bulk generation against single draws: from the same place the same words, and
    the same place afterwards, so that all later draws agree.
   */
  method FillAgainstDraws(g: Generator, h: Generator, out: array<Quad>) returns (words: seq<nat>)
    requires g.Valid() && h.Valid() && Alike(g, h) && g.Position() == h.Position() && g.idx == 4 * g.n
    requires g != h && g.state != h.state && out !in {g.state, h.state} && out.Length >= g.n
    modifies g, g.state, h, h.state, out
    ensures words == Lanes(out[..])
    ensures g.Valid() && h.Valid() && g.Position() == h.Position()
  {
    ghost var p := g.Position();
    g.FillArray32(out);
    words := [];
    while |words| < 4 * out.Length
      invariant h.Valid() && |words| <= 4 * out.Length && h.Position() == p + |words|
      invariant g.Valid() && g.Position() == p + 4 * out.Length
      invariant forall k :: 0 <= k < 4 * out.Length ==> Lane(out[k / 4], k % 4) == g.Word32(p + k)
      invariant forall k :: 0 <= k < |words| ==> words[k] == g.Word32(p + k)
    {
      var w := h.GenrandUint32();
      words := words + [w];
    }
  }
}
