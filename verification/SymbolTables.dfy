/**
  The constant tables of deps/zlib/trees.c (tr_static_init) against those of
  deps/zlib/inftrees.c: length and distance symbols with their extra bits.
 */
module SymbolTables {
  import opened Bits
  import opened InflateSpec

  const EXTRA_LBITS: seq<nat> := [
    0, 0, 0, 0, 0, 0, 0, 0, 1, 1, 1, 1, 2, 2, 2, 2, 3, 3, 3, 3, 4, 4, 4, 4, 5, 5, 5, 5, 0]
  const EXTRA_DBITS: seq<nat> := [
    0, 0, 0, 0, 1, 1, 2, 2, 3, 3, 4, 4, 5, 5, 6, 6, 7, 7, 8, 8, 9, 9, 10, 10, 11, 11, 12, 12, 13, 13]

  const LENGTH_CODES: nat := 29
  const D_CODES: nat := 30

  lemma PowersTo13()
    ensures Pow2(0) == 1 && Pow2(1) == 2 && Pow2(2) == 4 && Pow2(3) == 8 && Pow2(4) == 16 && Pow2(5) == 32
    ensures Pow2(6) == 64 && Pow2(7) == 128 && Pow2(8) == 256 && Pow2(9) == 512 && Pow2(10) == 1024
    ensures Pow2(11) == 2048 && Pow2(12) == 4096 && Pow2(13) == 8192
  {
    assert Pow2(0) == 1;
    assert Pow2(1) == 2 * Pow2(0);
    assert Pow2(2) == 2 * Pow2(1);
    assert Pow2(3) == 2 * Pow2(2);
    assert Pow2(4) == 2 * Pow2(3);
    assert Pow2(5) == 2 * Pow2(4);
    assert Pow2(6) == 2 * Pow2(5);
    assert Pow2(7) == 2 * Pow2(6);
    assert Pow2(8) == 2 * Pow2(7);
    assert Pow2(9) == 2 * Pow2(8);
    assert Pow2(10) == 2 * Pow2(9);
    assert Pow2(11) == 2 * Pow2(10);
    assert Pow2(12) == 2 * Pow2(11);
    assert Pow2(13) == 2 * Pow2(12);
  }

  lemma LengthBases0(c: nat)
    requires 0 <= c < 8
    ensures LBASE[c] + Pow2(EXTRA_LBITS[c]) == LBASE[c + 1]
    ensures LEXT[c] == 16 + EXTRA_LBITS[c] && LBASE[c] >= 3
  {
    hide Pow2;
    PowersTo13();
  }

  lemma LengthBases1(c: nat)
    requires 8 <= c < 16
    ensures LBASE[c] + Pow2(EXTRA_LBITS[c]) == LBASE[c + 1]
    ensures LEXT[c] == 16 + EXTRA_LBITS[c] && LBASE[c] >= 3
  {
    hide Pow2;
    PowersTo13();
  }

  lemma LengthBases2(c: nat)
    requires 16 <= c < 24
    ensures LBASE[c] + Pow2(EXTRA_LBITS[c]) == LBASE[c + 1]
    ensures LEXT[c] == 16 + EXTRA_LBITS[c] && LBASE[c] >= 3
  {
    hide Pow2;
    PowersTo13();
  }

  lemma LengthBases3(c: nat)
    requires 24 <= c < 28
    ensures LBASE[c] + Pow2(EXTRA_LBITS[c]) == (if c == 27 then 259 else LBASE[c + 1])
    ensures LEXT[c] == 16 + EXTRA_LBITS[c] && LBASE[c] >= 3
  {
    hide Pow2;
    PowersTo13();
  }

  /** The decoder's base of each length symbol is the encoder's running sum. */
  lemma LengthBases(c: nat)
    requires c < 28
    ensures LBASE[c] + Pow2(EXTRA_LBITS[c]) == (if c == 27 then 259 else LBASE[c + 1])
    ensures LEXT[c] == 16 + EXTRA_LBITS[c] && LBASE[c] >= 3
  {
    hide Pow2;
    if c < 8 { LengthBases0(c); } else if c < 16 { LengthBases1(c); } else if c < 24 { LengthBases2(c); } else { LengthBases3(c); }
  }

  lemma DistBases0(c: nat)
    requires 0 <= c < 8
    ensures DBASE[c] + Pow2(EXTRA_DBITS[c]) == DBASE[c + 1]
    ensures DEXT[c] == 16 + EXTRA_DBITS[c] && DBASE[c] >= 1
  {
    hide Pow2;
    PowersTo13();
  }

  lemma DistBases1(c: nat)
    requires 8 <= c < 16
    ensures DBASE[c] + Pow2(EXTRA_DBITS[c]) == DBASE[c + 1]
    ensures DEXT[c] == 16 + EXTRA_DBITS[c] && DBASE[c] >= 1
  {
    hide Pow2;
    PowersTo13();
  }

  lemma DistBases2(c: nat)
    requires 16 <= c < 24
    ensures DBASE[c] + Pow2(EXTRA_DBITS[c]) == DBASE[c + 1]
    ensures DEXT[c] == 16 + EXTRA_DBITS[c] && DBASE[c] >= 1
  {
    hide Pow2;
    PowersTo13();
  }

  lemma DistBases3(c: nat)
    requires 24 <= c < 30
    ensures DBASE[c] + Pow2(EXTRA_DBITS[c]) == (if c == 29 then 32769 else DBASE[c + 1])
    ensures DEXT[c] == 16 + EXTRA_DBITS[c] && DBASE[c] >= 1
  {
    hide Pow2;
    PowersTo13();
  }

  /** The decoder's base of each distance symbol is the encoder's running sum. */
  lemma DistBases(c: nat)
    requires c < 30
    ensures DBASE[c] + Pow2(EXTRA_DBITS[c]) == (if c == 29 then 32769 else DBASE[c + 1])
    ensures DEXT[c] == 16 + EXTRA_DBITS[c] && DBASE[c] >= 1
  {
    hide Pow2;
    if c < 8 { DistBases0(c); } else if c < 16 { DistBases1(c); } else if c < 24 { DistBases2(c); } else { DistBases3(c); }
  }

  // ----- the tables in closed form -------------------------------------------------------------

  lemma Lengths8(c: nat)
    requires 8 <= c < 16
    ensures EXTRA_LBITS[c] == (c - 4) / 4 && LBASE[c] == 3 + (4 + c % 4) * Pow2((c - 4) / 4) && LEXT[c] == 16 + EXTRA_LBITS[c]
  {
    hide Pow2;
    PowersTo13();
  }

  lemma Lengths16(c: nat)
    requires 16 <= c < 22
    ensures EXTRA_LBITS[c] == (c - 4) / 4 && LBASE[c] == 3 + (4 + c % 4) * Pow2((c - 4) / 4) && LEXT[c] == 16 + EXTRA_LBITS[c]
  {
    hide Pow2;
    PowersTo13();
  }

  lemma Lengths22(c: nat)
    requires 22 <= c < 28
    ensures EXTRA_LBITS[c] == (c - 4) / 4 && LBASE[c] == 3 + (4 + c % 4) * Pow2((c - 4) / 4) && LEXT[c] == 16 + EXTRA_LBITS[c]
  {
    hide Pow2;
    PowersTo13();
  }

  lemma LengthsEnds(c: nat)
    requires c < 8 || c == 28
    ensures LBASE[c] == (if c < 8 then 3 + c else 258) && EXTRA_LBITS[c] == 0 && LEXT[c] == 16
  {
  }

  /**
    Section 3.2.5 of RFC 1951: from the ninth symbol on, four length symbols at a time
    have one extra bit more; the last symbol is the length 258 alone.
   */
  lemma LengthFormula(c: nat)
    requires c < 29
    ensures c < 8 ==> LBASE[c] == 3 + c && EXTRA_LBITS[c] == 0
    ensures 8 <= c < 28 ==> EXTRA_LBITS[c] == (c - 4) / 4 && LBASE[c] == 3 + (4 + c % 4) * Pow2((c - 4) / 4)
    ensures c == 28 ==> LBASE[c] == 258 && EXTRA_LBITS[c] == 0
    ensures LEXT[c] == 16 + EXTRA_LBITS[c]
  {
    hide Pow2, LBASE, EXTRA_LBITS, LEXT;
    if c < 8 || c == 28 { LengthsEnds(c); }
    else if c < 16 { Lengths8(c); }
    else if c < 22 { Lengths16(c); }
    else { Lengths22(c); }
  }

  lemma Dists4(c: nat)
    requires 4 <= c < 13
    ensures EXTRA_DBITS[c] == c / 2 - 1 && DBASE[c] == 1 + (2 + c % 2) * Pow2(c / 2 - 1) && DEXT[c] == 16 + EXTRA_DBITS[c]
  {
    hide Pow2;
    PowersTo13();
  }

  lemma Dists13(c: nat)
    requires 13 <= c < 22
    ensures EXTRA_DBITS[c] == c / 2 - 1 && DBASE[c] == 1 + (2 + c % 2) * Pow2(c / 2 - 1) && DEXT[c] == 16 + EXTRA_DBITS[c]
  {
    hide Pow2;
    PowersTo13();
  }

  lemma Dists22(c: nat)
    requires 22 <= c < 30
    ensures EXTRA_DBITS[c] == c / 2 - 1 && DBASE[c] == 1 + (2 + c % 2) * Pow2(c / 2 - 1) && DEXT[c] == 16 + EXTRA_DBITS[c]
  {
    hide Pow2;
    PowersTo13();
  }

  lemma DistsStart(c: nat)
    requires c < 4
    ensures DBASE[c] == 1 + c && EXTRA_DBITS[c] == 0 && DEXT[c] == 16
  {
  }

  /** And two distance symbols at a time, from the fifth one on. */
  lemma DistFormula(c: nat)
    requires c < 30
    ensures c < 4 ==> DBASE[c] == 1 + c && EXTRA_DBITS[c] == 0
    ensures 4 <= c ==> EXTRA_DBITS[c] == c / 2 - 1 && DBASE[c] == 1 + (2 + c % 2) * Pow2(c / 2 - 1)
    ensures DEXT[c] == 16 + EXTRA_DBITS[c]
  {
    hide Pow2, DBASE, EXTRA_DBITS, DEXT;
    if c < 4 { DistsStart(c); }
    else if c < 13 { Dists4(c); }
    else if c < 22 { Dists13(c); }
    else { Dists22(c); }
  }

  // ----- what the tables say ----------------------------------------------------------------

  /** The shortest length of a length symbol, less MIN_MATCH. */
  function FirstLength(c: nat): nat
    requires c < LENGTH_CODES - 1
  {
    LengthBases(c);
    LBASE[c] - 3
  }

  function LengthExtra(c: nat): nat
    requires c < LENGTH_CODES
  {
    EXTRA_LBITS[c]
  }

  /** The shortest distance of a distance symbol, less one. */
  function FirstDist(c: nat): nat
    requires c < D_CODES
  {
    DistBases(c);
    DBASE[c] - 1
  }

  function DistExtra(c: nat): nat
    requires c < D_CODES
  {
    EXTRA_DBITS[c]
  }

  /** Normalized length x has symbol c. */
  ghost predicate LengthIn(base: seq<nat>, x: nat, c: nat) {
    if x == 255 then c == LENGTH_CODES - 1
    else c < LENGTH_CODES - 1 && |base| == LENGTH_CODES && base[c] == FirstLength(c) <= x < FirstLength(c) + Pow2(LengthExtra(c))
  }

  ghost predicate LengthTable(code: seq<nat>, base: seq<nat>) {
    |code| == 256 && |base| == LENGTH_CODES && forall x :: 0 <= x < 256 ==> LengthIn(base, x, code[x])
  }

  lemma LengthStep(c: nat)
    requires c < LENGTH_CODES - 1
    ensures FirstLength(c) + Pow2(LengthExtra(c)) == (if c == LENGTH_CODES - 2 then 256 else FirstLength(c + 1))
    ensures FirstLength(0) == 0
  {
    LengthBases(c);
  }

  lemma {:induction false} LengthBelow(c: nat)
    requires c < LENGTH_CODES - 1
    ensures FirstLength(c) + Pow2(LengthExtra(c)) <= 256
    decreases LENGTH_CODES - c
  {
    hide FirstLength, LengthExtra, Pow2;
    LengthStep(c);
    if c < LENGTH_CODES - 2 { LengthBelow(c + 1); }
  }

  /** The mapping from normalized length to length symbol. */
  method LengthTables() returns (code: array<nat>, base: array<nat>)
    ensures LengthTable(code[..], base[..])
  {
    hide FirstLength, LengthExtra, Pow2;
    code := new nat[256];
    base := new nat[LENGTH_CODES];
    LengthStep(0);
    var length, c := 0, 0;
    while c < LENGTH_CODES - 1
      invariant 0 <= c <= LENGTH_CODES - 1
      invariant length == if c == LENGTH_CODES - 1 then 256 else FirstLength(c)
      invariant forall k :: 0 <= k < c ==> base[k] == FirstLength(k)
      invariant forall x :: 0 <= x < length && x < 256 ==>
                  code[x] < c && FirstLength(code[x]) <= x < FirstLength(code[x]) + Pow2(LengthExtra(code[x]))
    {
      LengthBelow(c);
      LengthStep(c);
      base[c] := length;
      var n := 0;
      while n < Pow2(LengthExtra(c))
        invariant 0 <= n <= Pow2(LengthExtra(c)) && length == FirstLength(c) + n
        invariant forall k :: 0 <= k <= c ==> base[k] == FirstLength(k)
        invariant forall x :: 0 <= x < length && x < 256 ==>
                    code[x] <= c && FirstLength(code[x]) <= x < FirstLength(code[x]) + Pow2(LengthExtra(code[x]))
      {
        code[length] := c;
        length := length + 1;
        n := n + 1;
      }
      c := c + 1;
    }
    code[length - 1] := c;
  }

  /** d_code: the table has the first 256 distances, then one entry for every 128. */
  function DCode(code: seq<nat>, dist: nat): nat
    requires |code| == 512 && dist < 0x8000
  {
    if dist < 256 then code[dist] else code[256 + dist / 128]
  }

  ghost predicate DistTable(code: seq<nat>, base: seq<nat>) {
    && |code| == 512 && |base| == D_CODES
    && (forall c :: 0 <= c < D_CODES ==> base[c] == FirstDist(c))
    && (forall x :: 0 <= x < 256 ==> NearIn(code, x))
    && (forall x :: 2 <= x < 256 ==> FarIn(code, x))
  }

  ghost predicate NearIn(code: seq<nat>, x: nat)
    requires x < |code|
  {
    code[x] < D_CODES && FirstDist(code[x]) <= x < FirstDist(code[x]) + Pow2(DistExtra(code[x]))
  }

  /** All 128 distances of the entry have the symbol. */
  ghost predicate FarIn(code: seq<nat>, x: nat)
    requires 256 + x < |code|
  {
    var c := code[256 + x];
    c < D_CODES && FirstDist(c) <= 128 * x && 128 * x + 128 <= FirstDist(c) + Pow2(DistExtra(c))
  }

  /** Normalized distance x belongs to symbol d_code(x). */
  lemma DistIn(code: seq<nat>, base: seq<nat>, x: nat)
    requires DistTable(code, base) && x < 0x8000
    ensures var c := DCode(code, x);
            c < D_CODES && base[c] == FirstDist(c) <= x < FirstDist(c) + Pow2(DistExtra(c))
  {
    hide FirstDist, DistExtra, Pow2;
    if x < 256 { assert NearIn(code, x); } else { assert FarIn(code, x / 128); }
  }

  lemma DistStep(c: nat)
    requires c < D_CODES
    ensures FirstDist(c) + Pow2(DistExtra(c)) == (if c == D_CODES - 1 then 0x8000 else FirstDist(c + 1))
    ensures FirstDist(0) == 0
  {
    DistBases(c);
  }

  lemma {:induction false} DistBelow(c: nat)
    requires c < 16
    ensures FirstDist(c) + Pow2(DistExtra(c)) <= 256
    ensures c == 15 ==> FirstDist(c) + Pow2(DistExtra(c)) == 256 == FirstDist(16)
    decreases 16 - c
  {
    hide FirstDist, DistExtra, Pow2;
    DistStep(c);
    if c < 15 { DistBelow(c + 1); } else { Dist16(); }
  }

  lemma Dist16()
    ensures FirstDist(16) == 256
  {
  }

  lemma FarExtra(c: nat)
    requires 16 <= c < D_CODES
    ensures DistExtra(c) >= 7 && Pow2(DistExtra(c)) == 128 * Pow2(DistExtra(c) - 7)
  {
    hide Pow2;
    assert DistExtra(c) >= 7;
    var e := DistExtra(c) - 7;
    ShlIsMul(Pow2(7), e);
    ShlPow2(7, e);
    PowersTo13();
  }

  lemma {:induction false} FarBelow(c: nat)
    requires 16 <= c < D_CODES
    ensures FirstDist(c) + Pow2(DistExtra(c)) <= 0x8000
    decreases D_CODES - c
  {
    hide FirstDist, DistExtra, Pow2;
    DistStep(c);
    if c < D_CODES - 1 { FarBelow(c + 1); }
  }

  lemma NearMore(a: seq<nat>, b: seq<nat>, n: nat)
    requires |a| == |b| == 512 && n <= 256 && (forall x :: 0 <= x < n ==> b[x] == a[x])
    requires forall x :: 0 <= x < n ==> NearIn(a, x)
    ensures forall x :: 0 <= x < n ==> NearIn(b, x)
  {
    hide FirstDist, DistExtra, Pow2;
    forall x | 0 <= x < n ensures NearIn(b, x) { assert NearIn(a, x); }
  }

  lemma FarMore(a: seq<nat>, b: seq<nat>, n: nat)
    requires |a| == |b| == 512 && n <= 256 && (forall x :: 0 <= x < 256 + n ==> b[x] == a[x])
    requires forall x :: 2 <= x < n ==> FarIn(a, x)
    ensures forall x :: 2 <= x < n ==> FarIn(b, x)
  {
    hide FirstDist, DistExtra, Pow2;
    forall x | 2 <= x < n ensures FarIn(b, x) { assert FarIn(a, x); }
  }

  /** The mapping from normalized distance to distance symbol. */
  method DistTables() returns (code: array<nat>, base: array<nat>)
    ensures DistTable(code[..], base[..])
  {
    hide FirstDist, DistExtra, Pow2;
    code := new nat[512];
    base := new nat[D_CODES];
    DistStep(0);
    var dist, c := 0, 0;
    while c < 16
      invariant 0 <= c <= 16 && dist == FirstDist(c) <= 256 && (c == 16 ==> dist == 256)
      invariant forall k :: 0 <= k < c ==> base[k] == FirstDist(k)
      invariant forall x :: 0 <= x < dist ==> NearIn(code[..], x)
    {
      DistBelow(c);
      DistStep(c);
      base[c] := dist;
      var n := 0;
      while n < Pow2(DistExtra(c))
        invariant 0 <= n <= Pow2(DistExtra(c)) && dist == FirstDist(c) + n
        invariant forall k :: 0 <= k <= c ==> base[k] == FirstDist(k)
        invariant forall x :: 0 <= x < dist ==> NearIn(code[..], x)
      {
        ghost var before := code[..];
        code[dist] := c;
        NearMore(before, code[..], dist);
        dist := dist + 1;
        n := n + 1;
      }
      c := c + 1;
    }
    dist := dist / 128;
    while c < D_CODES
      invariant 16 <= c <= D_CODES && 2 <= dist && 128 * dist == (if c == D_CODES then 0x8000 else FirstDist(c))
      invariant forall k :: 0 <= k < c ==> base[k] == FirstDist(k)
      invariant forall x :: 0 <= x < 256 ==> NearIn(code[..], x)
      invariant forall x :: 2 <= x < dist && x < 256 ==> FarIn(code[..], x)
    {
      FarExtra(c);
      FarBelow(c);
      DistStep(c);
      base[c] := 128 * dist;
      var n := 0;
      while n < Pow2(DistExtra(c) - 7)
        invariant 0 <= n <= Pow2(DistExtra(c) - 7) && 2 <= dist && 128 * dist == FirstDist(c) + 128 * n
        invariant forall k :: 0 <= k <= c ==> base[k] == FirstDist(k)
        invariant forall x :: 0 <= x < 256 ==> NearIn(code[..], x)
        invariant forall x :: 2 <= x < dist && x < 256 ==> FarIn(code[..], x)
      {
        ghost var before := code[..];
        code[256 + dist] := c;
        NearMore(before, code[..], 256);
        FarMore(before, code[..], dist);
        dist := dist + 1;
        n := n + 1;
      }
      c := c + 1;
    }
  }
}
