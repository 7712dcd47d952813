/** The fixed codes of section 3.2.6 of RFC 1951, as tr_static_init of deps/zlib/trees.c builds them. */
module StaticTrees {
  import opened Bits
  import opened Canonical
  import opened BitLengths
  import opened SendTree
  import GenCodes

  /** static_ltree: codes 286 and 287 do not exist but belong to the code. */
  function StaticL(): (l: seq<nat>)
    ensures |l| == 288
  {
    seq(288, s => if s < 144 then 8 else if s < 256 then 9 else if s < 280 then 7 else 8)
  }

  function Fives(n: nat): (l: seq<nat>)
    ensures |l| == n
  {
    seq(n, _ => 5)
  }

  lemma {:induction false} CountRange(lens: seq<nat>, lo: nat, hi: nat, v: nat, b: nat)
    requires lo <= hi <= |lens| && forall i :: lo <= i < hi ==> lens[i] == v
    ensures CountTo(lens, hi, b) == CountTo(lens, lo, b) + (if v == b then hi - lo else 0)
    decreases hi
  {
    if lo < hi { CountRange(lens, lo, hi - 1, v, b); }
  }

  lemma StaticCount(b: nat)
    ensures Count(StaticL(), b) == if b == 7 then 24 else if b == 8 then 152 else if b == 9 then 112 else 0
  {
    hide CountTo;
    var l := StaticL();
    NoneCounted(l, b);
    CountRange(l, 0, 144, 8, b);
    CountRange(l, 144, 256, 9, b);
    CountRange(l, 256, 280, 7, b);
    CountRange(l, 280, 288, 8, b);
  }

  lemma NoneCounted(lens: seq<nat>, b: nat)
    ensures CountTo(lens, 0, b) == 0
  {
  }

  function StaticCounts(): (c: seq<nat>)
    ensures |c| == MAXBITS + 1
  {
    seq(MAXBITS + 1, b => if b == 7 then 24 else if b == 8 then 152 else if b == 9 then 112 else 0)
  }

  /** The fixed literal/length code is complete. */
  lemma StaticComplete()
    ensures Tally(StaticCounts(), StaticL()) && Prefix(StaticL()) && Complete(StaticL())
  {
    hide Count, Prefix, Complete, Kraft, Pow2, Shl;
    var bl := StaticCounts();
    forall b | 1 <= b <= MAXBITS ensures bl[b] == Count(StaticL(), b) { StaticCount(b); }
    StaticKraft();
    KraftOneIsComplete(bl, StaticL(), 9);
  }

  lemma StaticKraft()
    ensures Kraft(StaticCounts(), 9, 9) == Pow2(9)
  {
    var bl := StaticCounts();
    KraftZero(bl, 9, 6);
    assert Shl(24, 2) == 2 * Shl(24, 1) && Shl(24, 1) == 2 * Shl(24, 0);
    assert Shl(152, 1) == 2 * Shl(152, 0);
    assert Kraft(bl, 9, 7) == Kraft(bl, 9, 6) + Shl(24, 2);
    assert Kraft(bl, 9, 8) == Kraft(bl, 9, 7) + Shl(152, 1);
    assert Kraft(bl, 9, 9) == Kraft(bl, 9, 8) + Shl(112, 0);
    Pow2Bytes();
    assert Pow2(9) == 2 * Pow2(8);
  }

  /** All codes of five bits: the code of a symbol is the symbol. */
  lemma FivesCode(n: nat, s: nat)
    requires s < n
    ensures StreamCode(Fives(n), s) == Rev(5, s)
  {
    hide CountTo, Rev;
    var l := Fives(n);
    NoneCounted(l, 5);
    CountRange(l, 0, s, 5, 5);
    FivesNext(n);
  }

  lemma FivesNext(n: nat)
    ensures NextCode(Fives(n), 5) == 0
  {
    hide CountTo;
    var l := Fives(n);
    forall b | 1 <= b < 5 ensures Count(l, b) == 0 {
      NoneCounted(l, b);
      CountRange(l, 0, n, 5, b);
    }
    assert NextCode(l, 1) == 0;
    assert NextCode(l, 2) == 0;
    assert NextCode(l, 3) == 0;
    assert NextCode(l, 4) == 0;
  }

  /** All 32 codes of five bits are a complete code. */
  lemma FivesComplete()
    ensures Prefix(Fives(32)) && Complete(Fives(32))
  {
    hide Count, Prefix, Complete, Kraft, Pow2, Shl;
    var bl: seq<nat> := seq(MAXBITS + 1, b => if b == 5 then 32 else 0);
    forall b | 1 <= b <= MAXBITS ensures bl[b] == Count(Fives(32), b) { FivesCount(b); }
    FivesKraft(bl);
    KraftOneIsComplete(bl, Fives(32), 5);
  }

  lemma FivesCount(b: nat)
    ensures Count(Fives(32), b) == if b == 5 then 32 else 0
  {
    hide CountTo;
    NoneCounted(Fives(32), b);
    CountRange(Fives(32), 0, 32, 5, b);
  }

  lemma FivesKraft(bl: seq<nat>)
    requires |bl| == MAXBITS + 1 && bl[5] == 32 && forall b :: 1 <= b < 5 ==> bl[b] == 0
    ensures Kraft(bl, 5, 5) == Pow2(5)
  {
    KraftZero(bl, 5, 4);
    assert Pow2(5) == 2 * Pow2(4) && Pow2(4) == 2 * Pow2(3) && Pow2(3) == 2 * Pow2(2) && Pow2(2) == 2 * Pow2(1) && Pow2(1) == 2 * Pow2(0);
    assert Kraft(bl, 5, 5) == Kraft(bl, 5, 4) + Shl(32, 0);
  }

  /** The first codes of the three lengths. */
  lemma StaticNext()
    ensures NextCode(StaticL(), 7) == 0 && NextCode(StaticL(), 8) == 0x30 && NextCode(StaticL(), 9) == 0x190
  {
    hide Count;
    var l := StaticL();
    forall b | 1 <= b <= 9 ensures Count(l, b) == StaticCounts()[b] { StaticCount(b); }
    forall b | 1 <= b <= 7 ensures NextCode(l, b) == 0 { StaticStart(b); }
    assert NextCode(l, 8) == 2 * (NextCode(l, 7) + 24);
    assert NextCode(l, 9) == 2 * (NextCode(l, 8) + 152);
  }

  lemma {:induction false} StaticStart(b: nat)
    requires 1 <= b <= 7
    ensures NextCode(StaticL(), b) == 0
  {
    hide Count;
    if b > 1 {
      StaticCount(b - 1);
      StaticStart(b - 1);
    }
  }

  /** The table of section 3.2.6 of RFC 1951: lengths and codes, most significant bit first. */
  function FixedLength(s: nat): nat {
    if s < 144 then 8 else if s < 256 then 9 else if s < 280 then 7 else 8
  }

  function FixedCode(s: nat): nat {
    if s < 144 then 0x30 + s
    else if s < 256 then 0x190 + (s - 144)
    else if s < 280 then s - 256
    else 0xc0 + (s - 280)
  }

  /** The canonical code for the lengths has exactly these codes. */
  lemma StaticTable(s: nat)
    requires s < 288
    ensures StaticL()[s] == FixedLength(s) && CodeOf(StaticL(), s) == FixedCode(s)
    ensures StreamCode(StaticL(), s) == Rev(FixedLength(s), FixedCode(s))
  {
    hide CountTo, NextCode, Rev;
    var l := StaticL();
    var b := l[s];
    StaticNext();
    NoneCounted(l, b);
    CountRange(l, 0, if s < 144 then s else 144, 8, b);
    if s >= 144 {
      CountRange(l, 144, if s < 256 then s else 256, 9, b);
      if s >= 256 {
        CountRange(l, 256, if s < 280 then s else 280, 7, b);
        if s >= 280 { CountRange(l, 280, s, 8, b); }
      }
    }
  }

  /** The last part of tr_static_init: the codes of both fixed trees. */
  method StaticCodes() returns (lcodes: seq<nat>, dcodes: seq<nat>)
    ensures Coded(lcodes, StaticL()) && Coded(dcodes, Fives(30))
    ensures |lcodes| == 288 && |dcodes| == 30
    ensures forall s :: 0 <= s < 144 ==> lcodes[s] == Rev(8, 0x30 + s)
    ensures forall s :: 144 <= s < 256 ==> lcodes[s] == Rev(9, 0x190 + (s - 144))
    ensures forall s :: 256 <= s < 280 ==> lcodes[s] == Rev(7, s - 256)
    ensures forall s :: 280 <= s < 288 ==> lcodes[s] == Rev(8, 0xc0 + (s - 280))
    ensures forall s :: 0 <= s < 30 ==> dcodes[s] == Rev(5, s)
  {
    hide Prefix, Complete, Tally, StreamCode, Rev, StaticL;
    StaticComplete();
    var fc := new nat[288];
    GenCodes.GenCodes(fc, StaticL(), StaticCounts());
    lcodes := fc[..];
    forall s | 0 <= s < 288 ensures StaticL()[s] != 0 && lcodes[s] == StreamCode(StaticL(), s) { SomeLength(s); }
    var d := new nat[30];
    var n := 0;
    while n < 30
      invariant 0 <= n <= 30 && forall s :: 0 <= s < n ==> d[s] == Rev(5, s) == StreamCode(Fives(30), s)
    {
      FivesCode(30, n);
      d[n] := GenCodes.BiReverse(n, 5);
      n := n + 1;
    }
    dcodes := d[..];
    forall s | 0 <= s < 288 ensures lcodes[s] == Rev(FixedLength(s), FixedCode(s)) { StaticTable(s); }
  }

  lemma SomeLength(s: nat)
    requires s < 288
    ensures StaticL()[s] != 0
  {
  }
}
