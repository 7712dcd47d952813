/**
  Squaring modulo the CRC-32 polynomial, and where 32 squarings of x lead: back to
  x.  Squares of constants are worked out on 32-bit words, whose meaning as
  numbers is `Number`.
 */
module CrcCycle {
  import opened Bits
  import opened CrcPoly

  /** A 32-bit word as a number, bit by bit. */
  function Number(x: bv32): nat {
    if x == 0 then 0 else 2 * Number(x >> 1) + (if x & 1 == 1 then 1 else 0)
  }

  lemma HalfOf(x: bv32)
    ensures Number(x) / 2 == Number(x >> 1)
    ensures Number(x) % 2 == 1 <==> x & 1 == 1
  {
  }

  lemma XorHalves(x: bv32, y: bv32)
    ensures (x ^ y) >> 1 == (x >> 1) ^ (y >> 1)
    ensures (x ^ y) & 1 == 1 <==> ((x & 1 == 1) != (y & 1 == 1))
  {
  }

  lemma {:induction false} NumberXor(x: bv32, y: bv32)
    ensures Number(x ^ y) == Xor(Number(x), Number(y))
    decreases x, y
  {
    hide Number;
    XorHalves(x, y);
    HalfOf(x);
    HalfOf(y);
    HalfOf(x ^ y);
    ZeroWord();
    if x == 0 && y == 0 {
      assert x ^ y == 0;
    } else {
      NumberXor(x >> 1, y >> 1);
      XorStep(Number(x), Number(y));
    }
  }

  lemma ZeroWord()
    ensures Number(0) == 0 && Xor(0, 0) == 0
  {
  }

  // ----- squaring is linear ---------------------------------------------------------------------

  /** (s + m)^2 == s^2 + m^2 */
  lemma Frobenius(s: nat, m: nat)
    requires U32(s) && U32(m)
    ensures Mul(Xor(s, m), Xor(s, m)) == Xor(Mul(s, s), Mul(m, m))
  {
    hide Mul, Xor;
    var t := Xor(s, m);
    Pow2Bytes();
    XorBound(s, m, 32);
    RightLinear(t, s, m);
    MulComm(t, s);
    MulComm(t, m);
    MulComm(m, s);
    RightLinear(s, s, m);
    RightLinear(m, s, m);
    XorComm(Mul(m, s), Mul(m, m));
    Xor4(Mul(s, s), Mul(s, m), Mul(m, m), Mul(m, s));
    XorSelf(Mul(s, m));
    XorZero(Xor(Mul(s, s), Mul(m, m)));
  }

  lemma RightLinear(a: nat, b: nat, c: nat)
    ensures Mul(a, Xor(b, c)) == Xor(Mul(a, b), Mul(a, c))
  {
    MulRightLinear(a, 32, b, c);
  }

  /** The n low bits of a, each as a power of x: x^f for the highest, x^d more for each lower one. */
  ghost function PowerSum(a: nat, n: nat, f: nat, d: nat): nat {
    if n == 0 then 0 else Xor(if a % 2 == 1 then X(f + d * (n - 1)) else 0, PowerSum(a / 2, n - 1, f, d))
  }

  lemma {:induction false} PowerSumTop(a: nat, n: nat, f: nat, d: nat)
    requires n > 0
    ensures PowerSum(a, n, f, d) == Xor(if Bit(a, n - 1) then X(f) else 0, PowerSum(a, n - 1, f + d, d))
  {
    hide X, Xor;
    if n > 1 {
      var low, top := if a % 2 == 1 then X(f + d * (n - 1)) else 0, if Bit(a, n - 1) then X(f) else 0;
      assert f + d * (n - 1) == f + d + d * (n - 2);
      PowerSumTop(a / 2, n - 1, f, d);
      XorAssoc(low, top, PowerSum(a / 2, n - 2, f + d, d));
      XorComm(low, top);
      XorAssoc(top, low, PowerSum(a / 2, n - 2, f + d, d));
    } else {
      assert d * (n - 1) == 0;
    }
  }

  /** The square of a sum of powers is the sum of the squares. */
  lemma {:induction false} SquarePowerSum(a: nat, i: nat, e: nat)
    ensures var m := MulFrom(a, i, X(e)); U32(m) && Mul(m, m) == PowerSum(a, i, 2 * e, 2)
    decreases i
  {
    hide X, Xor, Mul;
    if i == 0 {
      MulOfZero();
    } else {
      var s, m := if Bit(a, i - 1) then X(e) else 0, MulFrom(a, i - 1, X(e + 1));
      NextPower(e);
      SquarePowerSum(a, i - 1, e + 1);
      PowerSumTop(a, i, 2 * e, 2);
      XNonZero(e);
      MulPowers(e, e);
      MulOfZero();
      Frobenius(s, m);
      Pow2Bytes();
      XorBound(s, m, 32);
    }
  }

  lemma NextPower(e: nat)
    ensures X(e + 1) == Shift(X(e))
  {
  }

  lemma MulOfZero()
    ensures Mul(0, 0) == 0
  {
    MulZero(0, 32);
  }

  lemma SquareIs(a: nat)
    requires U32(a)
    ensures Mul(a, a) == PowerSum(a, 32, 0, 2)
  {
    hide Mul;
    SquarePowerSum(a, 32, 0);
    MulByOne(a);
  }

  lemma MulByOne(a: nat)
    requires U32(a)
    ensures MulFrom(a, 32, X(0)) == a
  {
    MulUnit(a);
  }

  // ----- squares of words --------------------------------------------------------------------------

  function ShiftWord(c: bv32): bv32 {
    if c & 1 == 1 then (c >> 1) ^ 0xedb8_8320 else c >> 1
  }

  lemma PolyNumber()
    ensures Number(0xedb8_8320) == POLY && Number(0x8000_0000) == ONE
  {
    Nibble(0xedb8_8320);
    Nibble(0x0edb_8832);
    Nibble(0x00ed_b883);
    Nibble(0x000e_db88);
    Nibble(0x0000_edb8);
    Nibble(0x0000_0edb);
    Nibble(0x0000_00ed);
    Nibble(0x0000_000e);
    Nibble(0x8000_0000);
    Nibble(0x0800_0000);
    Nibble(0x0080_0000);
    Nibble(0x0008_0000);
    Nibble(0x0000_8000);
    Nibble(0x0000_0800);
    Nibble(0x0000_0080);
    Nibble(0x0000_0008);
  }

  /** Bits and halves, as names, so that proofs need not look into words. */
  predicate Has(x: bv32, mask: bv32) {
    x & mask == mask
  }

  function Half(x: bv32): bv32 {
    x >> 1
  }

  function Drop4(x: bv32): bv32 {
    x >> 4
  }

  function Sum(x: bv32, y: bv32): bv32 {
    x ^ y
  }

  lemma HalfSum(x: bv32)
    ensures Number(x) == 2 * Number(Half(x)) + (if Has(x, 1) then 1 else 0)
  {
    if x == 0 { assert x >> 1 == 0 && x & 1 == 0; }
  }

  lemma FourHalves(x: bv32)
    ensures Half(Half(Half(Half(x)))) == Drop4(x)
  {
  }

  lemma SecondBit(x: bv32)
    ensures Has(Half(x), 1) <==> Has(x, 2)
  {
  }

  lemma ThirdBit(x: bv32)
    ensures Has(Half(Half(x)), 1) <==> Has(x, 4)
  {
  }

  lemma FourthBit(x: bv32)
    ensures Has(Half(Half(Half(x))), 1) <==> Has(x, 8)
  {
  }

  lemma Nibble(x: bv32)
    ensures Number(x) == 16 * Number(Drop4(x)) + (if Has(x, 8) then 8 else 0) + (if Has(x, 4) then 4 else 0)
                       + (if Has(x, 2) then 2 else 0) + (if Has(x, 1) then 1 else 0)
  {
    hide Number, Has, Half, Drop4;
    FourHalves(x);
    SecondBit(x);
    ThirdBit(x);
    FourthBit(x);
    HalfSum(x);
    HalfSum(Half(x));
    HalfSum(Half(Half(x)));
    HalfSum(Half(Half(Half(x))));
  }

  lemma ShiftNumber(x: bv32)
    ensures Number(ShiftWord(x)) == Shift(Number(x))
  {
    hide Number, Xor;
    HalfOf(x);
    PolyNumber();
    XorZero(Number(x >> 1));
    NumberXor(x >> 1, 0xedb8_8320);
  }

  /** x^e as a word. */
  ghost function Power(e: nat): bv32 {
    if e == 0 then 0x8000_0000 else ShiftWord(Power(e - 1))
  }

  lemma {:induction false} PowerNumber(e: nat)
    ensures Number(Power(e)) == X(e)
  {
    hide Number, Shift, ShiftWord;
    PolyNumber();
    if e > 0 {
      PowerNumber(e - 1);
      ShiftNumber(Power(e - 1));
    }
  }

  // ----- the square of a word -----------------------------------------------------------------------

  function Choose(p: bool, a: bv32): bv32 {
    if p then a else 0
  }

  function Pick(x: bv32, a: bv32, b: bv32, c: bv32, d: bv32): bv32 {
    Sum(Choose(Has(x, 1), a), Sum(Choose(Has(x, 2), b), Sum(Choose(Has(x, 4), c), Choose(Has(x, 8), d))))
  }

  /** Bit i counts as x^(62 - 2 i). */
  function SquareWord(x: bv32): bv32 {
    var r7 := Pick(x >> 28, 0x0200_0000, 0x0800_0000, 0x2000_0000, 0x8000_0000);
    var r6 := Sum(Pick(x >> 24, 0x0002_0000, 0x0008_0000, 0x0020_0000, 0x0080_0000), r7);
    var r5 := Sum(Pick(x >> 20, 0x0000_0200, 0x0000_0800, 0x0000_2000, 0x0000_8000), r6);
    var r4 := Sum(Pick(x >> 16, 0x0000_0002, 0x0000_0008, 0x0000_0020, 0x0000_0080), r5);
    var r3 := Sum(Pick(x >> 12, 0xee0e_612c, 0x0edb_8832, 0x3b6e_20c8, 0xedb8_8320), r4);
    var r2 := Sum(Pick(x >> 8, 0x3236_6282, 0xc8d9_8a08, 0x9584_24a2, 0x3b83_984b), r3);
    var r1 := Sum(Pick(x >> 4, 0x0384_d46e, 0x0e13_51b8, 0x384d_46e0, 0xe135_1b80), r2);
    Sum(Pick(x, 0xaa09_c88b, 0xc5b4_28ef, 0xa032_af3e, 0xed59_b63b), r1)
  }

  lemma TwoPowers(e: nat)
    ensures Power(e + 2) == ShiftWord(ShiftWord(Power(e)))
  {
    hide ShiftWord;
    assert Power(e + 1) == ShiftWord(Power(e));
  }

  lemma Powers0()
    ensures Power(0) == 0x8000_0000 && Power(2) == 0x2000_0000 && Power(4) == 0x0800_0000 && Power(6) == 0x0200_0000
  {
    TwoPowers(0);
    TwoPowers(2);
    TwoPowers(4);
  }

  lemma Powers8()
    ensures Power(8) == 0x0080_0000 && Power(10) == 0x0020_0000 && Power(12) == 0x0008_0000 && Power(14) == 0x0002_0000
  {
    Powers0();
    TwoPowers(6);
    TwoPowers(8);
    TwoPowers(10);
    TwoPowers(12);
  }

  lemma Powers16()
    ensures Power(16) == 0x0000_8000 && Power(18) == 0x0000_2000 && Power(20) == 0x0000_0800 && Power(22) == 0x0000_0200
  {
    Powers8();
    TwoPowers(14);
    TwoPowers(16);
    TwoPowers(18);
    TwoPowers(20);
  }

  lemma Powers24()
    ensures Power(24) == 0x0000_0080 && Power(26) == 0x0000_0020 && Power(28) == 0x0000_0008 && Power(30) == 0x0000_0002
  {
    Powers16();
    TwoPowers(22);
    TwoPowers(24);
    TwoPowers(26);
    TwoPowers(28);
  }

  lemma Powers32()
    ensures Power(32) == 0xedb8_8320 && Power(34) == 0x3b6e_20c8 && Power(36) == 0x0edb_8832 && Power(38) == 0xee0e_612c
  {
    Powers24();
    TwoPowers(30);
    TwoPowers(32);
    TwoPowers(34);
    TwoPowers(36);
  }

  lemma Powers40()
    ensures Power(40) == 0x3b83_984b && Power(42) == 0x9584_24a2 && Power(44) == 0xc8d9_8a08 && Power(46) == 0x3236_6282
  {
    Powers32();
    TwoPowers(38);
    TwoPowers(40);
    TwoPowers(42);
    TwoPowers(44);
  }

  lemma Powers48()
    ensures Power(48) == 0xe135_1b80 && Power(50) == 0x384d_46e0 && Power(52) == 0x0e13_51b8 && Power(54) == 0x0384_d46e
  {
    Powers40();
    TwoPowers(46);
    TwoPowers(48);
    TwoPowers(50);
    TwoPowers(52);
  }

  lemma Powers56()
    ensures Power(56) == 0xed59_b63b && Power(58) == 0xa032_af3e && Power(60) == 0xc5b4_28ef && Power(62) == 0xaa09_c88b
  {
    Powers48();
    TwoPowers(54);
    TwoPowers(56);
    TwoPowers(58);
    TwoPowers(60);
  }

  lemma PowerSumStep(y: bv32, n: nat)
    ensures PowerSum(Number(y), n + 1, 0, 2) == Xor(if Has(y, 1) then X(2 * n) else 0, PowerSum(Number(Half(y)), n, 0, 2))
  {
    hide Number, X, Xor;
    HalfOf(y);
  }

  lemma ChooseNumber(p: bool, a: bv32)
    ensures Number(Choose(p, a)) == if p then Number(a) else 0
  {
    ZeroWord();
  }

  lemma SumNumber(x: bv32, y: bv32)
    ensures Number(Sum(x, y)) == Xor(Number(x), Number(y))
  {
    NumberXor(x, y);
  }

  lemma PickNumber(x: bv32, a: bv32, b: bv32, c: bv32, d: bv32)
    ensures Number(Pick(x, a, b, c, d))
         == Xor(if Has(x, 1) then Number(a) else 0, Xor(if Has(x, 2) then Number(b) else 0,
              Xor(if Has(x, 4) then Number(c) else 0, if Has(x, 8) then Number(d) else 0)))
  {
    hide Number, Xor, Has, Choose, Sum;
    ChooseNumber(Has(x, 1), a);
    ChooseNumber(Has(x, 2), b);
    ChooseNumber(Has(x, 4), c);
    ChooseNumber(Has(x, 8), d);
    var r := Sum(Choose(Has(x, 4), c), Choose(Has(x, 8), d));
    SumNumber(Choose(Has(x, 4), c), Choose(Has(x, 8), d));
    SumNumber(Choose(Has(x, 2), b), r);
    SumNumber(Choose(Has(x, 1), a), Sum(Choose(Has(x, 2), b), r));
  }

  lemma XorNest(a: nat, b: nat, c: nat, d: nat, r: nat)
    ensures Xor(Xor(a, Xor(b, Xor(c, d))), r) == Xor(a, Xor(b, Xor(c, Xor(d, r))))
  {
    hide Xor;
    XorAssoc(a, Xor(b, Xor(c, d)), r);
    XorAssoc(b, Xor(c, d), r);
    XorAssoc(c, d, r);
  }

  lemma AddNibble(y: bv32, m: nat, a: bv32, b: bv32, c: bv32, d: bv32, rest: bv32)
    requires PowerSum(Number(Drop4(y)), m, 0, 2) == Number(rest)
    requires a == Power(2 * m + 6) && b == Power(2 * m + 4) && c == Power(2 * m + 2) && d == Power(2 * m)
    ensures PowerSum(Number(y), m + 4, 0, 2) == Number(Sum(Pick(y, a, b, c, d), rest))
  {
    hide Number, X, Xor, PowerSum, Pick, Power, Has, Sum, Half, Drop4;
    FourHalves(y);
    SecondBit(y);
    ThirdBit(y);
    FourthBit(y);
    PowerSumStep(y, m + 3);
    PowerSumStep(Half(y), m + 2);
    PowerSumStep(Half(Half(y)), m + 1);
    PowerSumStep(Half(Half(Half(y))), m);
    PowerNumber(2 * m + 6);
    PowerNumber(2 * m + 4);
    PowerNumber(2 * m + 2);
    PowerNumber(2 * m);
    PickNumber(y, a, b, c, d);
    SumNumber(Pick(y, a, b, c, d), rest);
    XorNest(if Has(y, 1) then Number(a) else 0, if Has(y, 2) then Number(b) else 0,
            if Has(y, 4) then Number(c) else 0, if Has(y, 8) then Number(d) else 0, Number(rest));
  }

  lemma PowerSumNothing(a: nat)
    ensures PowerSum(a, 0, 0, 2) == 0 && Number(0) == 0
  {
  }

  lemma SumZero(x: bv32)
    ensures Sum(x, 0) == x
  {
  }

  lemma Fours(x: bv32)
    ensures Drop4(x) == x >> 4 && Drop4(x >> 4) == x >> 8 && Drop4(x >> 8) == x >> 12 && Drop4(x >> 12) == x >> 16
    ensures Drop4(x >> 16) == x >> 20 && Drop4(x >> 20) == x >> 24 && Drop4(x >> 24) == x >> 28 && Drop4(x >> 28) == 0
  {
  }

  lemma SquareNumber(x: bv32)
    requires U32(Number(x))
    ensures Number(SquareWord(x)) == Mul(Number(x), Number(x))
  {
    hide Number, Mul, PowerSum, Pick, Power, Sum, Drop4, Has;
    Powers0();
    Powers8();
    Powers16();
    Powers24();
    Powers32();
    Powers40();
    Powers48();
    Powers56();
    Fours(x);
    PowerSumNothing(Number(0));
    var r7 := Pick(x >> 28, 0x0200_0000, 0x0800_0000, 0x2000_0000, 0x8000_0000);
    AddNibble(x >> 28, 0, 0x0200_0000, 0x0800_0000, 0x2000_0000, 0x8000_0000, 0);
    SumZero(r7);
    var r6 := Sum(Pick(x >> 24, 0x0002_0000, 0x0008_0000, 0x0020_0000, 0x0080_0000), r7);
    AddNibble(x >> 24, 4, 0x0002_0000, 0x0008_0000, 0x0020_0000, 0x0080_0000, r7);
    var r5 := Sum(Pick(x >> 20, 0x0000_0200, 0x0000_0800, 0x0000_2000, 0x0000_8000), r6);
    AddNibble(x >> 20, 8, 0x0000_0200, 0x0000_0800, 0x0000_2000, 0x0000_8000, r6);
    var r4 := Sum(Pick(x >> 16, 0x0000_0002, 0x0000_0008, 0x0000_0020, 0x0000_0080), r5);
    AddNibble(x >> 16, 12, 0x0000_0002, 0x0000_0008, 0x0000_0020, 0x0000_0080, r5);
    var r3 := Sum(Pick(x >> 12, 0xee0e_612c, 0x0edb_8832, 0x3b6e_20c8, 0xedb8_8320), r4);
    AddNibble(x >> 12, 16, 0xee0e_612c, 0x0edb_8832, 0x3b6e_20c8, 0xedb8_8320, r4);
    var r2 := Sum(Pick(x >> 8, 0x3236_6282, 0xc8d9_8a08, 0x9584_24a2, 0x3b83_984b), r3);
    AddNibble(x >> 8, 20, 0x3236_6282, 0xc8d9_8a08, 0x9584_24a2, 0x3b83_984b, r3);
    var r1 := Sum(Pick(x >> 4, 0x0384_d46e, 0x0e13_51b8, 0x384d_46e0, 0xe135_1b80), r2);
    AddNibble(x >> 4, 24, 0x0384_d46e, 0x0e13_51b8, 0x384d_46e0, 0xe135_1b80, r2);
    AddNibble(x, 28, 0xaa09_c88b, 0xc5b4_28ef, 0xa032_af3e, 0xed59_b63b, r1);
    SquareIs(Number(x));
  }

  // ----- thirty-two squarings of x ------------------------------------------------------------------

  lemma Squared(k: nat, c: bv32, d: bv32)
    requires Number(c) == X(Pow2(k)) && SquareWord(c) == d
    ensures Number(d) == X(Pow2(k + 1))
  {
    hide Number, X, Mul, SquareWord;
    XNonZero(Pow2(k));
    SquareNumber(c);
    MulPowers(Pow2(k), Pow2(k));
    assert Pow2(k + 1) == Pow2(k) + Pow2(k);
  }

  lemma FirstPower()
    ensures Number(0x4000_0000) == X(Pow2(0)) == X(1)
  {
    hide Number, X;
    PowerNumber(1);
    PowZero();
    assert Power(1) == ShiftWord(Power(0)) == 0x4000_0000;
  }

  lemma Squarings8()
    ensures Number(0xed62_7dae) == X(Pow2(8))
  {
    hide Number, X, Pow2;
    FirstPower();
    Squared(0, 0x4000_0000, 0x2000_0000);
    Squared(1, 0x2000_0000, 0x0800_0000);
    Squared(2, 0x0800_0000, 0x0080_0000);
    Squared(3, 0x0080_0000, 0x0000_8000);
    Squared(4, 0x0000_8000, 0xedb8_8320);
    Squared(5, 0xedb8_8320, 0xb1e6_b092);
    Squared(6, 0xb1e6_b092, 0xa06a_2517);
    Squared(7, 0xa06a_2517, 0xed62_7dae);
  }

  lemma Squarings16()
    ensures Number(0x8385_2d0f) == X(Pow2(16))
  {
    hide Number, X, Pow2;
    Squarings8();
    Squared(8, 0xed62_7dae, 0x88d1_4467);
    Squared(9, 0x88d1_4467, 0xd7bb_fe6a);
    Squared(10, 0xd7bb_fe6a, 0xec44_7f11);
    Squared(11, 0xec44_7f11, 0x8e7e_a170);
    Squared(12, 0x8e7e_a170, 0x6427_800e);
    Squared(13, 0x6427_800e, 0x4d47_bae0);
    Squared(14, 0x4d47_bae0, 0x09fe_548f);
    Squared(15, 0x09fe_548f, 0x8385_2d0f);
  }

  lemma Squarings24()
    ensures Number(0xbad9_0e37) == X(Pow2(24))
  {
    hide Number, X, Pow2;
    Squarings16();
    Squared(16, 0x8385_2d0f, 0x3036_2f1a);
    Squared(17, 0x3036_2f1a, 0x7b5a_9cc3);
    Squared(18, 0x7b5a_9cc3, 0x31fe_c169);
    Squared(19, 0x31fe_c169, 0x9fec_022a);
    Squared(20, 0x9fec_022a, 0x6c8d_edc4);
    Squared(21, 0x6c8d_edc4, 0x15d6_874d);
    Squared(22, 0x15d6_874d, 0x5fde_7a4e);
    Squared(23, 0x5fde_7a4e, 0xbad9_0e37);
  }

  lemma Squarings32()
    ensures Number(0x4000_0000) == X(Pow2(32))
  {
    hide Number, X, Pow2;
    Squarings24();
    Squared(24, 0xbad9_0e37, 0x2e4e_5eef);
    Squared(25, 0x2e4e_5eef, 0x4eab_a214);
    Squared(26, 0x4eab_a214, 0xa8a4_72c0);
    Squared(27, 0xa8a4_72c0, 0x429a_969e);
    Squared(28, 0x429a_969e, 0x148d_302a);
    Squared(29, 0x148d_302a, 0xc40b_a6d0);
    Squared(30, 0xc40b_a6d0, 0xc4e2_2c3c);
    Squared(31, 0xc4e2_2c3c, 0x4000_0000);
  }

  /** x^(2^32) == x modulo p(x). */
  lemma SquaringsCycle()
    ensures X(Pow2(32)) == X(1)
  {
    hide Number, X, Pow2;
    FirstPower();
    Squarings32();
  }
}
