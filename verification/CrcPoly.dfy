/**
  Arithmetic of polynomials over GF(2) modulo the CRC-32 polynomial, in the
  reflected form of deps/zlib/crc32.c: bit 31 is the coefficient of x^0.
 */
module CrcPoly {
  import opened Bits

  const POLY: nat := 0xedb88320
  const ONE: nat := 0x8000_0000       // x^0
  const WIDTH: nat := 32

  /** Multiply by x modulo p(x): one step of the bit-at-a-time shift register. */
  function Shift(x: nat): nat {
    Xor(x / 2, if x % 2 == 1 then POLY else 0)
  }

  /** Multiply by x^n modulo p(x). */
  function Advance(n: nat, x: nat): nat {
    if n == 0 then x else Shift(Advance(n - 1, x))
  }

  /** x^n modulo p(x). */
  function X(n: nat): nat {
    Advance(n, ONE)
  }

  predicate Bit(a: nat, i: nat) {
    Shr(a, i) % 2 == 1
  }

  /** The sum of b * x^(i - 1 - j) over the bits j < i set in a. */
  function MulFrom(a: nat, i: nat, b: nat): nat {
    if i == 0 then 0
    else Xor(if Bit(a, i - 1) then b else 0, MulFrom(a, i - 1, Shift(b)))
  }

  /** The product of two 32-bit polynomials modulo p(x). */
  function Mul(a: nat, b: nat): nat {
    MulFrom(a, WIDTH, b)
  }

  predicate U32(x: nat) {
    x < 0x1_0000_0000
  }

  // ----- Shift and Advance are linear ------------------------------------------

  lemma ShiftLinear(a: nat, b: nat)
    ensures Shift(Xor(a, b)) == Xor(Shift(a), Shift(b))
  {
    var sa := if a % 2 == 1 then POLY else 0;
    var sb := if b % 2 == 1 then POLY else 0;
    XorStep(a, b);
    XorSelf(POLY);
    XorZero(POLY);
    assert Xor(0, 0) == 0;
    Xor4(a / 2, b / 2, sa, sb);
  }

  lemma {:induction false} AdvanceLinear(n: nat, a: nat, b: nat)
    ensures Advance(n, Xor(a, b)) == Xor(Advance(n, a), Advance(n, b))
  {
    if n > 0 {
      AdvanceLinear(n - 1, a, b);
      ShiftLinear(Advance(n - 1, a), Advance(n - 1, b));
    }
  }

  lemma {:induction false} AdvanceZero(n: nat)
    ensures Advance(n, 0) == 0
  {
    if n > 0 { AdvanceZero(n - 1); }
  }

  lemma {:induction false} AdvanceAdd(m: nat, n: nat, x: nat)
    ensures Advance(m + n, x) == Advance(m, Advance(n, x))
  {
    if m > 0 { AdvanceAdd(m - 1, n, x); }
  }

  lemma ShiftBound(x: nat)
    requires U32(x)
    ensures U32(Shift(x))
  {
    Pow2Bytes();
    XorBound(x / 2, if x % 2 == 1 then POLY else 0, 32);
  }

  lemma {:induction false} AdvanceBound(n: nat, x: nat)
    requires U32(x)
    ensures U32(Advance(n, x))
  {
    if n > 0 {
      AdvanceBound(n - 1, x);
      ShiftBound(Advance(n - 1, x));
    }
  }

  /** No power of x is zero: the low coefficient of p(x) is one. */
  lemma ShiftNonZero(x: nat)
    requires U32(x) && x > 0
    ensures Shift(x) > 0
  {
    if x % 2 == 1 {
      XorCancel(x / 2, POLY);
      XorZero(POLY);
    } else {
      XorZero(x / 2);
    }
  }

  lemma {:induction false} XNonZero(n: nat)
    ensures U32(X(n)) && X(n) > 0
  {
    if n > 0 {
      XNonZero(n - 1);
      ShiftBound(X(n - 1));
      ShiftNonZero(X(n - 1));
    }
  }

  // ----- Mul ---------------------------------------------------------------------

  lemma {:induction false} MulRightLinear(a: nat, i: nat, b: nat, c: nat)
    ensures MulFrom(a, i, Xor(b, c)) == Xor(MulFrom(a, i, b), MulFrom(a, i, c))
    decreases i
  {
    if i == 0 {
      assert Xor(0, 0) == 0;
    } else {
      var sb := if Bit(a, i - 1) then b else 0;
      var sc := if Bit(a, i - 1) then c else 0;
      assert Xor(0, 0) == 0;
      ShiftLinear(b, c);
      MulRightLinear(a, i - 1, Shift(b), Shift(c));
      Xor4(sb, sc, MulFrom(a, i - 1, Shift(b)), MulFrom(a, i - 1, Shift(c)));
    }
  }

  lemma {:induction false} MulRightShift(a: nat, i: nat, b: nat)
    ensures MulFrom(a, i, Shift(b)) == Shift(MulFrom(a, i, b))
    decreases i
  {
    if i == 0 {
      assert Shift(0) == Xor(0, 0) == 0;
    } else {
      var sb := if Bit(a, i - 1) then b else 0;
      assert Shift(0) == Xor(0, 0) == 0;
      ShiftLinear(sb, MulFrom(a, i - 1, Shift(b)));
      MulRightShift(a, i - 1, Shift(b));
    }
  }

  lemma {:induction false} MulRightAdvance(a: nat, n: nat, b: nat)
    ensures Mul(a, Advance(n, b)) == Advance(n, Mul(a, b))
  {
    if n > 0 {
      MulRightAdvance(a, n - 1, b);
      MulRightShift(a, 32, Advance(n - 1, b));
    }
  }

  lemma ShiftPow2(i: nat)
    ensures Shift(Pow2(i + 1)) == Pow2(i)
  {
    XorZero(Pow2(i));
  }

  lemma MulUnitStep(a: nat, i: nat)
    requires i > 1 && MulFrom(a, i - 1, Pow2(i - 2)) == Low(a, i - 1)
    ensures MulFrom(a, i, Pow2(i - 1)) == Low(a, i)
  {
    hide Low, Shift, Xor, Shr;
    LowTop(a, i);
    ShiftPow2(i - 2);
    LowBound(a, i - 1);
    XorDisjoint(1, Low(a, i - 1), i - 1);
    ShlPow2(0, i - 1);
    XorZero(Low(a, i - 1));
  }

  /** The low i bits of a are the sum of the powers its bits stand for. */
  lemma {:induction false} MulUnitFrom(a: nat, i: nat)
    requires i > 0
    ensures MulFrom(a, i, Pow2(i - 1)) == Low(a, i)
  {
    if i == 1 {
      XorZero(if Bit(a, 0) then 1 else 0);
      assert MulFrom(a, 0, Shift(Pow2(0))) == 0;
    } else {
      MulUnitFrom(a, i - 1);
      MulUnitStep(a, i);
    }
  }

  lemma {:induction false} LowTop(a: nat, i: nat)
    requires i > 0
    ensures Low(a, i) == (if Bit(a, i - 1) then Pow2(i - 1) else 0) + Low(a, i - 1)
  {
    if i > 1 { LowTop(a / 2, i - 1); }
  }

  lemma MulUnit(a: nat)
    requires U32(a)
    ensures Mul(a, ONE) == a
  {
    Pow2Bytes();
    assert Pow2(31) == ONE;
    MulUnitFrom(a, 32);
    LowSmall(a, 32);
  }

  /** a * x^n is a shifted n times: Mul agrees with the shift register. */
  lemma MulX(a: nat, n: nat)
    requires U32(a)
    ensures Mul(a, X(n)) == Advance(n, a)
  {
    MulRightAdvance(a, n, ONE);
    MulUnit(a);
  }

  lemma {:induction false} MulCommFrom(a: nat, i: nat, b: nat, n: nat)
    requires U32(b)
    ensures MulFrom(a, i, Advance(n, b)) == Mul(b, MulFrom(a, i, X(n)))
    decreases i
  {
    hide Xor, Shr;
    if i == 0 {
      MulZero(b, 32);
    } else {
      MulCommFrom(a, i - 1, b, n + 1);
      var sx := if Bit(a, i - 1) then X(n) else 0;
      MulZero(b, 32);
      MulX(b, n);
      MulRightLinear(b, 32, sx, MulFrom(a, i - 1, X(n + 1)));
    }
  }

  lemma {:induction false} MulZero(a: nat, i: nat)
    ensures MulFrom(a, i, 0) == 0
    decreases i
  {
    assert Shift(0) == Xor(0, 0) == 0;
    if i > 0 { MulZero(a, i - 1); }
  }

  lemma MulComm(a: nat, b: nat)
    requires U32(a) && U32(b)
    ensures Mul(a, b) == Mul(b, a)
  {
    MulCommFrom(a, 32, b, 0);
    MulUnit(a);
  }

  /** Powers of x multiply by adding exponents. */
  lemma MulPowers(m: nat, n: nat)
    ensures Mul(X(m), X(n)) == X(m + n)
  {
    XNonZero(m);
    MulX(X(m), n);
    AdvanceAdd(n, m, ONE);
  }

  /** Multiplying by x^n on either side advances the register n steps. */
  lemma MulByX(n: nat, b: nat)
    requires U32(b)
    ensures Mul(X(n), b) == Advance(n, b)
  {
    XNonZero(n);
    MulComm(X(n), b);
    MulX(b, n);
  }

  lemma {:induction false} MulExchange(a: nat, b: nat, i: nat, c: nat)
    ensures Mul(a, MulFrom(b, i, c)) == MulFrom(b, i, Mul(a, c))
    decreases i
  {
    MulZero(a, 32);
    if i > 0 {
      MulRightLinear(a, 32, if Bit(b, i - 1) then c else 0, MulFrom(b, i - 1, Shift(c)));
      MulExchange(a, b, i - 1, Shift(c));
      MulRightShift(a, 32, c);
    }
  }

  lemma {:induction false} MulBound(a: nat, i: nat, b: nat)
    requires U32(b)
    ensures U32(MulFrom(a, i, b))
    decreases i
  {
    if i > 0 {
      ShiftBound(b);
      MulBound(a, i - 1, Shift(b));
      Pow2Bytes();
      XorBound(if Bit(a, i - 1) then b else 0, MulFrom(a, i - 1, Shift(b)), 32);
    }
  }

  lemma MulAssoc(a: nat, b: nat, c: nat)
    requires U32(a) && U32(b) && U32(c)
    ensures Mul(Mul(a, b), c) == Mul(a, Mul(b, c))
  {
    MulBound(a, 32, b);
    MulComm(Mul(a, b), c);
    MulExchange(c, a, 32, b);
    MulComm(c, b);
  }

  /** Below degree 32 a power of x is a single bit, and x^32 reduces to the polynomial. */
  lemma {:induction false} XSmall(n: nat)
    requires n <= 31
    ensures X(n) == Pow2(31 - n)
  {
    if n == 0 {
      assert Pow2(16) == 0x1_0000 by { Pow2Bytes(); }
      Pow2Bytes();
      assert Pow2(32) == 2 * Pow2(31);
    } else {
      XSmall(n - 1);
      ShiftPow2(31 - n);
    }
  }
}
