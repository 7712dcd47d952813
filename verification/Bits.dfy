/**
  Bits of natural numbers.  A machine word is a natural number below a power of
  two; `x >> n`, `x & (2^n - 1)`, `x << n` and `x ^ y` of the source are
  `Shr(x, n)`, `Low(x, n)`, `Shl(x, n)` and `Xor(x, y)`.
 */
module Bits {

  function Pow2(n: nat): (r: nat)
    ensures r > 0
  {
    if n == 0 then 1 else 2 * Pow2(n - 1)
  }

  lemma {:induction false} Pow2Mono(m: nat, n: nat)
    requires m <= n
    ensures Pow2(m) <= Pow2(n)
  {
    if m < n { Pow2Mono(m, n - 1); }
  }

  lemma PowZero()
    ensures Pow2(0) == 1
  {
  }

  function Shl(x: nat, n: nat): nat {
    if n == 0 then x else 2 * Shl(x, n - 1)
  }

  function Shr(x: nat, n: nat): nat {
    if n == 0 then x else Shr(x / 2, n - 1)
  }

  function Low(x: nat, n: nat): nat {
    if n == 0 then 0 else 2 * Low(x / 2, n - 1) + x % 2
  }

  /** Exclusive or, bit by bit. */
  function Xor(a: nat, b: nat): nat {
    if a == 0 && b == 0 then 0
    else 2 * Xor(a / 2, b / 2) + (if a % 2 == b % 2 then 0 else 1)
  }

  // ----- multiples ---------------------------------------------------------------

  lemma SmallMultiple(w: nat, k: int)
    requires 0 < w && 0 - w < w * k < w
    ensures k == 0
  {
    Grows(w, k);
  }

  lemma Grows(w: nat, k: int)
    ensures k >= 1 ==> w * k >= w
    ensures k <= -1 ==> w * k <= 0 - w
  {
    assert w * k == w + w * (k - 1);
    assert w * k == w * (k + 1) - w;
  }

  /** Remainders repeat. */
  lemma BackBy(x: nat, w: nat)
    requires 0 < w <= x
    ensures (x - w) % w == x % w
  {
    var q, r, q1, r1 := x / w, x % w, (x - w) / w, (x - w) % w;
    assert x == w * q + r && x - w == w * q1 + r1;
    Spread(w, q, q1);
    SmallMultiple(w, q - 1 - q1);
  }

  lemma Spread(w: nat, a: int, b: int)
    ensures w * (a - 1 - b) == w * a - w - w * b
  {
  }

  // ----- shifts ----------------------------------------------------------------

  lemma {:induction false} LowBound(x: nat, n: nat)
    ensures Low(x, n) < Pow2(n)
  {
    if n > 0 { LowBound(x / 2, n - 1); }
  }

  /** A number is its high part shifted up plus its low part. */
  lemma {:induction false} Split(x: nat, n: nat)
    ensures x == Shl(Shr(x, n), n) + Low(x, n)
  {
    if n > 0 { Split(x / 2, n - 1); }
  }

  /** The only way to split a number into a high part and n low bits. */
  lemma {:induction false} Join(hi: nat, lo: nat, n: nat)
    requires lo < Pow2(n)
    ensures Shr(Shl(hi, n) + lo, n) == hi
    ensures Low(Shl(hi, n) + lo, n) == lo
  {
    if n > 0 {
      var x := Shl(hi, n) + lo;
      assert x == 2 * (Shl(hi, n - 1) + lo / 2) + lo % 2;
      Join(hi, lo / 2, n - 1);
    }
  }

  lemma {:induction false} LowSmall(x: nat, n: nat)
    requires x < Pow2(n)
    ensures Low(x, n) == x && Shr(x, n) == 0
  {
    if n > 0 { LowSmall(x / 2, n - 1); }
  }

  lemma {:induction false} ShrSmall(x: nat, n: nat)
    requires Shr(x, n) == 0
    ensures x < Pow2(n)
  {
    if n > 0 { ShrSmall(x / 2, n - 1); }
  }

  lemma {:induction false} ShlAdd(a: nat, b: nat, n: nat)
    ensures Shl(a + b, n) == Shl(a, n) + Shl(b, n)
  {
    if n > 0 { ShlAdd(a, b, n - 1); }
  }

  lemma {:induction false} ShlMono(a: nat, b: nat, n: nat)
    requires a <= b
    ensures Shl(a, n) <= Shl(b, n)
    ensures a < b ==> Shl(a, n) + Pow2(n) <= Shl(b, n)
  {
    if n > 0 { ShlMono(a, b, n - 1); }
  }

  lemma {:induction false} ShlShl(x: nat, m: nat, n: nat)
    ensures Shl(Shl(x, m), n) == Shl(x, m + n)
  {
    if n > 0 { ShlShl(x, m, n - 1); }
  }

  lemma {:induction false} ShlOne(n: nat)
    ensures Shl(1, n) == Pow2(n) && Shl(0, n) == 0
  {
    if n > 0 { ShlOne(n - 1); }
  }

  lemma {:induction false} ShlPow2(m: nat, n: nat)
    ensures Shl(Pow2(m), n) == Pow2(m + n)
  {
    if n > 0 { ShlPow2(m, n - 1); }
  }

  lemma {:induction false} ShrShr(x: nat, m: nat, n: nat)
    ensures Shr(Shr(x, m), n) == Shr(x, m + n)
  {
    if m > 0 { ShrShr(x / 2, m - 1, n); }
  }

  lemma {:induction false} LowShr(x: nat, m: nat, n: nat)
    ensures Low(Shr(x, m), n) == Shr(Low(x, m + n), m)
    ensures Low(Low(x, m + n), m) == Low(x, m)
  {
    if m > 0 { LowShr(x / 2, m - 1, n); } else { LowBound(x, n); LowSmall(Low(x, n), n); }
  }

  lemma {:induction false} ShlIsMul(x: nat, n: nat)
    ensures Shl(x, n) == x * Pow2(n)
  {
    if n > 0 {
      ShlIsMul(x, n - 1);
      assert 2 * (x * Pow2(n - 1)) == x * (2 * Pow2(n - 1));
    }
  }

  lemma Pow2Bytes()
    ensures Pow2(8) == 256 && Pow2(16) == 0x1_0000 && Pow2(32) == 0x1_0000_0000
  {
    assert Pow2(4) == 16;
    assert Pow2(8) == 16 * Pow2(4);
    assert Pow2(12) == 16 * Pow2(8);
    assert Pow2(16) == 16 * Pow2(12);
    assert Pow2(20) == 16 * Pow2(16);
    assert Pow2(24) == 16 * Pow2(20);
    assert Pow2(28) == 16 * Pow2(24);
    assert Pow2(32) == 16 * Pow2(28);
  }

  lemma Shr8(x: nat)
    ensures Shr(x, 8) == x / 256 && Low(x, 8) == x % 256
  {
    Split(x, 8);
    LowBound(x, 8);
    Pow2Bytes();
    ShlIsMul(Shr(x, 8), 8);
  }

  // ----- exclusive or ------------------------------------------------------------

  lemma XorStep(a: nat, b: nat)
    ensures Xor(a, b) / 2 == Xor(a / 2, b / 2)
    ensures Xor(a, b) % 2 == if a % 2 == b % 2 then 0 else 1
  {
  }

  lemma {:induction false} XorZero(a: nat)
    ensures Xor(a, 0) == a && Xor(0, a) == a
  {
    if a > 0 { XorZero(a / 2); }
  }

  lemma {:induction false} XorSelf(a: nat)
    ensures Xor(a, a) == 0
  {
    if a > 0 { XorSelf(a / 2); }
  }

  lemma {:induction false} XorComm(a: nat, b: nat)
    ensures Xor(a, b) == Xor(b, a)
  {
    if a > 0 || b > 0 { XorComm(a / 2, b / 2); }
  }

  lemma {:induction false} XorAssoc(a: nat, b: nat, c: nat)
    ensures Xor(Xor(a, b), c) == Xor(a, Xor(b, c))
    decreases a + b + c
  {
    if a + b + c > 0 {
      XorStep(a, b);
      XorStep(b, c);
      XorStep(Xor(a, b), c);
      XorStep(a, Xor(b, c));
      XorAssoc(a / 2, b / 2, c / 2);
    }
  }

  lemma Xor4(a: nat, b: nat, c: nat, d: nat)
    ensures Xor(Xor(a, b), Xor(c, d)) == Xor(Xor(a, c), Xor(b, d))
  {
    XorAssoc(a, b, Xor(c, d));
    XorAssoc(b, c, d);
    XorComm(b, c);
    XorAssoc(c, b, d);
    XorAssoc(a, c, Xor(b, d));
  }

  /** x ^ y ^ y == x. */
  lemma XorCancel(x: nat, y: nat)
    ensures Xor(Xor(x, y), y) == x
  {
    XorAssoc(x, y, y);
    XorSelf(y);
    XorZero(x);
  }

  lemma {:induction false} XorParts(a: nat, b: nat, n: nat)
    ensures Shr(Xor(a, b), n) == Xor(Shr(a, n), Shr(b, n))
    ensures Low(Xor(a, b), n) == Xor(Low(a, n), Low(b, n))
    decreases n
  {
    hide Xor;
    if n == 0 {
      XorZero(0);
    } else {
      XorStep(a, b);
      XorParts(a / 2, b / 2, n - 1);
      XorStep(Low(a, n), Low(b, n));
    }
  }

  lemma XorBound(a: nat, b: nat, n: nat)
    requires a < Pow2(n) && b < Pow2(n)
    ensures Xor(a, b) < Pow2(n)
  {
    XorParts(a, b, n);
    LowSmall(a, n);
    LowSmall(b, n);
    ShrSmall(Xor(a, b), n);
  }

  /** Numbers without common bits add up without carries. */
  lemma {:induction false} XorDisjoint(hi: nat, lo: nat, n: nat)
    requires lo < Pow2(n)
    ensures Xor(Shl(hi, n), lo) == Shl(hi, n) + lo
    decreases n
  {
    if n == 0 {
      XorZero(hi);
    } else {
      XorDisjoint(hi, lo / 2, n - 1);
      XorStep(Shl(hi, n), lo);
    }
  }

  /** Inclusive or, bit by bit. */
  function Or(a: nat, b: nat): nat {
    if a == 0 && b == 0 then 0
    else 2 * Or(a / 2, b / 2) + (if a % 2 == 0 && b % 2 == 0 then 0 else 1)
  }

  /** Bits beside each other: the or is the sum. */
  lemma {:induction false} OrDisjoint(hi: nat, lo: nat, n: nat)
    requires lo < Pow2(n)
    ensures Or(lo, Shl(hi, n)) == lo + Shl(hi, n)
    decreases n
  {
    if n == 0 {
      OrZero(hi);
    } else {
      OrDisjoint(hi, lo / 2, n - 1);
      assert Shl(hi, n) / 2 == Shl(hi, n - 1) && Shl(hi, n) % 2 == 0;
    }
  }

  lemma {:induction false} OrZero(a: nat)
    ensures Or(0, a) == a
  {
    if a > 0 { OrZero(a / 2); }
  }
}
