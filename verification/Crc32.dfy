/**
  The CRC-32 of deps/zlib/crc32.c: the byte-wise table method, the braided
  little-endian method and the combination of two CRCs, against the CRC that
  shifts one bit at a time (section 8 of RFC 1952).
 */
module Crc32 {
  import opened Bits
  import opened CrcPoly
  import CrcCycle
  import opened Wrappers

  type Byte = x: nat | x < 256

  // ----- the reference -----------------------------------------------------------

  /** One byte into the register, low bit first. */
  function CrcByte(crc: nat, b: Byte): nat {
    Advance(8, Xor(crc, b))
  }

  /** The register after a buffer, without pre- or post-conditioning. */
  function CrcBytes(crc: nat, buf: seq<Byte>): nat
    decreases |buf|
  {
    if buf == [] then crc else CrcBytes(CrcByte(crc, buf[0]), buf[1..])
  }

  const ALL_ONES: nat := 0xffff_ffff

  /** The CRC of the bytes so far, updated with a buffer. */
  function Crc(crc: nat, buf: seq<Byte>): nat {
    Xor(CrcBytes(Xor(crc, ALL_ONES), buf), ALL_ONES)
  }

  lemma {:induction false} CrcBytesAppend(crc: nat, a: seq<Byte>, b: seq<Byte>)
    ensures CrcBytes(crc, a + b) == CrcBytes(CrcBytes(crc, a), b)
    decreases |a|
  {
    if a == [] {
      assert a + b == b;
    } else {
      assert (a + b)[1..] == a[1..] + b;
      CrcBytesAppend(CrcByte(crc, a[0]), a[1..], b);
    }
  }

  lemma {:induction false} CrcBytesBound(crc: nat, buf: seq<Byte>)
    requires U32(crc)
    ensures U32(CrcBytes(crc, buf))
    decreases |buf|
  {
    if buf != [] {
      Pow2Bytes();
      XorBound(crc, buf[0], 32);
      AdvanceBound(8, Xor(crc, buf[0]));
      CrcBytesBound(CrcByte(crc, buf[0]), buf[1..]);
    }
  }

  // ----- a buffer as one polynomial ------------------------------------------------

  /** The bytes as a little-endian number. */
  function LoadWord(bytes: seq<Byte>): nat {
    if bytes == [] then 0 else bytes[0] + 256 * LoadWord(bytes[1..])
  }

  lemma {:induction false} AdvanceShl(h: nat, n: nat)
    ensures Advance(n, Shl(h, n)) == h
  {
    if n > 0 {
      XorZero(Shl(h, n - 1));
      assert Shift(Shl(h, n)) == Shl(h, n - 1);
      assert Advance(1, Shl(h, n)) == Shift(Advance(0, Shl(h, n)));
      AdvanceAdd(n - 1, 1, Shl(h, n));
      AdvanceShl(h, n - 1);
    }
  }

  /** Splitting off the low byte: the rest arrives eight steps later. */
  lemma AdvanceSplit(e: nat, w: nat)
    requires e >= 8
    ensures Advance(e, w) == Xor(Advance(e, w % 256), Advance(e - 8, w / 256))
  {
    hide Advance, Xor;
    Shr8(w);
    Split(w, 8);
    LowBound(w, 8);
    XorDisjoint(w / 256, w % 256, 8);
    XorComm(Shl(w / 256, 8), w % 256);
    AdvanceLinear(e, w % 256, Shl(w / 256, 8));
    AdvanceAdd(e - 8, 8, Shl(w / 256, 8));
    AdvanceShl(w / 256, 8);
  }

  lemma PolynomialStep(crc: nat, b: Byte, rest: nat)
    ensures Advance(8, Xor(crc, b + 256 * rest)) == Xor(CrcByte(crc, b), rest)
  {
    hide Advance, Xor;
    var w := b + 256 * rest;
    AdvanceSplit(8, w);
    assert w % 256 == b && w / 256 == rest;
    AdvanceLinear(8, crc, w);
    AdvanceLinear(8, crc, b);
    AdvanceNone(rest);
    XorAssoc(Advance(8, crc), Advance(8, b), rest);
  }

  /** The CRC of a buffer is its polynomial, with the register added, times x^(8 * length). */
  lemma {:induction false} CrcIsPolynomial(crc: nat, buf: seq<Byte>)
    ensures CrcBytes(crc, buf) == Advance(8 * |buf|, Xor(crc, LoadWord(buf)))
    decreases |buf|
  {
    hide Advance, Xor, CrcByte;
    if buf == [] {
      XorZero(crc);
      AdvanceNone(crc);
    } else {
      CrcIsPolynomial(CrcByte(crc, buf[0]), buf[1..]);
      PolynomialStep(crc, buf[0], LoadWord(buf[1..]));
      AdvanceAdd(8 * |buf[1..]|, 8, Xor(crc, LoadWord(buf)));
    }
  }

  /** A zero register and a register: their CRCs differ by the register advanced. */
  lemma CrcSplitsRegister(crc: nat, buf: seq<Byte>)
    ensures CrcBytes(crc, buf) == Xor(CrcBytes(0, buf), Advance(8 * |buf|, crc))
  {
    CrcIsPolynomial(crc, buf);
    CrcIsPolynomial(0, buf);
    XorZero(LoadWord(buf));
    XorComm(crc, LoadWord(buf));
    AdvanceLinear(8 * |buf|, LoadWord(buf), crc);
  }

  /** The table step: shift out a byte and look it up. */
  lemma TableStep(crc: nat, b: Byte)
    ensures Xor(crc / 256, Advance(8, Xor(crc, b) % 256)) == CrcByte(crc, b)
  {
    var y := Xor(crc, b);
    AdvanceSplit(8, y);
    XorParts(crc, b, 8);
    Shr8(crc);
    Shr8(b);
    Shr8(y);
    XorZero(crc / 256);
    XorComm(crc / 256, Advance(8, y % 256));
  }

  // ----- tables and multiplication ---------------------------------------------------

  ghost predicate ByteTable(table: seq<nat>) {
    |table| == 256 && forall i :: 0 <= i < 256 ==> table[i] == Advance(8, i)
  }

  /** The inner loop of make_crc_table: eight steps of the shift register. */
  method EightShifts(i: nat) returns (p: nat)
    ensures p == Advance(8, i)
  {
    p := i;
    var j := 0;
    while j < 8
      invariant 0 <= j <= 8
      invariant p == Advance(j, i)
    {
      XorZero(p / 2);
      p := if p % 2 == 1 then Xor(p / 2, POLY) else p / 2;
      j := j + 1;
    }
  }

  /** make_crc_table: the CRC of every byte. */
  method MakeByteTable() returns (table: array<nat>)
    ensures fresh(table) && ByteTable(table[..])
  {
    table := new nat[256];
    var i := 0;
    while i < 256
      invariant 0 <= i <= 256 && table.Length == 256
      invariant forall n :: 0 <= n < i ==> table[n] == Advance(8, n)
    {
      table[i] := EightShifts(i);
      i := i + 1;
    }
  }

  lemma {:induction false} MulRestZero(a: nat, i: nat, b: nat)
    requires Low(a, i) == 0
    ensures MulFrom(a, i, b) == 0
    decreases i
  {
    if i > 0 {
      LowTop(a, i);
      MulRestZero(a, i - 1, Shift(b));
    }
  }

  /** a & 2^i, as a single bit. */
  function BitAt(a: nat, i: nat): nat {
    Shr(a, i) % 2
  }

  /**
    multmodp: the loop has no other exit than the lowest set bit of a, so it
    needs a nonzero 32-bit a; then it ends and returns the product.
   */
  method Multmodp(a: nat, b: nat) returns (p: nat)
    requires U32(a) && a != 0
    ensures p == Mul(a, b)
  {
    var i: nat := 31;             // m == 1 << i
    var c: nat := b;
    p := 0;
    XorZero(Mul(a, b));
    Pow2Bytes();
    LowSmall(a, 32);
    while true
      invariant 0 <= i <= 31
      invariant Low(a, i + 1) != 0
      invariant Xor(p, MulFrom(a, i + 1, c)) == Mul(a, b)
      decreases i
    {
      LowTop(a, i + 1);
      ghost var rest := MulFrom(a, i, Shift(c));
      if BitAt(a, i) != 0 {
        XorAssoc(p, c, rest);
        p := Xor(p, c);
        if Low(a, i) == 0 {
          MulRestZero(a, i, Shift(c));
          XorZero(p);
          break;
        }
      } else {
        XorZero(rest);
      }
      i := i - 1;
      XorZero(c / 2);
      c := if c % 2 == 1 then Xor(c / 2, POLY) else c / 2;
    }
  }

  // ----- powers of x and combination -----------------------------------------------

  ghost predicate PowerTable(x2n: seq<nat>) {
    |x2n| == 32 && forall i :: 0 <= i < 32 ==> x2n[i] == X(Pow2(i))
  }

  lemma XDouble(k: nat, next: nat)
    requires next == k + 1
    ensures Mul(X(Pow2(k)), X(Pow2(k))) == X(Pow2(next))
  {
    hide X, Advance, Mul;
    assert Pow2(next) == Pow2(k) + Pow2(k);
    MulPowers(Pow2(k), Pow2(k));
  }

  lemma FirstPower()
    ensures X(Pow2(0)) == 0x4000_0000
  {
    hide Advance;
    XSmall(1);
    XSmall(0);
    XOfZero();
    assert Pow2(31) == 2 * Pow2(30);
  }

  /** make_crc_table: x^(2^n) by repeated squaring. */
  method MakePowerTable() returns (x2n: array<nat>)
    ensures fresh(x2n) && PowerTable(x2n[..])
  {
    hide X, Advance, Mul, Pow2;
    x2n := new nat[32];
    var p: nat := 0x4000_0000;
    FirstPower();
    x2n[0] := p;
    var n := 1;
    while n < 32
      invariant 1 <= n <= 32 && x2n.Length == 32
      invariant p == X(Pow2(n - 1))
      invariant forall i :: 0 <= i < n ==> x2n[i] == X(Pow2(i))
    {
      XNonZero(Pow2(n - 1));
      XDouble(n - 1, n);
      p := Multmodp(p, p);
      x2n[n] := p;
      n := n + 1;
    }
  }

  lemma {:induction false} XCycle(k: nat, far: nat)
    requires far == k + 32
    ensures X(Pow2(far)) == X(Pow2(k))
  {
    hide X, Advance, Mul;
    if k > 0 {
      XCycle(k - 1, far - 1);
      XDouble(k - 1, k);
      XDouble(far - 1, far);
    } else {
      PowZero();
      CrcCycle.SquaringsCycle();
    }
  }

  /** A table of 32 squarings of x holds all of them: they come round. */
  lemma {:induction false} XCycleMod(k: nat)
    ensures X(Pow2(k)) == X(Pow2(k % 32))
  {
    hide X, Advance, Pow2;
    if k >= 32 {
      XCycle(k - 32, k);
      XCycleMod(k - 32);
      assert (k - 32) % 32 == k % 32;
    }
  }

  /** n * 2^k, the exponent that x2nmodp(n, k) is asked for. */
  function Scaled(n: nat, k: nat): nat {
    n * Pow2(k)
  }

  lemma ScaledStep(n: nat, k: nat)
    ensures Scaled(n, k) == Scaled(n / 2, k + 1) + (if n % 2 == 1 then Pow2(k) else 0)
    ensures Scaled(0, k) == 0
  {
    assert n == 2 * (n / 2) + n % 2;
    assert (2 * (n / 2) + n % 2) * Pow2(k) == (n / 2) * (2 * Pow2(k)) + (n % 2) * Pow2(k);
  }

  /** x2nmodp: x^(n * 2^k) modulo p(x), also where exponents run past the table. */
  method X2nmodp(x2n: seq<nat>, n: nat, k: nat) returns (p: nat)
    requires PowerTable(x2n)
    ensures p != 0 && U32(p)
    ensures p == X(Scaled(n, k))
  {
    hide Advance, Mul, X, Pow2, Scaled, PowerTable;
    XOfZero();
    p := ONE;
    var m, j := n, k;
    ghost var e: nat := 0;
    while m != 0
      invariant p != 0 && U32(p)
      invariant e + Scaled(m, j) == Scaled(n, k)
      invariant p == X(e)
      decreases m
    {
      ScaledStep(m, j);
      if m % 2 == 1 {
        PowerEntry(x2n, j);
        PowerStep(p, e, j);
        p := Multmodp(x2n[j % 32], p);
        e := e + Pow2(j);
      }
      m := m / 2;
      j := j + 1;
    }
    ScaledStep(m, j);
  }

  lemma XOfZero()
    ensures X(0) == ONE
  {
  }

  lemma PowerEntry(x2n: seq<nat>, j: nat)
    requires PowerTable(x2n)
    ensures 0 <= j % 32 < |x2n| && x2n[j % 32] == X(Pow2(j % 32))
    ensures U32(x2n[j % 32]) && x2n[j % 32] != 0
  {
    XNonZero(Pow2(j % 32));
  }

  /** Multiplying by x^(2^j) keeps a register nonzero and adds 2^j to its exponent. */
  lemma PowerStep(p: nat, e: nat, j: nat)
    requires p != 0 && U32(p)
    ensures U32(Mul(X(Pow2(j % 32)), p)) && Mul(X(Pow2(j % 32)), p) != 0
    ensures p == X(e) ==> Mul(X(Pow2(j % 32)), p) == X(e + Pow2(j))
  {
    hide Advance, Mul, X, Pow2;
    var m := Pow2(j % 32);
    MulByX(m, p);
    AdvanceNonZero(m, p);
    if p == X(e) {
      XCycleMod(j);
      MulPowersTo(Pow2(j), e, e + Pow2(j));
    }
  }

  lemma MulPowersTo(m: nat, n: nat, sum: nat)
    requires sum == m + n
    ensures Mul(X(m), X(n)) == X(sum)
  {
    hide Advance, Mul;
    MulPowers(m, n);
  }

  lemma {:induction false} AdvanceNonZero(n: nat, x: nat)
    requires U32(x) && x > 0
    ensures U32(Advance(n, x)) && Advance(n, x) > 0
  {
    if n > 0 {
      AdvanceNonZero(n - 1, x);
      ShiftBound(Advance(n - 1, x));
      ShiftNonZero(Advance(n - 1, x));
    }
  }

  /** The CRC of a concatenation from the CRCs of its parts. */
  lemma CombineLaw(crc1: nat, b: seq<Byte>)
    ensures Crc(crc1, b) == Xor(Advance(8 * |b|, crc1), Crc(0, b))
  {
    var e := 8 * |b|;
    CrcSplitsRegister(Xor(crc1, ALL_ONES), b);
    XorZero(ALL_ONES);
    CrcSplitsRegister(ALL_ONES, b);
    AdvanceLinear(e, crc1, ALL_ONES);
    var r, c, f := CrcBytes(0, b), Advance(e, crc1), Advance(e, ALL_ONES);
    XorAssoc(r, c, f);
    XorComm(r, c);
    XorAssoc(c, r, f);
    XorAssoc(c, Xor(r, f), ALL_ONES);
  }

  lemma CrcAppend(crc: nat, a: seq<Byte>, b: seq<Byte>)
    ensures Crc(crc, a + b) == Crc(Crc(crc, a), b)
  {
    CrcBytesAppend(Xor(crc, ALL_ONES), a, b);
    XorCancel(CrcBytes(Xor(crc, ALL_ONES), a), ALL_ONES);
  }

  lemma CombineCorrect(len2: nat, crc1: nat, e: nat, p: nat, b: seq<Byte>)
    requires U32(crc1) && e == 8 * len2 && p == X(e) && |b| == len2
    ensures Xor(Mul(p, crc1), Crc(0, b)) == Crc(crc1, b)
  {
    MulByX(e, crc1);
    CombineLaw(crc1, b);
  }

  /** crc32_combine64: the CRC of two buffers in a row, for every length. */
  method Combine(x2n: seq<nat>, crc1: nat, crc2: nat, len2: nat) returns (crc: nat)
    requires PowerTable(x2n) && U32(crc1)
    ensures forall a: seq<Byte>, b: seq<Byte> :: |b| == len2 && crc1 == Crc(0, a) && crc2 == Crc(0, b)
              ==> crc == Crc(0, a + b)
  {
    hide Advance, Mul, X, Crc, PowerTable;
    var p := X2nmodp(x2n, len2, 3);
    var q := Multmodp(p, crc1);
    crc := Xor(q, crc2);
    var e := Scaled(len2, 3);
    assert e == 8 * len2;
    forall a: seq<Byte>, b: seq<Byte> | |b| == len2 && crc1 == Crc(0, a) && crc2 == Crc(0, b)
      ensures crc == Crc(0, a + b)
    {
      CombineCorrect(len2, crc1, e, p, b);
      CrcAppend(0, a, b);
    }
  }

  // ----- the braided calculation ------------------------------------------------------

  /** Entry k of a braid table for n braids of w-byte words: byte k of a word, n words later. */
  ghost predicate BraidTable(table: seq<seq<nat>>, n: nat, w: nat) {
    && |table| == w
    && forall k :: 0 <= k < w ==> BraidRow(table[k], 8 * (n * w), k)
  }

  ghost predicate BraidRow(row: seq<nat>, bits: nat, k: nat) {
    && |row| == 256
    && bits >= 8 * k
    && forall i :: 0 <= i < 256 ==> row[i] == Advance(bits - 8 * k, i)
  }

  /** i << 24 advanced over three bytes more is i advanced. */
  lemma BraidEntry(i: nat, e: nat)
    requires i < 256
    ensures Mul(i * 0x100_0000, X(e + 24)) == Advance(e, i)
    ensures U32(i * 0x100_0000)
  {
    hide Mul, Advance, X;
    var t := Shl(i, 24);
    Pow2Bytes();
    assert Pow2(24) == 0x100_0000 by { ShlPow2(16, 8); ShlIsMul(Pow2(16), 8); }
    ShlIsMul(i, 24);
    MulX(t, e + 24);
    AdvanceAdd(e, 24, t);
    AdvanceShl(i, 24);
  }

  /** The inner loop of braid(): the row of byte k. */
  method BraidTableRow(x2n: seq<nat>, n: nat, w: nat, k: nat) returns (row: seq<nat>)
    requires PowerTable(x2n) && k < w <= 8 && 1 <= n <= 6
    ensures n * w >= k && BraidRow(row, 8 * (n * w), k)
  {
    hide Mul, Advance, X, PowerTable;
    assert w <= n * w <= 48;
    ghost var e := 8 * (n * w) - 8 * k;
    var p := X2nmodp(x2n, (n * w + 3 - k) * 8, 0);
    ShortExponent(n * w + 3 - k, e + 24);
    AdvanceZero(e);
    row := [0];
    var i := 1;
    while i < 256
      invariant 1 <= i <= 256 && |row| == i
      invariant forall j :: 0 <= j < i ==> row[j] == Advance(e, j)
    {
      BraidEntry(i, e);
      var q := Multmodp(i * 0x100_0000, p);
      row := row + [q];
      i := i + 1;
    }
  }

  lemma ShortExponent(bytes: nat, e: nat)
    requires e == 8 * bytes
    ensures Scaled(bytes * 8, 0) == e
  {
    PowZero();
  }

  /** braid() */
  method MakeBraidTable(x2n: seq<nat>, n: nat, w: nat) returns (table: seq<seq<nat>>)
    requires PowerTable(x2n) && w <= 8 && 1 <= n <= 6
    ensures BraidTable(table, n, w)
  {
    hide PowerTable, BraidRow;
    table := [];
    var k := 0;
    while k < w
      invariant 0 <= k <= w && |table| == k
      invariant forall j :: 0 <= j < k ==> BraidRow(table[j], 8 * (n * w), j)
    {
      var row := BraidTableRow(x2n, n, w, k);
      table := table + [row];
      k := k + 1;
    }
  }

  /** Byte k of a word: (word >> (k << 3)) & 0xff. */
  function Lane(word: nat, k: nat): (b: nat)
    ensures b < 256
  {
    if k == 0 then word % 256 else Lane(word / 256, k - 1)
  }

  lemma {:induction false} LaneIsShift(word: nat, k: nat)
    ensures Lane(word, k) == Low(Shr(word, 8 * k), 8)
  {
    Shr8(word);
    if k > 0 {
      LaneIsShift(word / 256, k - 1);
      ShrShr(word, 8, 8 * k - 8);
    }
  }

  /** The exclusive or of the braid table's entries for the first m lanes of a word. */
  function Spread(word: nat, m: nat, bits: nat): nat
    requires bits >= 8 * m
  {
    if m == 0 then 0 else Xor(Advance(bits, word % 256), Spread(word / 256, m - 1, bits - 8))
  }

  lemma {:induction false} SpreadIsAdvance(word: nat, m: nat, bits: nat)
    requires bits >= 8 * m && Shr(word, 8 * m) == 0
    ensures Spread(word, m, bits) == Advance(bits, word)
    decreases m
  {
    if m == 0 {
      AdvanceZero(bits);
    } else {
      Shr8(word);
      ShrShr(word, 8, 8 * m - 8);
      SpreadIsAdvance(word / 256, m - 1, bits - 8);
      AdvanceSplit(bits, word);
    }
  }

  lemma {:induction false} SpreadSnoc(word: nat, m: nat, bits: nat)
    requires bits >= 8 * (m + 1)
    ensures Spread(word, m + 1, bits) == Xor(Spread(word, m, bits), Advance(bits - 8 * m, Lane(word, m)))
    decreases m
  {
    hide Advance, Xor;
    if m == 0 {
      var x := Advance(bits, word % 256);
      assert Spread(word / 256, 0, bits - 8) == 0;
      XorZero(x);
    } else {
      SpreadSnoc(word / 256, m - 1, bits - 8);
      XorAssoc(Advance(bits, word % 256), Spread(word / 256, m - 1, bits - 8),
               Advance(bits - 8 * m, Lane(word, m)));
    }
  }

  /** One braid's update: the lanes of the word through the braid table. */
  method BraidWord(table: seq<seq<nat>>, ghost n: nat, w: nat, word: nat) returns (crc: nat)
    requires BraidTable(table, n, w) && w >= 1 && n >= 1 && Shr(word, 8 * w) == 0
    ensures crc == Advance(8 * (n * w), word) && U32(crc)
  {
    hide Advance, Spread;
    ghost var bits := 8 * (n * w);
    assert n * w >= w;
    assert BraidRow(table[0], bits, 0);
    crc := table[0][word % 256];
    FirstLane(word, bits);
    AdvanceBound(bits, word % 256);
    Pow2Bytes();
    var k := 1;
    while k < w
      invariant 1 <= k <= w
      invariant crc == Spread(word, k, bits) && U32(crc)
    {
      assert BraidRow(table[k], bits, k);
      SpreadSnoc(word, k, bits);
      AdvanceBound(bits - 8 * k, Lane(word, k));
      XorBound(crc, table[k][Lane(word, k)], 32);
      crc := Xor(crc, table[k][Lane(word, k)]);
      k := k + 1;
    }
    SpreadIsAdvance(word, w, bits);
  }

  lemma FirstLane(word: nat, bits: nat)
    requires bits >= 8
    ensures Spread(word, 1, bits) == Advance(bits, word % 256)
  {
    assert Spread(word / 256, 0, bits - 8) == 0;
    XorZero(Advance(bits, word % 256));
  }

  /** crc_word: the word's bytes through the byte table, one after another. */
  method CrcWord(table: seq<nat>, w: nat, word: nat) returns (crc: nat)
    requires ByteTable(table)
    ensures crc == Advance(8 * w, word)
  {
    hide Advance;
    var k := 0;
    crc := word;
    AdvanceNone(word);
    while k < w
      invariant 0 <= k <= w
      invariant crc == Advance(8 * k, word)
    {
      WordStep(crc);
      AdvanceAdd(8, 8 * k, word);
      crc := Xor(crc / 256, table[crc % 256]);
      k := k + 1;
    }
  }

  lemma AdvanceNone(x: nat)
    ensures Advance(0, x) == x
  {
  }

  lemma WordStep(data: nat)
    ensures Xor(data / 256, Advance(8, data % 256)) == Advance(8, data)
  {
    TableStep(data, 0);
    XorZero(data);
  }

  // ----- how the braids come together ---------------------------------------------------

  /** Word after word: the registers of the braids folded into one, each over s bits. */
  function Fold(regs: seq<nat>, s: nat): nat
    decreases |regs|
  {
    if regs == [] then 0
    else Advance(s, Xor(regs[|regs| - 1], Fold(regs[..|regs| - 1], s)))
  }

  /** The words of a block of bytes, w bytes each. */
  function Words(block: seq<Byte>, w: nat): (ws: seq<nat>)
    requires w > 0
    decreases |block|
  {
    if |block| < w then []
    else Words(block[..|block| - w], w) + [LoadWord(block[|block| - w..])]
  }

  lemma {:induction false} FoldLinear(a: seq<nat>, b: seq<nat>, c: seq<nat>, s: nat)
    requires |a| == |b| == |c| && forall i :: 0 <= i < |a| ==> c[i] == Xor(a[i], b[i])
    ensures Fold(c, s) == Xor(Fold(a, s), Fold(b, s))
    decreases |a|
  {
    hide Advance;
    if a == [] {
      assert Xor(0, 0) == 0;
    } else {
      var n := |a| - 1;
      FoldLinear(a[..n], b[..n], c[..n], s);
      Xor4(a[n], b[n], Fold(a[..n], s), Fold(b[..n], s));
      AdvanceLinear(s, Xor(a[n], Fold(a[..n], s)), Xor(b[n], Fold(b[..n], s)));
    }
  }

  lemma {:induction false} FoldAdvance(a: seq<nat>, c: seq<nat>, e: nat, s: nat)
    requires |a| == |c| && forall i :: 0 <= i < |a| ==> c[i] == Advance(e, a[i])
    ensures Fold(c, s) == Advance(e, Fold(a, s))
    decreases |a|
  {
    hide Advance;
    AdvanceZero(e);
    if a != [] {
      var n := |a| - 1;
      FoldAdvance(a[..n], c[..n], e, s);
      AdvanceLinear(e, a[n], Fold(a[..n], s));
      AdvanceAdd(s, e, Xor(a[n], Fold(a[..n], s)));
      AdvanceAdd(e, s, Xor(a[n], Fold(a[..n], s)));
    }
  }

  /** A register followed by n zero registers folds to the register advanced over all. */
  lemma {:induction false} FoldFirst(crc: nat, n: nat, regs: seq<nat>, s: nat, e: nat)
    requires |regs| == n + 1 && regs[0] == crc && forall i :: 1 <= i <= n ==> regs[i] == 0
    requires e == s * (n + 1)
    ensures Fold(regs, s) == Advance(e, crc)
    decreases n
  {
    hide Advance;
    if n == 0 {
      XorZero(crc);
      assert Fold(regs[..0], s) == 0;
    } else {
      assert s * (n + 1) == s * n + s;
      FoldFirst(crc, n - 1, regs[..n], s, e - s);
      XorZero(Fold(regs[..n], s));
      AdvanceAdd(s, e - s, crc);
    }
  }

  lemma WordsStep(block: seq<Byte>, w: nat)
    requires w > 0 && |block| >= w
    ensures Words(block, w) == Words(block[..|block| - w], w) + [LoadWord(block[|block| - w..])]
  {
  }

  lemma OneWordLess(n: nat, w: nat)
    requires n > 0
    ensures n * w == (n - 1) * w + w
  {
  }

  lemma NoWords(w: nat)
    requires w > 0
    ensures Words([], w) == [] && Fold([], 8 * w) == CrcBytes(0, []) == 0
  {
  }

  /** The words of a block fold to the CRC of the block. */
  lemma {:induction false} FoldWords(block: seq<Byte>, w: nat, n: nat)
    requires w > 0 && |block| == n * w
    ensures |Words(block, w)| == n
    ensures Fold(Words(block, w), 8 * w) == CrcBytes(0, block)
    decreases n
  {
    hide Fold, Words, CrcBytes, LoadWord;
    if n > 0 {
      OneWordLess(n, w);
      var m := |block| - w;
      FoldWords(block[..m], w, n - 1);
      WordsStep(block, w);
      FoldWordsStep(block[..m], block[m..], w, Words(block[..m], w));
      assert block == block[..m] + block[m..];
      CrcBytesAppend(0, block[..m], block[m..]);
    } else {
      assert block == [];
      NoWords(w);
    }
  }

  lemma FoldWordsStep(front: seq<Byte>, last: seq<Byte>, w: nat, ws: seq<nat>)
    requires |last| == w && Fold(ws, 8 * w) == CrcBytes(0, front)
    ensures Fold(ws + [LoadWord(last)], 8 * w) == CrcBytes(CrcBytes(0, front), last)
  {
    hide Advance, LoadWord;
    var all := ws + [LoadWord(last)];
    assert all[..|all| - 1] == ws;
    CrcIsPolynomial(CrcBytes(0, front), last);
    XorComm(CrcBytes(0, front), LoadWord(last));
  }

  lemma ProductMono(a: nat, b: nat, w: nat)
    requires a <= b
    ensures a * w <= b * w
  {
    assert b * w - a * w == (b - a) * w;
  }

  lemma SliceOfFront(block: seq<Byte>, m: nat, lo: nat, hi: nat)
    requires lo <= hi <= m <= |block|
    ensures block[..m][lo..hi] == block[lo..hi]
  {
  }

  lemma {:induction false} WordsAt(block: seq<Byte>, w: nat, n: nat, i: nat)
    requires w > 0 && |block| == n * w && i < n
    ensures |Words(block, w)| == n
    ensures 0 <= i * w <= (i + 1) * w <= |block|
    ensures Words(block, w)[i] == LoadWord(block[i * w..(i + 1) * w])
    decreases n
  {
    hide Words, LoadWord;
    var m := |block| - w;
    OneWordLess(n, w);
    OneWordLess(i + 1, w);
    ProductMono(i + 1, n, w);
    WordsStep(block, w);
    FoldWords(block, w, n);
    FoldWords(block[..m], w, n - 1);
    if i < n - 1 {
      WordsAt(block[..m], w, n - 1, i);
      SliceOfFront(block, m, i * w, (i + 1) * w);
    } else {
      assert m == i * w && block[m..] == block[i * w..(i + 1) * w];
    }
  }

  /** The registers after some blocks stand for the CRC `full` of those blocks. */
  ghost predicate Braided(regs: seq<nat>, n: nat, w: nat, full: nat) {
    && |regs| == n
    && (forall i :: 0 <= i < n ==> U32(regs[i]))
    && Fold(regs, 8 * w) == Advance(8 * (n * w), full)
  }

  /** What is fed to the words of the next block. */
  ghost predicate Mixed(mix: seq<nat>, regs: seq<nat>, ws: seq<nat>) {
    |mix| == |regs| == |ws| && forall i :: 0 <= i < |mix| ==> mix[i] == Xor(regs[i], ws[i])
  }

  lemma MergeIsCrc(regs: seq<nat>, mix: seq<nat>, n: nat, w: nat, full: nat, block: seq<Byte>)
    requires w > 0 && |block| == n * w && Braided(regs, n, w, full)
    requires Mixed(mix, regs, Words(block, w))
    ensures Fold(mix, 8 * w) == CrcBytes(full, block)
  {
    hide Advance, Fold, Words, CrcBytes;
    FoldWords(block, w, n);
    FoldLinear(regs, Words(block, w), mix, 8 * w);
    CrcSplitsRegister(full, block);
    XorComm(Fold(regs, 8 * w), Fold(Words(block, w), 8 * w));
  }

  lemma NextBraids(regs: seq<nat>, mix: seq<nat>, next: seq<nat>, n: nat, w: nat, full: nat, block: seq<Byte>)
    requires w > 0 && |block| == n * w && Braided(regs, n, w, full)
    requires Mixed(mix, regs, Words(block, w))
    requires |next| == n && forall i :: 0 <= i < n ==> U32(next[i]) && next[i] == Advance(8 * (n * w), mix[i])
    ensures Braided(next, n, w, CrcBytes(full, block))
  {
    hide Advance, Fold, Words, CrcBytes;
    MergeIsCrc(regs, mix, n, w, full, block);
    FoldWords(block, w, n);
    FoldAdvance(mix, next, 8 * (n * w), 8 * w);
  }

  // ----- crc32_z ----------------------------------------------------------------------------

  datatype Tables = Tables(byte: seq<nat>, braid: seq<seq<nat>>)

  ghost predicate GoodTables(t: Tables, n: nat, w: nat) {
    ByteTable(t.byte) && BraidTable(t.braid, n, w)
  }

  lemma CrcSnoc(crc: nat, buf: seq<Byte>, from: nat, to: nat)
    requires from <= to < |buf|
    ensures CrcBytes(crc, buf[from..to + 1]) == CrcByte(CrcBytes(crc, buf[from..to]), buf[to])
  {
    assert buf[from..to + 1] == buf[from..to] + [buf[to]];
    CrcBytesAppend(crc, buf[from..to], [buf[to]]);
    assert [buf[to]][1..] == [];
  }

  /** Bytes one at a time through the byte table, in runs of eight and then singly. */
  method ByteLoops(table: seq<nat>, crc0: nat, buf: seq<Byte>, from: nat) returns (crc: nat)
    requires ByteTable(table) && from <= |buf|
    ensures crc == CrcBytes(crc0, buf[from..])
  {
    hide Advance, CrcBytes;
    crc := crc0;
    CrcNone(crc0, buf[from..from]);
    var pos := from;
    while |buf| - pos >= 8
      invariant from <= pos <= |buf| && crc == CrcBytes(crc0, buf[from..pos])
      decreases |buf| - pos
    {
      var start, run := pos, 0;
      while run < 8
        invariant 0 <= run <= 8 && pos == start + run
        invariant crc == CrcBytes(crc0, buf[from..pos])
        decreases 8 - run
      {
        crc := ByteUpdate(table, crc, buf[pos]);
        CrcSnoc(crc0, buf, from, pos);
        pos, run := pos + 1, run + 1;
      }
    }
    while pos < |buf|
      invariant from <= pos <= |buf| && crc == CrcBytes(crc0, buf[from..pos])
    {
      crc := ByteUpdate(table, crc, buf[pos]);
      CrcSnoc(crc0, buf, from, pos);
      pos := pos + 1;
    }
    assert buf[from..pos] == buf[from..];
  }

  lemma CrcNone(crc: nat, none: seq<Byte>)
    requires none == []
    ensures CrcBytes(crc, none) == crc
  {
  }

  method ByteUpdate(table: seq<nat>, crc0: nat, b: Byte) returns (crc: nat)
    requires ByteTable(table)
    ensures crc == CrcByte(crc0, b)
  {
    hide Advance;
    TableStep(crc0, b);
    crc := Xor(crc0 / 256, table[Xor(crc0, b) % 256]);
  }

  lemma LoadWordBound(bytes: seq<Byte>)
    ensures Shr(LoadWord(bytes), 8 * |bytes|) == 0
    decreases |bytes|
  {
    if bytes != [] {
      LoadWordBound(bytes[1..]);
      Shr8(LoadWord(bytes));
      ShrShr(LoadWord(bytes), 8, 8 * |bytes| - 8);
    } else {
      assert Shr(0, 0) == 0;
    }
  }

  lemma MixBound(reg: nat, word: nat, w: nat)
    requires U32(reg) && w >= 4 && Shr(word, 8 * w) == 0
    ensures Shr(Xor(reg, word), 8 * w) == 0
  {
    XorParts(reg, word, 8 * w);
    Pow2Bytes();
    LowSmall(reg, 32);
    ShrShr(reg, 32, 8 * w - 32);
    LowSmall(0, 8 * w - 32);
    assert Xor(0, 0) == 0;
  }

  lemma SliceOfSlice(buf: seq<Byte>, from: nat, to: nat, a: nat, b: nat)
    requires from <= to <= |buf| && a <= b <= to - from
    ensures buf[from..to][a..b] == buf[from + a..from + b]
  {
    var x, y := buf[from..to][a..b], buf[from + a..from + b];
    assert forall i :: 0 <= i < |x| ==> x[i] == y[i];
  }

  /** Load the n words of the block at pos and add the braids' registers to them. */
  method LoadBlock(buf: seq<Byte>, pos: nat, regs: seq<nat>, n: nat, w: nat) returns (mix: seq<nat>)
    requires w >= 4 && |regs| == n && pos + n * w <= |buf|
    requires forall i :: 0 <= i < n ==> U32(regs[i])
    ensures Mixed(mix, regs, Words(buf[pos..pos + n * w], w))
    ensures forall i :: 0 <= i < n ==> Shr(mix[i], 8 * w) == 0
  {
    hide Words, LoadWord, Shr;
    ghost var block := buf[pos..pos + n * w];
    FoldWords(block, w, n);
    mix := [];
    var i := 0;
    while i < n
      invariant 0 <= i <= n && |mix| == i
      invariant forall j :: 0 <= j < i ==> mix[j] == Xor(regs[j], Words(block, w)[j]) && Shr(mix[j], 8 * w) == 0
    {
      WordsAt(block, w, n, i);
      var word := LoadWord(buf[pos + i * w..pos + (i + 1) * w]);
      SliceOfSlice(buf, pos, pos + n * w, i * w, (i + 1) * w);
      assert |block[i * w..(i + 1) * w]| == w by { assert (i + 1) * w == i * w + w; }
      LoadWordBound(block[i * w..(i + 1) * w]);
      MixBound(regs[i], word, w);
      mix := mix + [Xor(regs[i], word)];
      i := i + 1;
    }
  }

  /** One block of the braided loop: every braid takes its own word. */
  method BraidBlock(t: Tables, buf: seq<Byte>, pos: nat, regs: seq<nat>, n: nat, w: nat, ghost full: nat)
    returns (next: seq<nat>)
    requires GoodTables(t, n, w) && w >= 4 && n >= 1 && pos + n * w <= |buf|
    requires Braided(regs, n, w, full)
    ensures Braided(next, n, w, CrcBytes(full, buf[pos..pos + n * w]))
  {
    hide Advance, Fold, Words, CrcBytes, BraidTable, ByteTable, Shr;
    var mix := LoadBlock(buf, pos, regs, n, w);
    next := [];
    var i := 0;
    while i < n
      invariant 0 <= i <= n && |next| == i
      invariant forall j :: 0 <= j < i ==> U32(next[j]) && next[j] == Advance(8 * (n * w), mix[j])
    {
      var crc := BraidWord(t.braid, n, w, mix[i]);
      next := next + [crc];
      i := i + 1;
    }
    NextBraids(regs, mix, next, n, w, full, buf[pos..pos + n * w]);
  }

  /** The last block: the braids are combined word by word. */
  method MergeBlock(t: Tables, buf: seq<Byte>, pos: nat, regs: seq<nat>, n: nat, w: nat, ghost full: nat)
    returns (crc: nat)
    requires GoodTables(t, n, w) && w >= 4 && n >= 1 && pos + n * w <= |buf|
    requires Braided(regs, n, w, full)
    ensures crc == CrcBytes(full, buf[pos..pos + n * w])
  {
    hide Advance, Words, CrcBytes, BraidTable, ByteTable, Shr;
    var mix := LoadBlock(buf, pos, regs, n, w);
    crc := 0;
    var i := 0;
    while i < n
      invariant 0 <= i <= n && crc == Fold(mix[..i], 8 * w)
    {
      assert mix[..i + 1][..i] == mix[..i];
      crc := CrcWord(t.byte, w, Xor(mix[i], crc));
      i := i + 1;
    }
    assert mix[..n] == mix;
    MergeIsCrc(regs, mix, n, w, full, buf[pos..pos + n * w]);
  }

  /** The braided part: whole blocks of n words of w bytes, from a word boundary. */
  method BraidLoops(t: Tables, crc0: nat, buf: seq<Byte>, from: nat, blks: nat, n: nat, w: nat)
    returns (crc: nat, pos: nat)
    requires GoodTables(t, n, w) && w >= 4 && n >= 1 && U32(crc0)
    requires blks >= 1 && from + blks * (n * w) <= |buf|
    ensures pos == from + blks * (n * w) && crc == CrcBytes(crc0, buf[from..pos])
  {
    hide Advance, Fold, CrcBytes, GoodTables;
    var regs := [crc0] + seq(n - 1, _ => 0);
    assert 8 * (n * w) == (8 * w) * n;
    FoldFirst(crc0, n - 1, regs, 8 * w, 8 * (n * w));
    CrcNone(crc0, buf[from..from]);
    pos := from;
    var left := blks - 1;
    while left > 0
      invariant 0 <= left < blks && from <= pos
      invariant pos + (left + 1) * (n * w) == from + blks * (n * w)
      invariant Braided(regs, n, w, CrcBytes(crc0, buf[from..pos]))
    {
      BlockFits(left + 1, n * w);
      regs := BraidBlock(t, buf, pos, regs, n, w, CrcBytes(crc0, buf[from..pos]));
      CrcExtend(crc0, buf, from, pos, pos + n * w);
      pos := pos + n * w;
      left := left - 1;
    }
    BlockFits(1, n * w);
    crc := MergeBlock(t, buf, pos, regs, n, w, CrcBytes(crc0, buf[from..pos]));
    CrcExtend(crc0, buf, from, pos, pos + n * w);
    pos := pos + n * w;
  }

  lemma BlockFits(blocks: nat, size: nat)
    requires blocks >= 1
    ensures blocks * size == (blocks - 1) * size + size >= size
  {
  }

  lemma CrcExtend(crc: nat, buf: seq<Byte>, from: nat, mid: nat, to: nat)
    requires from <= mid <= to <= |buf|
    ensures CrcBytes(CrcBytes(crc, buf[from..mid]), buf[mid..to]) == CrcBytes(crc, buf[from..to])
  {
    assert buf[from..to] == buf[from..mid] + buf[mid..to];
    CrcBytesAppend(crc, buf[from..mid], buf[mid..to]);
  }

  /** (z_size_t)buf & (W - 1), for the word sizes 4 and 8. */
  function Misalignment(addr: nat, w: nat): (m: nat)
    ensures w == 4 || w == 8 ==> m < w
  {
    if w == 4 then addr % 4 else addr % 8
  }

  /** The unaligned bytes before the first word boundary. */
  method AlignLoop(table: seq<nat>, crc0: nat, buf: seq<Byte>, addr: nat, w: nat) returns (crc: nat, pos: nat)
    requires ByteTable(table) && (w == 4 || w == 8)
    ensures pos <= |buf| && pos < w && crc == CrcBytes(crc0, buf[..pos])
    ensures pos < |buf| ==> Misalignment(addr + pos, w) == 0
  {
    hide Advance, CrcBytes, ByteTable;
    crc := crc0;
    pos := 0;
    CrcNone(crc0, buf[..0]);
    ghost var off := Misalignment(addr, w);
    while pos < |buf| && Misalignment(addr + pos, w) != 0
      invariant 0 <= pos <= |buf| && crc == CrcBytes(crc0, buf[..pos])
      invariant pos == 0 || (off > 0 && pos <= w - off)
    {
      crc := ByteUpdate(table, crc, buf[pos]);
      assert buf[..pos] == buf[0..pos] && buf[..pos + 1] == buf[0..pos + 1];
      CrcSnoc(crc0, buf, 0, pos);
      pos := pos + 1;
    }
  }

  lemma BlockCount(len: nat, size: nat)
    requires 0 < size <= len
    ensures len / size >= 1 && (len / size) * size <= len
  {
    assert len == (len / size) * size + len % size;
  }

  /** Bytes up to a word boundary, then as many whole blocks as there are. */
  method AlignedBlocks(t: Tables, start: nat, buf: seq<Byte>, addr: nat, n: nat, w: nat) returns (crc: nat, pos: nat)
    requires GoodTables(t, n, w) && 1 <= n <= 6 && (w == 4 || w == 8) && U32(start) && |buf| >= n * w + w - 1
    ensures pos <= |buf| && crc == CrcBytes(start, buf[..pos])
  {
    hide Advance, CrcBytes, BraidTable, ByteTable;
    crc, pos := AlignLoop(t.byte, start, buf, addr, w);
    CrcBytesBound(start, buf[..pos]);
    BlockCount(|buf| - pos, n * w);
    var at, blks := pos, (|buf| - pos) / (n * w);
    crc, pos := BraidLoops(t, crc, buf, at, blks, n, w);
    CrcExtend(start, buf, 0, at, pos);
  }

  /**
    crc32_z, with the address of the buffer for its alignment: for every length
    and alignment, and for every number of braids and word size the code allows,
    the result is the CRC taken a bit at a time.  A null buffer asks for the
    initial value.
   */
  method Crc32Z(t: Tables, crc0: nat, buffer: Option<seq<Byte>>, addr: nat, n: nat, w: nat) returns (crc: nat)
    requires GoodTables(t, n, w) && 1 <= n <= 6 && (w == 4 || w == 8) && U32(crc0)
    ensures crc == if buffer.None? then 0 else Crc(crc0, buffer.value)
  {
    hide Advance, CrcBytes, BraidTable, ByteTable, Xor;
    if buffer.None? { return 0; }
    var buf := buffer.value;
    ghost var start := Xor(crc0, ALL_ONES);
    crc := Xor(crc0, ALL_ONES);
    Pow2Bytes();
    XorBound(crc0, ALL_ONES, 32);
    var pos := 0;
    CrcNone(start, buf[..0]);
    if |buf| >= n * w + w - 1 {
      crc, pos := AlignedBlocks(t, crc, buf, addr, n, w);
    }
    crc := ByteLoops(t.byte, crc, buf, pos);
    assert buf[0..|buf|] == buf;
    CrcExtend(start, buf, 0, pos, |buf|);
    crc := Xor(crc, ALL_ONES);
  }
}
