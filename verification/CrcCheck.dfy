/**
  Two values by which CRC-32 implementations are recognized: the residue, which is
  what the CRC of a buffer followed by its own CRC comes to, and the check value, the
  CRC of the digits 1 to 9.  Together they fix the polynomial and the complements
  before and after the register.
 */
module CrcCheck {
  import opened Bits
  import opened Crc32
  import opened CrcCycle
  import opened CrcPoly

  const RESIDUE: nat := 0x2144_df1c
  const CHECK: nat := 0xcbf4_3926

  /** A 32-bit word as four bytes, the low one first, as section 2.3.1 of RFC 1952 stores the CRC. */
  function Stored(c: nat): (bytes: seq<Byte>)
    ensures |bytes| == 4
  {
    [c % 256, c / 0x100 % 256, c / 0x1_0000 % 256, c / 0x100_0000 % 256]
  }

  lemma StoredLoads(c: nat)
    requires U32(c)
    ensures LoadWord(Stored(c)) == c
  {
    var s := Stored(c);
    assert c / 0x1_0000 == c / 0x100 / 0x100 && c / 0x100_0000 == c / 0x1_0000 / 0x100;
    assert s[2..][1..] == s[3..] && s[1..][1..] == s[2..];
    assert LoadWord(s[3..]) == s[3] == c / 0x100_0000;
    assert LoadWord(s[2..]) == c / 0x1_0000;
    assert LoadWord(s[1..]) == c / 0x100;
  }

  // ----- registers as words ---------------------------------------------------------------

  function Shift4(x: bv32): bv32 {
    ShiftWord(ShiftWord(ShiftWord(ShiftWord(x))))
  }

  lemma Shift4Number(x: bv32)
    ensures Number(Shift4(x)) == Advance(4, Number(x))
  {
    hide Number, Shift, ShiftWord;
    var y := ShiftWord(x);
    ShiftNumber(x);
    ShiftNumber(y);
    ShiftNumber(ShiftWord(y));
    ShiftNumber(ShiftWord(ShiftWord(y)));
    var n := Number(x);
    assert Advance(1, n) == Shift(Advance(0, n));
    assert Advance(2, n) == Shift(Advance(1, n));
    assert Advance(3, n) == Shift(Advance(2, n));
  }

  lemma Eight(x: bv32, m: bv32, r: bv32)
    requires Shift4(x) == m && Shift4(m) == r
    ensures Number(r) == Advance(8, Number(x))
  {
    hide Number, Shift4, Advance;
    Shift4Number(x);
    Shift4Number(m);
    AdvanceAdd(4, 4, Number(x));
  }

  lemma OnesNumber()
    ensures Number(0xffff_ffff) == ALL_ONES
  {
    hide Number;
    Nibble(0xffff_ffff);
    Nibble(0x0fff_ffff);
    Nibble(0x00ff_ffff);
    Nibble(0x000f_ffff);
    Nibble(0x0000_ffff);
    Nibble(0x0000_0fff);
    Nibble(0x0000_00ff);
    Nibble(0x0000_000f);
    ZeroWord();
  }

  /** Taking the complement of a word, which both ends of the calculation do. */
  lemma Complement(x: bv32, y: bv32)
    requires x ^ 0xffff_ffff == y
    ensures Xor(Number(x), ALL_ONES) == Number(y)
  {
    hide Number, Xor;
    OnesNumber();
    NumberXor(x, 0xffff_ffff);
  }

  // ----- the residue ------------------------------------------------------------------------

  lemma OnesAdvanced()
    ensures Advance(32, ALL_ONES) == Number(0xdebb_20e3)
  {
    hide Number, Advance;
    OnesNumber();
    Eight(0xffff_ffff, 0xb242_0de3, 0x2dfd_1072);
    Eight(0x2dfd_1072, 0x39b1_f1cf, 0xbe26_ed00);
    Eight(0xbe26_ed00, 0x0be2_6ed0, 0x00be_26ed);
    Eight(0x00be_26ed, 0x86d8_30ba, 0xdebb_20e3);
    AdvanceAdd(8, 8, ALL_ONES);
    AdvanceAdd(8, 16, ALL_ONES);
    AdvanceAdd(8, 24, ALL_ONES);
  }

  lemma ResidueNumber()
    ensures Number(0x2144_df1c) == RESIDUE
  {
    hide Number;
    Nibble(0x2144_df1c);
    Nibble(0x0214_4df1);
    Nibble(0x0021_44df);
    Nibble(0x0002_144d);
    Nibble(0x0000_2144);
    Nibble(0x0000_0214);
    Nibble(0x0000_0021);
    Nibble(0x0000_0002);
    ZeroWord();
  }

  lemma CheckNumber()
    ensures Number(0xcbf4_3926) == CHECK
  {
    hide Number;
    Nibble(0xcbf4_3926);
    Nibble(0x0cbf_4392);
    Nibble(0x00cb_f439);
    Nibble(0x000c_bf43);
    Nibble(0x0000_cbf4);
    Nibble(0x0000_0cbf);
    Nibble(0x0000_00cb);
    Nibble(0x0000_000c);
    ZeroWord();
  }

  /**
    The residue: whatever the buffer, and whatever was before it, its CRC stored behind
    it makes the CRC of the whole the same number.
   */
  lemma Residue(crc: nat, buf: seq<Byte>)
    requires U32(crc)
    ensures Crc(crc, buf + Stored(Crc(crc, buf))) == RESIDUE
  {
    hide CrcBytes, LoadWord, Number, Advance, Xor, Stored;
    var r := CrcBytes(Xor(crc, ALL_ONES), buf);
    var c := Xor(r, ALL_ONES);
    Pow2Bytes();
    XorBound(crc, ALL_ONES, 32);
    CrcBytesBound(Xor(crc, ALL_ONES), buf);
    XorBound(r, ALL_ONES, 32);
    CrcBytesAppend(Xor(crc, ALL_ONES), buf, Stored(c));
    CrcIsPolynomial(r, Stored(c));
    StoredLoads(c);
    XorAssoc(r, r, ALL_ONES);
    XorSelf(r);
    XorZero(ALL_ONES);
    OnesAdvanced();
    Complement(0xdebb_20e3, 0x2144_df1c);
    ResidueNumber();
  }

  // ----- the check value --------------------------------------------------------------------

  /** "123456789" */
  const DIGITS: seq<Byte> := [0x31, 0x32, 0x33, 0x34, 0x35, 0x36, 0x37, 0x38, 0x39]

  /** One byte into the register: the sum, and four shifts twice. */
  lemma Digit(k: nat, b: bv32, c: bv32, y: bv32, m: bv32, r: bv32)
    requires k < |DIGITS| && Number(b) == DIGITS[k]
    requires c ^ b == y && Shift4(y) == m && Shift4(m) == r
    ensures CrcBytes(Number(c), DIGITS[k..]) == CrcBytes(Number(r), DIGITS[k + 1..])
  {
    hide Number, Shift4, Advance, Xor;
    NumberXor(c, b);
    Eight(y, m, r);
    assert DIGITS[k..][0] == DIGITS[k] && DIGITS[k..][1..] == DIGITS[k + 1..];
  }

  lemma DigitNumbers()
    ensures Number(0x31) == DIGITS[0]
    ensures Number(0x32) == DIGITS[1]
    ensures Number(0x33) == DIGITS[2]
    ensures Number(0x34) == DIGITS[3]
    ensures Number(0x35) == DIGITS[4]
    ensures Number(0x36) == DIGITS[5]
    ensures Number(0x37) == DIGITS[6]
    ensures Number(0x38) == DIGITS[7]
    ensures Number(0x39) == DIGITS[8]
  {
    hide Number;
    ZeroWord();
    Nibble(0x3);
    Nibble(0x31);
    Nibble(0x32);
    Nibble(0x33);
    Nibble(0x34);
    Nibble(0x35);
    Nibble(0x36);
    Nibble(0x37);
    Nibble(0x38);
    Nibble(0x39);
  }

  lemma FirstDigits()
    ensures CrcBytes(ALL_ONES, DIGITS) == CrcBytes(Number(0x340a_c5e3), DIGITS[5..])
  {
    hide CrcBytes, Number, Xor;
    DigitNumbers();
    OnesNumber();
    assert DIGITS[0..] == DIGITS;
    Digit(0, 0x31, 0xffff_ffff, 0xffff_ffce, 0xaff5_1d84, 0x7c23_1048);
    Digit(1, 0x32, 0x7c23_1048, 0x7c23_107a, 0xd114_92ef, 0xb0ac_bb32);
    Digit(2, 0x33, 0xb0ac_bb32, 0xb0ac_bb01, 0x16bd_dbd4, 0x77b7_9c2d);
    Digit(3, 0x34, 0x77b7_9c2d, 0x77b7_9c19, 0xf774_ea85, 0x641c_1f5c);
    Digit(4, 0x35, 0x641c_1f5c, 0x641c_1f69, 0xf64e_52b2, 0x340a_c5e3);
  }

  /** The check value: the CRC of "123456789". */
  lemma CheckValue()
    ensures Crc(0, DIGITS) == CHECK
  {
    hide CrcBytes, Number, Xor;
    DigitNumbers();
    XorZero(ALL_ONES);
    assert DIGITS[9..] == [];
    FirstDigits();
    Digit(5, 0x36, 0x340a_c5e3, 0x340a_c5d5, 0x682b_fda9, 0xf68d_2c9e);
    Digit(6, 0x37, 0xf68d_2c9e, 0xf68d_2ca9, 0xff67_418e, 0xaffc_9660);
    Digit(7, 0x38, 0xaffc_9660, 0xaffc_9658, 0xe747_4a45, 0x651f_2550);
    Digit(8, 0x39, 0x651f_2550, 0x651f_2569, 0xf65e_6112, 0x340b_c6d9);
    CrcBytesEmpty(Number(0x340b_c6d9));
    Complement(0x340b_c6d9, 0xcbf4_3926);
    CheckNumber();
  }

  lemma CrcBytesEmpty(r: nat)
    ensures CrcBytes(r, []) == r
  {
  }
}
