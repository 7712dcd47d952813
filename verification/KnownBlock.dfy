/**
  A block whose bytes are known: ten times the letter a, compressed with the fixed
  codes to two literals and a match.  It fixes which bit comes first, the types of
  blocks, and the order of what is sent.
 */
module KnownBlock {
  import opened Bits
  import opened Canonical
  import opened BitIo
  import opened Lz77
  import opened InflateSpec
  import opened SymbolTables
  import opened SendTree
  import opened Block
  import opened StaticTrees
  import opened FlushBlock

  const LETTERS: seq<Token> := [Literal(0x61), Literal(0x61), Copy(1, 8)]
  const BYTES: seq<nat> := [0x4b, 0x4c, 0x84, 0x01, 0x00]

  // ----- the codes -------------------------------------------------------------------------

  lemma RevStep(n: nat, x: nat)
    ensures Rev(n + 1, x) == (x % 2) * Pow2(n) + Rev(n, x / 2) && Rev(0, x / 2) == 0
  {
    ShlIsMul(x % 2, n);
  }

  lemma LetterReversed()
    ensures Rev(8, 0x91) == 0x89
  {
    hide Rev, Pow2;
    PowersTo13();
    RevStep(0, 1);
    RevStep(1, 2);
    RevStep(2, 4);
    RevStep(3, 9);
    RevStep(4, 18);
    RevStep(5, 36);
    RevStep(6, 72);
    RevStep(7, 145);
  }

  lemma LengthReversed()
    ensures Rev(7, 6) == 48
  {
    hide Rev, Pow2;
    PowersTo13();
    RevZeros(4, 0);
    RevStep(4, 1);
    RevStep(5, 3);
    RevStep(6, 6);
  }

  lemma {:induction false} RevZeros(n: nat, x: nat)
    requires x == 0
    ensures Rev(n, x) == 0
  {
    hide Pow2;
    if n > 0 {
      RevZeros(n - 1, 0);
      RevStep(n - 1, 0);
    }
  }

  lemma Codes()
    ensures CodeField(StaticL(), 0x61) == Field(0x89, 8) && CodeField(StaticL(), 262) == Field(48, 7)
    ensures CodeField(StaticL(), END_BLOCK) == Field(0, 7) && CodeField(Fives(D_CODES), 0) == Field(0, 5)
  {
    hide StreamCode, Rev, StaticL, CodeOf;
    StaticTable(0x61);
    StaticTable(262);
    StaticTable(END_BLOCK);
    FivesCode(D_CODES, 0);
    LetterReversed();
    LengthReversed();
    RevZeros(7, 0);
    RevZeros(5, 0);
  }

  // ----- the symbols -------------------------------------------------------------------------

  lemma LengthEight(t: Tables)
    requires GoodTables(t)
    ensures LengthSymbol(t, 8) == Symbol(262, 0, 0)
  {
    hide GoodTables, LBASE, LEXT, EXTRA_LBITS, Pow2;
    LengthSymbolMeans(t, 8);
    var s := LengthSymbol(t, 8);
    LengthFormula(s.code - 257);
    PowersTo13();
  }

  lemma DistanceOne(t: Tables)
    requires GoodTables(t)
    ensures DistSymbol(t, 1) == Symbol(0, 0, 0)
  {
    hide GoodTables, DBASE, DEXT, EXTRA_DBITS, Pow2;
    DistSymbolMeans(t, 1);
    var s := DistSymbol(t, 1);
    DistFormula(s.code);
    PowersTo13();
  }

  // ----- the block -----------------------------------------------------------------------------

  lemma LettersFields(t: Tables)
    requires GoodTables(t)
    ensures AllHaveCodes(t, StaticL(), Fives(D_CODES), LETTERS)
    ensures FixedFields(t, LETTERS, true) == [Field(3, 3), Field(0x89, 8), Field(0x89, 8), Field(48, 7), Field(0, 5), Field(0, 7)]
  {
    hide GoodTables, LengthSymbol, DistSymbol, StreamCode, StaticL, CodeField;
    StaticCovers(t, LETTERS);
    Codes();
    LengthEight(t);
    DistanceOne(t);
    var x, y := StaticL(), Fives(D_CODES);
    assert HasCodes(t, x, y, LETTERS[0]) && HasCodes(t, x, y, LETTERS[1]) && HasCodes(t, x, y, LETTERS[2]);
    assert LETTERS[1..] == [LETTERS[1], LETTERS[2]] && LETTERS[1..][1..] == [LETTERS[2]] && [LETTERS[2]][1..] == [];
    assert TokensFields(t, x, y, []) == [];
    assert TokensFields(t, x, y, [LETTERS[2]]) == TokenFields(t, x, y, LETTERS[2]);
    assert TokensFields(t, x, y, LETTERS[1..]) == TokenFields(t, x, y, LETTERS[1]) + TokensFields(t, x, y, [LETTERS[2]]);
  }

  lemma ValueStep(f: Field, rest: seq<Field>)
    ensures Value([f] + rest) == f.value + Value(rest) * Pow2(f.width) && Width([f] + rest) == f.width + Width(rest)
    ensures Value([]) == 0 && Width([]) == 0
  {
    assert ([f] + rest)[1..] == rest;
    ShlIsMul(Value(rest), f.width);
  }

  lemma FieldsValue()
    ensures var f := [Field(3, 3), Field(0x89, 8), Field(0x89, 8), Field(48, 7), Field(0, 5), Field(0, 7)];
            Value(f) == 0x184_4c4b && Width(f) == 38
  {
    hide Value, Width, Pow2;
    PowersTo13();
    var a := [Field(0, 7)];
    ValueStep(Field(0, 7), []);
    assert a == [Field(0, 7)] + [];
    ValueStep(Field(0, 5), a);
    ValueStep(Field(48, 7), [Field(0, 5)] + a);
    ValueStep(Field(0x89, 8), [Field(48, 7)] + ([Field(0, 5)] + a));
    ValueStep(Field(0x89, 8), [Field(0x89, 8)] + ([Field(48, 7)] + ([Field(0, 5)] + a)));
    var b := [Field(0x89, 8)] + ([Field(0x89, 8)] + ([Field(48, 7)] + ([Field(0, 5)] + a)));
    ValueStep(Field(3, 3), b);
    assert [Field(3, 3)] + b == [Field(3, 3), Field(0x89, 8), Field(0x89, 8), Field(48, 7), Field(0, 5), Field(0, 7)];
  }

  lemma BytesValue()
    ensures Number(BYTES) == 0x184_4c4b
  {
    hide Value, Width, Pow2;
    PowersTo13();
    var a := [Field(0, 8)];
    ValueStep(Field(0, 8), []);
    assert a == [Field(0, 8)] + [];
    ValueStep(Field(1, 8), a);
    ValueStep(Field(0x84, 8), [Field(1, 8)] + a);
    ValueStep(Field(0x4c, 8), [Field(0x84, 8)] + ([Field(1, 8)] + a));
    var b := [Field(0x4c, 8)] + ([Field(0x84, 8)] + ([Field(1, 8)] + a));
    ValueStep(Field(0x4b, 8), b);
    assert OfBytes(BYTES) == [Field(0x4b, 8)] + b;
  }

  /** The last block, with the fixed codes, of ten letters a: 38 bits, and with two zeros behind them these five bytes. */
  lemma TenLetters(t: Tables)
    requires GoodTables(t)
    ensures Expand(LETTERS) == seq(10, _ => 0x61) && AllHaveCodes(t, StaticL(), Fives(D_CODES), LETTERS)
    ensures Value(FixedFields(t, LETTERS, true)) == Number(BYTES) && Width(FixedFields(t, LETTERS, true)) + 2 == 8 * |BYTES|
  {
    hide GoodTables, Value, Width, FixedFields, StaticL, CopyFrom;
    LettersFields(t);
    FieldsValue();
    BytesValue();
    LettersExpand();
  }

  lemma LettersExpand()
    ensures Expand(LETTERS) == seq(10, _ => 0x61)
  {
    hide CopyFrom;
    var two, all: seq<nat> := [0x61, 0x61], seq(10, _ => 0x61);
    assert LETTERS[..2] == [Literal(0x61), Literal(0x61)] && LETTERS[..2][..1] == [Literal(0x61)] && LETTERS[..2][..1][..0] == [];
    assert Apply([], LETTERS[..2][..1][..0]) == [];
    assert Apply([], LETTERS[..2][..1]) == [0x61];
    assert Apply([], LETTERS[..2]) == two;
    assert all[..2] == two && all[..2 + 8] == all;
    var at := 2;
    forall k | 0 <= k < 8 ensures EqualAt(all, 1, at, k) { }
    CopyIsMatch(all, 2, 1, 8);
  }
}
