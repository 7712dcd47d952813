/**
  A compressed block: how compress_block of deps/zlib/trees.c sends literals and
  matches, and how the LEN, LENEXT, DIST and DISTEXT states of
  deps/zlib/inflate.c read them.
 */
module Block {
  import opened Wrappers
  import opened Bits
  import opened Canonical
  import opened InflateSpec
  import opened InflateTable
  import opened BitIo
  import opened Lz77
  import opened SendTree
  import opened SymbolTables

  const END_BLOCK: nat := 256

  /** The tables of tr_static_init. */
  datatype Tables = Tables(lengthCode: seq<nat>, baseLength: seq<nat>, distCode: seq<nat>, baseDist: seq<nat>)

  ghost predicate GoodTables(t: Tables) {
    LengthTable(t.lengthCode, t.baseLength) && DistTable(t.distCode, t.baseDist)
  }

  /** What the format can express. */
  predicate Expressible(token: Token) {
    match token
    case Literal(byte) => byte < 256
    case Copy(distance, length) => 1 <= distance <= 0x8000 && 3 <= length <= 258
  }

  // ----- streams -------------------------------------------------------------------------------

  /** The fields, then whatever follows. */
  function Stream(fields: seq<Field>, rest: nat): nat {
    Value(fields) + Shl(rest, Width(fields))
  }

  lemma StreamAppend(a: seq<Field>, b: seq<Field>, rest: nat)
    ensures Stream(a + b, rest) == Stream(a, Stream(b, rest))
  {
    hide Value, Width, Shl;
    ValueAppend(a, b);
    ShlAdd(Value(b), Shl(rest, Width(b)), Width(a));
    ShlShl(rest, Width(b), Width(a));
  }

  lemma StreamOne(f: Field, rest: nat)
    requires FieldFits(f)
    ensures Low(Stream([f], rest), f.width) == f.value && Shr(Stream([f], rest), f.width) == rest
    ensures Stream([f], rest) == Shl(rest, f.width) + f.value
  {
    hide Value, Width, Shl, Low, Shr;
    ValueOne(f);
    FirstField(f, rest);
  }

  lemma StreamNone(rest: nat)
    ensures Stream([], rest) == rest
  {
  }

  // ----- sending ---------------------------------------------------------------------------------

  /** Extra bits are sent if there are any. */
  function Extra(value: nat, width: nat): seq<Field> {
    if width == 0 then [] else [Field(value, width)]
  }

  /** A length or distance: its symbol, and the extra bits that complete it. */
  datatype Symbol = Symbol(code: nat, extra: nat, width: nat)

  ghost function LengthSymbol(t: Tables, length: nat): Symbol
    requires GoodTables(t) && 3 <= length <= 258
  {
    var x := length - 3;
    var c := t.lengthCode[x];
    assert LengthIn(t.baseLength, x, c);
    Symbol(257 + c, if LengthExtra(c) == 0 then 0 else LastHasNone(); x - t.baseLength[c], LengthExtra(c))
  }

  lemma LastHasNone()
    ensures LengthExtra(LENGTH_CODES - 1) == 0
  {
  }

  ghost function DistSymbol(t: Tables, distance: nat): Symbol
    requires GoodTables(t) && 1 <= distance <= 0x8000
  {
    var x := distance - 1;
    DistIn(t.distCode, t.baseDist, x);
    var c := DCode(t.distCode, x);
    Symbol(c, if DistExtra(c) == 0 then 0 else x - t.baseDist[c], DistExtra(c))
  }

  /** The symbol's length and extra bits, as the decoder's tables have them, add up. */
  lemma LengthSymbolMeans(t: Tables, length: nat)
    requires GoodTables(t) && 3 <= length <= 258
    ensures var s := LengthSymbol(t, length);
            && 257 <= s.code < 286 && LEXT[s.code - 257] == 16 + s.width && LBASE[s.code - 257] + s.extra == length
            && s.extra < Pow2(s.width) && s.width <= 5
  {
    hide Pow2;
    var x := length - 3;
    var c := t.lengthCode[x];
    assert LengthIn(t.baseLength, x, c);
    PowersTo13();
    LastHasNone();
    if c < LENGTH_CODES - 1 { LengthBases(c); }
    LengthWidth(c);
  }

  lemma LengthWidth(c: nat)
    requires c < LENGTH_CODES
    ensures LengthExtra(c) <= 5
    ensures c == LENGTH_CODES - 1 ==> LBASE[c] == 258 && LEXT[c] == 16
  {
  }

  lemma DistSymbolMeans(t: Tables, distance: nat)
    requires GoodTables(t) && 1 <= distance <= 0x8000
    ensures var s := DistSymbol(t, distance);
            && s.code < 30 && DEXT[s.code] == 16 + s.width && DBASE[s.code] + s.extra == distance
            && s.extra < Pow2(s.width) && s.width <= 13
  {
    hide Pow2;
    DistIn(t.distCode, t.baseDist, distance - 1);
    var c := DCode(t.distCode, distance - 1);
    PowersTo13();
    DistBases(c);
    DistWidth(c);
  }

  lemma DistWidth(c: nat)
    requires c < D_CODES
    ensures DistExtra(c) <= 13
  {
  }

  function SymbolFields(lens: seq<nat>, s: Symbol): seq<Field>
    requires s.code < |lens|
  {
    [CodeField(lens, s.code)] + Extra(s.extra, s.width)
  }

  /** The symbols of a token have codes. */
  ghost predicate HasCodes(t: Tables, ll: seq<nat>, dl: seq<nat>, token: Token) {
    GoodTables(t) && Expressible(token) &&
    match token
    case Literal(byte) => byte < |ll| && ll[byte] > 0
    case Copy(distance, length) =>
      && LengthSymbol(t, length).code < |ll| && ll[LengthSymbol(t, length).code] > 0
      && DistSymbol(t, distance).code < |dl| && dl[DistSymbol(t, distance).code] > 0
  }

  /** What is sent for a token. */
  ghost function TokenFields(t: Tables, ll: seq<nat>, dl: seq<nat>, token: Token): seq<Field>
    requires HasCodes(t, ll, dl, token)
  {
    match token
    case Literal(byte) => [CodeField(ll, byte)]
    case Copy(distance, length) => SymbolFields(ll, LengthSymbol(t, length)) + SymbolFields(dl, DistSymbol(t, distance))
  }

  // ----- reading ---------------------------------------------------------------------------------

  datatype Decoded = Got(token: Token, bits: nat) | EndOfBlock(bits: nat) | BadLength | BadDistance

  /** The bit of weight m in an operation byte. */
  predicate HasBit(op: nat, m: nat)
    requires m > 0
  {
    (op / m) % 2 == 1
  }

  /** The LEN, LENEXT, DIST and DISTEXT states on an unlimited stream. */
  function NextToken(lt: seq<Code>, lroot: nat, dt: seq<Code>, droot: nat, v: nat): Decoded {
    match Lookup(lt, lroot, v)
    case None => BadLength
    case Some((e, n)) =>
      if e.op == 0 then Got(Literal(e.val), n)
      else if HasBit(e.op, 32) then EndOfBlock(n)
      else if HasBit(e.op, 64) then BadLength
      else NextDistance(dt, droot, Shr(v, n + e.op % 16), e.val + Low(Shr(v, n), e.op % 16), n + e.op % 16)
  }

  function NextDistance(dt: seq<Code>, droot: nat, v: nat, length: nat, bits: nat): Decoded {
    match Lookup(dt, droot, v)
    case None => BadDistance
    case Some((e, n)) =>
      if HasBit(e.op, 64) then BadDistance
      else Got(Copy(e.val + Low(Shr(v, n), e.op % 16), length), bits + n + e.op % 16)
  }

  /** A symbol at the head of a stream: its entry, its extra bits, and what follows. */
  lemma SymbolRead(t: seq<Code>, root: nat, lens: seq<nat>, ct: CodeType, s: Symbol, rest: nat)
    requires |lens| <= MaxCodes(ct) && Decodes(t, root, lens, ct) && s.code < |lens| && lens[s.code] > 0 && s.extra < Pow2(s.width)
    ensures var v, n := Stream(SymbolFields(lens, s), rest), lens[s.code];
            && Lookup(t, root, v) == Some((Entry(ct, s.code, EntryBits(root, n)), n))
            && Low(Shr(v, n), s.width) == (if s.width == 0 then 0 else s.extra)
            && Shr(v, n + s.width) == rest
            && Width(SymbolFields(lens, s)) == n + s.width
  {
    hide Lookup, Decodes, Stream, Shr, Low, Width, Entry, StreamCode;
    var f, g := CodeField(lens, s.code), Extra(s.extra, s.width);
    var v := Stream(SymbolFields(lens, s), rest);
    CodeFieldFits(lens, s.code);
    StreamAppend([f], g, rest);
    StreamOne(f, Stream(g, rest));
    SentCodeIsFound(t, root, lens, ct, s.code, Stream(g, rest));
    ExtraRead(s.extra, s.width, rest);
    ShrShr(v, lens[s.code], s.width);
    ValueAppend([f], g);
    ValueOne(f);
  }

  lemma ExtraRead(extra: nat, width: nat, rest: nat)
    requires extra < Pow2(width)
    ensures Low(Stream(Extra(extra, width), rest), width) == (if width == 0 then 0 else extra)
    ensures Shr(Stream(Extra(extra, width), rest), width) == rest
    ensures Width(Extra(extra, width)) == width
  {
    if width == 0 {
      StreamNone(rest);
    } else {
      hide Low, Shr, Stream, Width;
      StreamOne(Field(extra, width), rest);
      ValueOne(Field(extra, width));
    }
  }

  lemma LiteralRead(ll: seq<nat>, byte: nat, lt: seq<Code>, lroot: nat, dt: seq<Code>, droot: nat, rest: nat)
    requires byte < 256 && byte < |ll| <= 288 && ll[byte] > 0 && Decodes(lt, lroot, ll, LENS)
    ensures var fields := [CodeField(ll, byte)];
            && NextToken(lt, lroot, dt, droot, Stream(fields, rest)) == Got(Literal(byte), Width(fields))
            && Shr(Stream(fields, rest), Width(fields)) == rest
  {
    hide Lookup, Decodes, Stream, Shr, Low, Width, Pow2, StreamCode;
    var s := Symbol(byte, 0, 0);
    assert SymbolFields(ll, s) == [CodeField(ll, byte)];
    PowZero();
    SymbolRead(lt, lroot, ll, LENS, s, rest);
  }

  lemma CopyRead(a: Symbol, b: Symbol, distance: nat, length: nat, ll: seq<nat>, dl: seq<nat>,
                 lt: seq<Code>, lroot: nat, dt: seq<Code>, droot: nat, rest: nat)
    requires |ll| <= 288 && |dl| <= 32 && Decodes(lt, lroot, ll, LENS) && Decodes(dt, droot, dl, DISTS)
    requires a.code < |ll| && ll[a.code] > 0 && b.code < |dl| && dl[b.code] > 0
    requires 257 <= a.code < 286 && LEXT[a.code - 257] == 16 + a.width && LBASE[a.code - 257] + a.extra == length
    requires a.extra < Pow2(a.width) && a.width <= 5
    requires b.code < 30 && DEXT[b.code] == 16 + b.width && DBASE[b.code] + b.extra == distance
    requires b.extra < Pow2(b.width) && b.width <= 13
    ensures var fields := SymbolFields(ll, a) + SymbolFields(dl, b);
            && NextToken(lt, lroot, dt, droot, Stream(fields, rest)) == Got(Copy(distance, length), Width(fields))
            && Shr(Stream(fields, rest), Width(fields)) == rest
  {
    hide NextToken, NextDistance, Decodes, Stream, Shr, Width, Pow2, SymbolFields, LBASE, LEXT, DBASE, DEXT;
    var fa, fb := SymbolFields(ll, a), SymbolFields(dl, b);
    StreamAppend(fa, fb, rest);
    LengthRead(a, length, ll, lt, lroot, dt, droot, Stream(fb, rest));
    DistanceRead(b, distance, length, Width(fa), dl, dt, droot, rest);
    ValueAppend(fa, fb);
    ShrShr(Stream(fa + fb, rest), Width(fa), Width(fb));
  }

  lemma DistanceRead(b: Symbol, distance: nat, length: nat, bits: nat, dl: seq<nat>, dt: seq<Code>, droot: nat, rest: nat)
    requires |dl| <= 32 && Decodes(dt, droot, dl, DISTS) && b.code < |dl| && dl[b.code] > 0
    requires b.code < 30 && DEXT[b.code] == 16 + b.width && DBASE[b.code] + b.extra == distance
    requires b.extra < Pow2(b.width) && b.width <= 13
    ensures var v := Stream(SymbolFields(dl, b), rest);
            && NextDistance(dt, droot, v, length, bits) == Got(Copy(distance, length), bits + Width(SymbolFields(dl, b)))
            && Shr(v, Width(SymbolFields(dl, b))) == rest
  {
    hide Lookup, Decodes, Stream, Shr, Low, Width, Pow2, StreamCode, Entry, SymbolFields, HasBit;
    SymbolRead(dt, droot, dl, DISTS, b, rest);
    DistEntry(b.code, EntryBits(droot, dl[b.code]), b.width);
    NoExtra(b);
  }

  lemma LengthRead(a: Symbol, length: nat, ll: seq<nat>, lt: seq<Code>, lroot: nat, dt: seq<Code>, droot: nat, rest: nat)
    requires |ll| <= 288 && Decodes(lt, lroot, ll, LENS) && a.code < |ll| && ll[a.code] > 0
    requires 257 <= a.code < 286 && LEXT[a.code - 257] == 16 + a.width && LBASE[a.code - 257] + a.extra == length
    requires a.extra < Pow2(a.width) && a.width <= 5
    ensures var v, n := Stream(SymbolFields(ll, a), rest), Width(SymbolFields(ll, a));
            && NextToken(lt, lroot, dt, droot, v) == NextDistance(dt, droot, rest, length, n)
            && Shr(v, n) == rest
  {
    hide Lookup, Decodes, Stream, Shr, Low, Width, Pow2, StreamCode, Entry, SymbolFields, HasBit, NextDistance;
    SymbolRead(lt, lroot, ll, LENS, a, rest);
    LengthEntry(a.code, EntryBits(lroot, ll[a.code]), a.width);
    NoExtra(a);
  }

  lemma NoExtra(s: Symbol)
    requires s.extra < Pow2(s.width)
    ensures s.width == 0 ==> s.extra == 0
  {
  }

  /** Every token sent is read again, and nothing of what follows is touched. */
  lemma TokenRead(t: Tables, ll: seq<nat>, dl: seq<nat>, token: Token, lt: seq<Code>, lroot: nat, dt: seq<Code>, droot: nat, rest: nat)
    requires HasCodes(t, ll, dl, token) && |ll| <= 288 && |dl| <= 32
    requires Decodes(lt, lroot, ll, LENS) && Decodes(dt, droot, dl, DISTS)
    ensures var fields := TokenFields(t, ll, dl, token);
            && NextToken(lt, lroot, dt, droot, Stream(fields, rest)) == Got(token, Width(fields))
            && Shr(Stream(fields, rest), Width(fields)) == rest
  {
    hide NextToken, Decodes, Stream, Shr, Width, Pow2, LengthSymbol, DistSymbol, SymbolFields, CodeField, GoodTables;
    match token
    case Literal(byte) => LiteralRead(ll, byte, lt, lroot, dt, droot, rest);
    case Copy(distance, length) => {
      LengthSymbolMeans(t, length);
      DistSymbolMeans(t, distance);
      CopyRead(LengthSymbol(t, length), DistSymbol(t, distance), distance, length, ll, dl, lt, lroot, dt, droot, rest);
    }
  }

  lemma LengthEntry(sym: nat, bits: nat, width: nat)
    requires 257 <= sym < 286 && LEXT[sym - 257] == 16 + width && width <= 5
    ensures var e := Entry(LENS, sym, bits);
            e.op != 0 && !HasBit(e.op, 32) && !HasBit(e.op, 64) && e.op % 16 == width && e.val == LBASE[sym - 257]
  {
  }

  lemma DistEntry(sym: nat, bits: nat, width: nat)
    requires sym < 30 && DEXT[sym] == 16 + width && width <= 13
    ensures var e := Entry(DISTS, sym, bits);
            !HasBit(e.op, 64) && e.op % 16 == width && e.val == DBASE[sym]
  {
  }

  lemma EndRead(ll: seq<nat>, lt: seq<Code>, lroot: nat, dt: seq<Code>, droot: nat, rest: nat)
    requires 256 < |ll| <= 288 && ll[END_BLOCK] > 0 && Decodes(lt, lroot, ll, LENS)
    ensures NextToken(lt, lroot, dt, droot, Stream([CodeField(ll, END_BLOCK)], rest)) == EndOfBlock(ll[END_BLOCK])
    ensures Shr(Stream([CodeField(ll, END_BLOCK)], rest), ll[END_BLOCK]) == rest
  {
    hide Lookup, Decodes, Stream, Shr, Low, Width, Pow2, StreamCode;
    var s := Symbol(END_BLOCK, 0, 0);
    assert SymbolFields(ll, s) == [CodeField(ll, END_BLOCK)];
    PowZero();
    SymbolRead(lt, lroot, ll, LENS, s, rest);
  }

  // ----- a whole block -----------------------------------------------------------------------------

  ghost predicate AllHaveCodes(t: Tables, ll: seq<nat>, dl: seq<nat>, tokens: seq<Token>) {
    forall i :: 0 <= i < |tokens| ==> HasCodes(t, ll, dl, tokens[i])
  }

  ghost function TokensFields(t: Tables, ll: seq<nat>, dl: seq<nat>, tokens: seq<Token>): seq<Field>
    requires AllHaveCodes(t, ll, dl, tokens)
  {
    if tokens == [] then [] else TokenFields(t, ll, dl, tokens[0]) + TokensFields(t, ll, dl, tokens[1..])
  }

  /** The tokens of a block and the end-of-block symbol. */
  ghost function BlockFields(t: Tables, ll: seq<nat>, dl: seq<nat>, tokens: seq<Token>): seq<Field>
    requires AllHaveCodes(t, ll, dl, tokens) && END_BLOCK < |ll|
  {
    TokensFields(t, ll, dl, tokens) + [CodeField(ll, END_BLOCK)]
  }

  /** The stream v holds exactly these tokens and an end of block, then `rest`. */
  ghost predicate Reads(lt: seq<Code>, lroot: nat, dt: seq<Code>, droot: nat, v: nat, tokens: seq<Token>, rest: nat)
    decreases |tokens|
  {
    if tokens == [] then
      match NextToken(lt, lroot, dt, droot, v)
      case EndOfBlock(n) => Shr(v, n) == rest
      case _ => false
    else
      match NextToken(lt, lroot, dt, droot, v)
      case Got(token, n) => token == tokens[0] && Reads(lt, lroot, dt, droot, Shr(v, n), tokens[1..], rest)
      case _ => false
  }

  /** A block sent is read as the same tokens. */
  lemma {:induction false} BlockRead(t: Tables, ll: seq<nat>, dl: seq<nat>, tokens: seq<Token>,
                                     lt: seq<Code>, lroot: nat, dt: seq<Code>, droot: nat, rest: nat)
    requires AllHaveCodes(t, ll, dl, tokens) && END_BLOCK < |ll| <= 288 && ll[END_BLOCK] > 0 && |dl| <= 32
    requires Decodes(lt, lroot, ll, LENS) && Decodes(dt, droot, dl, DISTS)
    ensures Reads(lt, lroot, dt, droot, Stream(BlockFields(t, ll, dl, tokens), rest), tokens, rest)
    decreases |tokens|
  {
    hide NextToken, Decodes, Stream, Shr, Width, TokenFields, HasCodes, CodeField;
    var end := [CodeField(ll, END_BLOCK)];
    if tokens == [] {
      assert [] + end == end;
      EndRead(ll, lt, lroot, dt, droot, rest);
    } else {
      var first, others := TokenFields(t, ll, dl, tokens[0]), TokensFields(t, ll, dl, tokens[1..]);
      assert first + others + end == first + (others + end);
      StreamAppend(first, others + end, rest);
      TokenRead(t, ll, dl, tokens[0], lt, lroot, dt, droot, Stream(others + end, rest));
      BlockRead(t, ll, dl, tokens[1..], lt, lroot, dt, droot, rest);
    }
  }

  // ----- compress_block ------------------------------------------------------------------------------

  /** sym_buf: three bytes for each token. */
  function SymBytes(tokens: seq<Token>): (b: seq<nat>)
    requires forall i :: 0 <= i < |tokens| ==> Expressible(tokens[i])
    ensures |b| == 3 * |tokens|
  {
    if tokens == [] then [] else SymTriple(tokens[0]) + SymBytes(tokens[1..])
  }

  function SymTriple(token: Token): (b: seq<nat>)
    requires Expressible(token)
    ensures |b| == 3
  {
    match token
    case Literal(byte) => [0, 0, byte]
    case Copy(distance, length) => [distance % 256, distance / 256, length - 3]
  }

  lemma {:induction false} SymAt(tokens: seq<Token>, i: nat)
    requires i < |tokens| && forall i :: 0 <= i < |tokens| ==> Expressible(tokens[i])
    ensures var b := SymBytes(tokens);
            match tokens[i]
            case Literal(byte) => b[3 * i] == 0 && b[3 * i + 1] == 0 && b[3 * i + 2] == byte
            case Copy(distance, length) => b[3 * i] == distance % 256 && b[3 * i + 1] == distance / 256 && b[3 * i + 2] == length - 3
    decreases i
  {
    if i > 0 {
      SymAt(tokens[1..], i - 1);
      assert tokens[1..][i - 1] == tokens[i];
      assert forall k :: 3 <= k < 3 * |tokens| ==> SymBytes(tokens)[k] == SymBytes(tokens[1..])[k - 3];
    }
  }

  lemma {:induction false} TokensMore(t: Tables, ll: seq<nat>, dl: seq<nat>, tokens: seq<Token>, token: Token)
    requires AllHaveCodes(t, ll, dl, tokens) && HasCodes(t, ll, dl, token)
    ensures AllHaveCodes(t, ll, dl, tokens + [token])
    ensures TokensFields(t, ll, dl, tokens + [token]) == TokensFields(t, ll, dl, tokens) + TokenFields(t, ll, dl, token)
    decreases |tokens|
  {
    hide HasCodes, TokenFields;
    var more := tokens + [token];
    assert AllHaveCodes(t, ll, dl, more);
    if tokens == [] {
      assert more[1..] == [];
    } else {
      assert more[1..] == tokens[1..] + [token];
      TokensMore(t, ll, dl, tokens[1..], token);
      var a, b, c := TokenFields(t, ll, dl, tokens[0]), TokensFields(t, ll, dl, tokens[1..]), TokenFields(t, ll, dl, token);
      assert a + (b + c) == (a + b) + c;
    }
  }

  /** The code of a length or distance symbol and its extra bits. */
  method SendSymbol(w: BitWriter, codes: seq<nat>, lens: seq<nat>, code: nat, extra: nat, width: nat)
    requires w.Valid() && Coded(codes, lens) && code < |lens| && lens[code] > 0 && width <= 13 && (width > 0 ==> extra < Pow2(width))
    modifies w
    ensures w.Valid() && w.sent == old(w.sent) + SymbolFields(lens, Symbol(code, extra, width))
  {
    hide CodeField, Coded, Pow2;
    SendCode(w, codes, lens, code);
    if width != 0 {
      w.SendBits(extra, width);
    }
  }

  /** A match. */
  method SendCopy(w: BitWriter, t: Tables, lcodes: seq<nat>, ll: seq<nat>, dcodes: seq<nat>, dl: seq<nat>, dist: nat, lc: nat)
    requires w.Valid() && Coded(lcodes, ll) && Coded(dcodes, dl) && 1 <= dist <= 0x8000 && lc <= 255
    requires HasCodes(t, ll, dl, Copy(dist, lc + 3))
    modifies w
    ensures w.Valid() && w.sent == old(w.sent) + TokenFields(t, ll, dl, Copy(dist, lc + 3))
  {
    hide CodeField, Coded, Pow2, SymbolFields, LengthTable, DistTable, LBASE, LEXT, DBASE, DEXT, LengthExtra, DistExtra, FirstLength, FirstDist;
    LengthSymbolMeans(t, lc + 3);
    DistSymbolMeans(t, dist);
    LengthTableIs(t, lc);
    DistTableIs(t, dist - 1);
    var code := t.lengthCode[lc];
    var width := LengthExtra(code);
    SendSymbol(w, lcodes, ll, 257 + code, if width == 0 then 0 else lc - t.baseLength[code], width);
    var d := dist - 1;
    var dcode := DCode(t.distCode, d);
    var dwidth := DistExtra(dcode);
    SendSymbol(w, dcodes, dl, dcode, if dwidth == 0 then 0 else d - t.baseDist[dcode], dwidth);
  }

  lemma LengthTableIs(t: Tables, x: nat)
    requires GoodTables(t) && x < 256
    ensures |t.lengthCode| == 256 && |t.baseLength| == LENGTH_CODES && t.lengthCode[x] < LENGTH_CODES
    ensures LengthExtra(t.lengthCode[x]) > 0 ==> t.baseLength[t.lengthCode[x]] <= x
  {
    assert LengthIn(t.baseLength, x, t.lengthCode[x]);
    LastHasNone();
  }

  lemma DistTableIs(t: Tables, x: nat)
    requires GoodTables(t) && x < 0x8000
    ensures |t.distCode| == 512 && |t.baseDist| == D_CODES && DCode(t.distCode, x) < D_CODES
    ensures t.baseDist[DCode(t.distCode, x)] <= x
  {
    DistIn(t.distCode, t.baseDist, x);
  }

  /** compress_block: all tokens of the block, then the end-of-block symbol. */
  method CompressBlock(w: BitWriter, t: Tables, symBuf: seq<nat>, lcodes: seq<nat>, ll: seq<nat>, dcodes: seq<nat>, dl: seq<nat>,
                       ghost tokens: seq<Token>)
    requires w.Valid() && Coded(lcodes, ll) && Coded(dcodes, dl) && END_BLOCK < |ll| && ll[END_BLOCK] > 0
    requires AllHaveCodes(t, ll, dl, tokens) && symBuf == SymBytes(tokens)
    modifies w
    ensures w.Valid() && w.sent == old(w.sent) + BlockFields(t, ll, dl, tokens)
  {
    hide CodeField, Coded, TokenFields, TokensFields, SymBytes, LengthSymbol, DistSymbol, GoodTables, HasCodes;
    forall k | 0 <= k < |tokens| ensures Expressible(tokens[k]) { HasCodesParts(t, ll, dl, tokens[k]); }
    ghost var start := w.sent;
    var sx := 0;
    ghost var i := 0;
    NoTokens(t, ll, dl);
    assert tokens[..0] == [] && start + [] == start;
    while sx < |symBuf|
      invariant sx == 3 * i && 0 <= i <= |tokens| && w.Valid() && AllHaveCodes(t, ll, dl, tokens[..i])
      invariant w.sent == start + TokensFields(t, ll, dl, tokens[..i])
      decreases |symBuf| - sx
    {
      SymAt(tokens, i);
      HasCodesParts(t, ll, dl, tokens[i]);
      TokensMore(t, ll, dl, tokens[..i], tokens[i]);
      assert tokens[..i] + [tokens[i]] == tokens[..i + 1];
      var dist := symBuf[sx] + 256 * symBuf[sx + 1];
      var lc := symBuf[sx + 2];
      if dist == 0 {
        LiteralFields(t, ll, dl, lc);
        SendCode(w, lcodes, ll, lc);
      } else {
        SendCopy(w, t, lcodes, ll, dcodes, dl, dist, lc);
      }
      sx, i := sx + 3, i + 1;
    }
    assert tokens[..i] == tokens;
    SendCode(w, lcodes, ll, END_BLOCK);
  }

  lemma HasCodesParts(t: Tables, ll: seq<nat>, dl: seq<nat>, token: Token)
    requires HasCodes(t, ll, dl, token)
    ensures Expressible(token) && (token.Literal? ==> token.byte < |ll| && ll[token.byte] > 0)
  {
  }

  lemma NoTokens(t: Tables, ll: seq<nat>, dl: seq<nat>)
    ensures TokensFields(t, ll, dl, []) == []
  {
  }

  lemma LiteralFields(t: Tables, ll: seq<nat>, dl: seq<nat>, byte: nat)
    requires HasCodes(t, ll, dl, Literal(byte))
    ensures TokenFields(t, ll, dl, Literal(byte)) == [CodeField(ll, byte)]
  {
  }
}
