/**
  deflate, then inflate: the parts of deps/zlib/deflate.c, trees.c, inftrees.c and
  inflate.c put together.
 */
module EndToEnd {
  import opened Wrappers
  import opened Bits
  import opened Canonical
  import opened BitIo
  import opened Lz77
  import opened HashChains
  import opened LongestMatch
  import opened DeflateState
  import opened InflateSpec
  import opened InflateTable
  import opened InflateWindow
  import opened SymbolTables
  import opened CodeLengths
  import opened SendTree
  import opened Block
  import opened BlockCost
  import opened Header
  import opened StaticTrees
  import opened FlushBlock
  import opened Inflate
  import opened InflateHeader
  import opened InflateProgress
  import opened RoundTrip
  import Deflate

  /** All about a block that was sent. */
  datatype Sent = Sent(kind: Kind, t: Tables, tokens: seq<Token>, tree: Tree, dtree: Tree, bl: seq<nat>, codes: seq<nat>, nb: nat,
                       last: bool, fields: seq<Field>)

  ghost predicate IsSent(s: Sent) {
    && BlockTrees(s.t, s.tokens, s.tree, s.dtree) && s.kind != StoredBlock
    && SentAs(s.kind, s.t, s.tokens, s.tree, s.dtree, s.bl, s.codes, s.nb, s.last, s.fields)
  }

  // ----- sending -----------------------------------------------------------------------------------

  /** Tally the tokens of a block, as deflate does one by one. */
  method TallyAll(t: Tables, tokens: seq<Token>) returns (symBuf: seq<nat>, lfreq: seq<nat>, dfreq: seq<nat>)
    requires GoodTables(t) && AllExpressible(tokens) && |tokens| < 0x7fff
    ensures Tallied(t, lfreq, dfreq, symBuf, tokens)
  {
    hide Tallied, GoodTables;
    var l := new nat[L_CODES](s => if s == END_BLOCK then 1 else 0);
    var d := new nat[D_CODES](_ => 0);
    TalliedNone(t, l[..], d[..]);
    symBuf := [];
    var i := 0;
    assert tokens[..0] == [];
    while i < |tokens|
      invariant 0 <= i <= |tokens| && Tallied(t, l[..], d[..], symBuf, tokens[..i])
    {
      assert tokens[..i] + [tokens[i]] == tokens[..i + 1];
      assert Expressible(tokens[i]);
      match tokens[i] {
        case Literal(byte) => symBuf := TallyLit(t, l, symBuf, byte, d[..], tokens[..i]);
        case Copy(distance, length) => symBuf := TallyDist(t, l, d, symBuf, distance, length - 3, tokens[..i]);
      }
      i := i + 1;
    }
    assert tokens[..i] == tokens;
    lfreq, dfreq := l[..], d[..];
  }

  /** The tables of tr_static_init. */
  method StaticInit() returns (t: Tables, lcodes: seq<nat>, dcodes: seq<nat>)
    ensures GoodTables(t) && Coded(lcodes, StaticL()) && Coded(dcodes, Fives(D_CODES))
  {
    hide LengthTable, DistTable, Coded;
    var a, b := LengthTables();
    var c, d := DistTables();
    t := Tables(a[..], b[..], c[..], d[..]);
    lcodes, dcodes := StaticCodes();
  }

  /** The fields of blocks in a row. */
  ghost function AllFields(blocks: seq<Sent>): seq<Field> {
    if blocks == [] then [] else blocks[0].fields + AllFields(blocks[1..])
  }

  /** And their tokens. */
  ghost function AllTokens(blocks: seq<Sent>): seq<Token> {
    if blocks == [] then [] else blocks[0].tokens + AllTokens(blocks[1..])
  }

  lemma {:induction false} OneMoreBlock(blocks: seq<Sent>, s: Sent)
    ensures AllFields(blocks + [s]) == AllFields(blocks) + s.fields
    ensures AllTokens(blocks + [s]) == AllTokens(blocks) + s.tokens
    decreases |blocks|
  {
    if blocks == [] {
      assert blocks + [s] == [s] && [s][1..] == [];
      assert s.fields + [] == s.fields && s.tokens + [] == s.tokens;
    } else {
      assert (blocks + [s])[1..] == blocks[1..] + [s];
      OneMoreBlock(blocks[1..], s);
    }
  }

  /** Blocks of which only the last one is marked so, if it is there. */
  ghost predicate AreSent(blocks: seq<Sent>, complete: bool) {
    forall i :: 0 <= i < |blocks| ==> IsSent(blocks[i]) && (blocks[i].last <==> complete && i == |blocks| - 1)
  }

  lemma NoBlocks()
    ensures AreSent([], false) && AllTokens([]) == [] && AllFields([]) == []
  {
  }

  lemma OneMoreSent(blocks: seq<Sent>, s: Sent)
    requires AreSent(blocks, false) && IsSent(s)
    ensures AreSent(blocks + [s], s.last)
  {
    hide IsSent;
  }

  /** Send one block. */
  method SendBlock(w: BitWriter, t: Tables, lcodes: seq<nat>, dcodes: seq<nat>, tokens: seq<Token>, fixed: bool, last: bool)
    returns (ghost s: Sent)
    requires w.Valid() && GoodTables(t) && Coded(lcodes, StaticL()) && Coded(dcodes, Fives(D_CODES))
    requires AllExpressible(tokens) && |tokens| < 0x7fff
    modifies w
    ensures w.Valid() && w.sent == old(w.sent) + s.fields && IsSent(s) && s.tokens == tokens && s.last == last
  {
    hide Tallied, GoodTables, Coded, BlockTrees, SentAs, Value, Width, BitIo.Holds, StaticL;
    var symBuf, lfreq, dfreq := TallyAll(t, tokens);
    ghost var tree, dtree, bl, codes, nb, fields;
    var kind, optLen, staticLen;
    kind, optLen, staticLen, tree, dtree, bl, codes, nb, fields :=
      FlushBlock.FlushBlock(w, t, symBuf, lfreq, dfreq, lcodes, dcodes, 0, false, fixed, last, tokens);
    s := Sent(kind, t, tokens, tree, dtree, bl, codes, nb, last, fields);
  }

  /**
    Send tokens in blocks, one whenever `size` tokens have come together and a last
    one with the rest, aligned to bytes.
   */
  method SendAll(tokens: seq<Token>, size: nat, fixed: bool) returns (bytes: seq<nat>, ghost blocks: seq<Sent>, ghost rest: nat)
    requires AllExpressible(tokens) && 1 <= size < 0x7fff
    ensures BitIo.Bytes(bytes) && |blocks| > 0 && AreSent(blocks, true) && AllTokens(blocks) == tokens
    ensures rest > 0 && Number(bytes + [1]) == Stream(AllFields(blocks), rest)
  {
    hide GoodTables, Coded, Number, Value, Width, BitIo.Holds, Shl, IsSent, AreSent, StaticL, Stream, Expressible;
    var t, lcodes, dcodes := StaticInit();
    var w := new BitWriter();
    blocks := [];
    assert AreSent([], false) && AllTokens([]) == [] && AllFields([]) == [] by { NoBlocks(); }
    var i := 0;
    assert tokens[..0] == [];
    while |tokens| - i >= size
      invariant 0 <= i <= |tokens| && w.Valid() && fresh(w) && w.sent == AllFields(blocks)
      invariant AreSent(blocks, false) && AllTokens(blocks) == tokens[..i]
    {
      ghost var s := SendBlock(w, t, lcodes, dcodes, tokens[i..i + size], fixed, false);
      OneMoreBlock(blocks, s);
      OneMoreSent(blocks, s);
      assert tokens[..i] + tokens[i..i + size] == tokens[..i + size];
      blocks := blocks + [s];
      i := i + size;
    }
    ghost var s := SendBlock(w, t, lcodes, dcodes, tokens[i..], fixed, true);
    OneMoreBlock(blocks, s);
    OneMoreSent(blocks, s);
    assert tokens[..i] + tokens[i..] == tokens;
    blocks := blocks + [s];
    bytes, rest := Align(w, AllFields(blocks));
  }

  /** Align to bytes. */
  method Align(w: BitWriter, ghost fields: seq<Field>) returns (bytes: seq<nat>, ghost rest: nat)
    requires w.Valid() && w.sent == fields
    modifies w
    ensures BitIo.Bytes(bytes) && rest > 0 && Number(bytes + [1]) == Stream(fields, rest)
  {
    hide Number, Value, Width, BitIo.Holds, Shl, Stream;
    w.BiWindup();
    bytes := w.pending;
    ghost var pad: nat :| pad < 8 && w.sent == Padded(fields, pad);
    PaddedValue(fields, pad);
    HoldsAll(w.pending, w.buf, w.valid, w.sent);
    rest := Pow2(pad);
    MarkBehind(bytes, fields, pad);
  }

  /** A byte 1 behind the padded block. */
  lemma MarkBehind(bytes: seq<nat>, fields: seq<Field>, pad: nat)
    requires Number(bytes) == Value(fields) && Width(fields) + pad == 8 * |bytes|
    ensures Number(bytes + [1]) == Stream(fields, Pow2(pad))
  {
    hide Number, Value, Width, Shl, Pow2;
    NumberAppend(bytes, [1]);
    NumberOne(1);
    ShlOne(8 * |bytes|);
    ShlPow2(pad, Width(fields));
  }

  // ----- reading -------------------------------------------------------------------------------------

  /** The three bits at the start of a block. */
  method ReadType(d: Inflater) returns (ok: bool, value: nat)
    requires d.Reading() && d.bits < 8
    modifies d`hold, d`bits, d`source
    ensures d.Reading()
    ensures ok ==> value == Low(old(d.Ahead()), 3) && d.Ahead() == Shr(old(d.Ahead()), 3) && d.bits < 8
    ensures d.future == [1] && Shr(old(d.Ahead()), 3) > 0 ==> ok
  {
    hide Low, Shr, Pow2, Rest, BitIo.Bytes;
    value := 0;
    ok := d.NeedBits(3);
    if !ok {
      assert d.source + d.future == d.future;
      if d.future == [1] { ShortOf(d.hold, d.bits, 3); }
      return;
    }
    HoldBits(d.hold, d.bits, d.source + d.future, 3);
    value := Low(d.hold, 3);
    d.Drop(3);
  }

  /** A decoding table for a complete code. */
  method MakeTable(ct: CodeType, lens: seq<nat>, bits: nat) returns (t: seq<Code>, root: nat)
    requires ct != CODES && ValidLens(lens) && |lens| <= MaxCodes(ct) && 1 <= bits && Prefix(lens) && Complete(lens)
    requires Enough(ct, lens, bits)
    ensures TableFor(t, root, lens, ct)
  {
    hide Prefix, Complete, Decodes, RejectsOthers, LinksOk, LinksNeeded, Empty, Acceptable, Enough;
    var table := new Code[Space(ct, bits)];
    var ret, used;
    ret, root, used := InflateTable.InflateTable(ct, lens, table, 0, bits);
    CompleteAccepted(lens, ct);
    t := table[0..used];
  }

  lemma StreamPositive(fields: seq<Field>, rest: nat)
    requires rest > 0
    ensures Stream(fields, rest) > 0
  {
    hide Value, Width;
    ShlMono(0, rest, Width(fields));
    ShlOne(Width(fields));
  }

  /** What stands behind the header: the data of the block, then `rest`. */
  ghost function DataOf(s: Sent, rest: nat): nat
    requires END_BLOCK < |s.tree.lens| && AllHaveCodes(s.t, s.tree.lens, s.dtree.lens, s.tokens)
  {
    Stream(BlockFields(s.t, s.tree.lens, s.dtree.lens, s.tokens), rest)
  }

  /** A block that was sent as dynamic has a valid header, for what was sent. */
  lemma HeaderOf(s: Sent, v: nat, rest: nat)
    requires IsSent(s) && s.kind == DynamicBlock && v == Stream(s.fields, rest) && rest > 0
    ensures END_BLOCK < |s.tree.lens| && AllHaveCodes(s.t, s.tree.lens, s.dtree.lens, s.tokens)
    ensures DataOf(s, rest) > 0 && Shr(v, 3) > 0
    ensures HeaderIs(Shr(v, 3), s.tree.lens, s.dtree.lens, s.bl, DataOf(s, rest))
  {
    hide Stream, Low, Shr, BlockFields, HeaderFields, Decodes, AllHaveCodes, BlockTrees, Compressed, Sendable, Coded, Prefix, Complete,
         BL_ORDER, HeaderIs;
    BlockTreesFacts(s.t, s.tokens, s.tree, s.dtree);
    var x, y := s.tree.lens, s.dtree.lens;
    DynamicSplit(s.t, x, y, s.bl, s.codes, s.nb, s.tokens, s.last, rest);
    StreamPositive(BlockFields(s.t, x, y, s.tokens), rest);
    StreamPositive(HeaderFields(x, y, s.bl, s.nb), DataOf(s, rest));
    HeaderSent(x, y, s.bl, s.nb, DataOf(s, rest));
  }

  lemma HeaderSent(x: seq<nat>, y: seq<nat>, bl: seq<nat>, nb: nat, block: nat)
    requires 257 <= |x| <= 286 && 1 <= |y| <= 30 && 4 <= nb <= 19 && |bl| == 19 && LengthsOk(x) && LengthsOk(y) && x[256] > 0
    requires Sendable(bl, Compressed(x)) && Sendable(bl, Compressed(y)) && (forall s :: 0 <= s < 19 ==> bl[s] <= 7)
    requires forall i :: nb <= i < 19 ==> BL_ORDER[i] < 19 && bl[BL_ORDER[i]] == 0
    requires Prefix(bl) && Complete(bl) && block > 0
    ensures HeaderIs(Stream(HeaderFields(x, y, bl, nb), block), x, y, bl, block)
  {
    hide Stream, Low, Shr, ReadLens, HeaderFields, Decodes, BlReceived, Taken, Compressed, Sendable, Prefix, Complete, BL_ORDER;
    HeaderBl(x, y, bl, nb, block);
    forall t, root | Decodes(t, root, bl, CODES)
      ensures ReadLens(t, root, Shr(Shr(Shr(Shr(Stream(HeaderFields(x, y, bl, nb), block), 5), 5), 4), 3 * nb), [], |x| + |y|)
           == Lengths(x + y, block)
    {
      HeaderRead(x, y, bl, nb, t, root, block);
    }
  }

  /** What the reader says about a valid header is what was sent. */
  lemma HeaderSame(v: nat, x: seq<nat>, y: seq<nat>, blxy: seq<nat>, block: nat,
                   bt: seq<Code>, broot: nat, bl: seq<nat>, ncode: nat, ll: seq<nat>, dl: seq<nat>, after: nat)
    requires HeaderIs(v, x, y, blxy, block) && HeaderSays(v, bt, broot, bl, ncode, ll, dl, after)
    requires Prefix(bl) && Complete(bl) ==> Decodes(bt, broot, bl, CODES)
    ensures ll == x && dl == y && after == block
  {
    hide Low, Shr, ReadLens, Decodes, BlReceived, Taken, Prefix, Complete, BL_ORDER;
    SameParts(ll, dl, x, y);
  }

  lemma SameParts(a: seq<nat>, b: seq<nat>, x: seq<nat>, y: seq<nat>)
    ensures a + b == x + y && |a| == |x| ==> a == x && b == y
  {
    if a + b == x + y && |a| == |x| {
      assert a == (a + b)[..|a|] && x == (x + y)[..|x|];
      assert b == (a + b)[|a|..] && y == (x + y)[|x|..];
    }
  }

  /** The counts and the lengths of the code length code do not need a table. */
  lemma HeaderBl(ll: seq<nat>, dl: seq<nat>, bl: seq<nat>, nb: nat, rest: nat)
    requires 257 <= |ll| <= 288 && 1 <= |dl| <= 32 && 4 <= nb <= 19 && |bl| == 19
    requires Sendable(bl, Compressed(ll)) && Sendable(bl, Compressed(dl)) && (forall s :: 0 <= s < 19 ==> bl[s] <= 7)
    requires forall i :: nb <= i < 19 ==> BL_ORDER[i] < 19 && bl[BL_ORDER[i]] == 0
    ensures var v := Stream(HeaderFields(ll, dl, bl, nb), rest);
            var u := Shr(Shr(Shr(v, 5), 5), 4);
            && Low(v, 5) + 257 == |ll| && Low(Shr(v, 5), 5) + 1 == |dl| && Low(Shr(Shr(v, 5), 5), 4) + 4 == nb
            && BlReceived(Taken(u, Threes(nb))) == bl && (rest > 0 ==> Shr(u, 3 * nb) > 0)
  {
    hide Stream, ItemsFields, Compressed, Low, Shr, Pow2, Taken, BlReceived, BlFields, BL_ORDER, BL_INDEX;
    var counts, lens := CountsFields(|ll|, |dl|, nb), BlFields(bl, nb);
    var trees := ItemsFields(bl, Compressed(ll)) + ItemsFields(bl, Compressed(dl));
    StreamAppend(counts + lens, trees, rest);
    StreamAppend(counts, lens, Stream(trees, rest));
    CountsRead(|ll|, |dl|, nb, Stream(lens, Stream(trees, rest)));
    BlRead(bl, nb, Stream(trees, rest));
    if rest > 0 { StreamPositive(trees, rest); }
  }

  /** Tables for a block, and the decoder at its first token. */
  method ReadHead(d: Inflater, ghost s: Sent, ghost rest: nat)
    returns (last: bool, lt: seq<Code>, lroot: nat, dt: seq<Code>, droot: nat)
    requires d.Reading() && d.bits < 8 && IsSent(s) && d.Ahead() == Stream(s.fields, rest) && rest > 0 && d.future == [1]
    modifies d`hold, d`bits, d`source
    ensures d.Reading() && d.bits < 8 && last == s.last
    ensures GoodPair(lt, lroot, dt, droot) && Reads(lt, lroot, dt, droot, d.Ahead(), s.tokens, rest)
  {
    hide Stream, Low, Shr, Pow2, Rest, BitIo.Bytes, Prefix, Complete, Decodes, LinksOk, GoodPair, Reads, HeaderSays, HeaderIs, BlockFields,
         BlockTrees, AllHaveCodes, Coded, StaticL, IsSent, Enough, TableFor, DataOf;
    ghost var v := d.Ahead();
    TypeIs(s, v, rest);
    var ok, value := ReadType(d);
    last := value % 2 == 1;
    if value / 2 == 1 {
      lt, lroot, dt, droot := FixedPair();
      FixedSent(s, v, lt, lroot, dt, droot, rest);
    } else {
      HeaderOf(s, v, rest);
      var status, ll, dl;
      ghost var bl, bt, broot, ncode;
      status, ll, dl, bl, bt, broot, ncode := ReadTrees(d, s.tree.lens, s.dtree.lens, s.bl, DataOf(s, rest));
      HeaderSame(Shr(v, 3), s.tree.lens, s.dtree.lens, s.bl, DataOf(s, rest), bt, broot, bl, ncode, ll, dl, d.Ahead());
      TreesValid(s);
      lt, lroot := MakeTable(LENS, ll, 9);
      dt, droot := MakeTable(DISTS, dl, 6);
      DynamicSent(s, lt, lroot, dt, droot, rest);
    }
  }

  /** Symbol s stands for a code of the given length: every stream that starts with the code looks it up. */
  ghost predicate Finds(t: seq<Code>, root: nat, ct: CodeType, s: nat, len: nat, code: nat)
    requires s < MaxCodes(ct)
  {
    forall rest: nat :: Lookup(t, root, Shl(rest, len) + Rev(len, code)) == Some((Entry(ct, s, EntryBits(root, len)), len))
  }

  /** The codes in section 3.2.6 of RFC 1951, as the tables read them. */
  ghost predicate ReadsFixedCodes(lt: seq<Code>, lroot: nat, dt: seq<Code>, droot: nat) {
    && (forall s: nat :: s < 288 ==> Finds(lt, lroot, LENS, s, FixedLength(s), FixedCode(s)))
    && (forall s: nat :: s < 32 ==> Finds(dt, droot, DISTS, s, 5, s))
  }

  lemma FindsCode(t: seq<Code>, root: nat, ct: CodeType, lens: seq<nat>, s: nat, len: nat, code: nat)
    requires |lens| <= MaxCodes(ct) && Decodes(t, root, lens, ct) && s < |lens|
    requires lens[s] == len > 0 && StreamCode(lens, s) == Rev(len, code)
    ensures Finds(t, root, ct, s, len, code)
  {
    hide Decodes, Lookup, Shl, Rev, StreamCode;
    forall rest: nat
      ensures Lookup(t, root, Shl(rest, len) + Rev(len, code)) == Some((Entry(ct, s, EntryBits(root, len)), len))
    {
      SentCodeIsFound(t, root, lens, ct, s, rest);
    }
  }

  lemma FixedCodesRead(lt: seq<Code>, lroot: nat, dt: seq<Code>, droot: nat)
    requires Decodes(lt, lroot, StaticL(), LENS) && Decodes(dt, droot, Fives(32), DISTS)
    ensures ReadsFixedCodes(lt, lroot, dt, droot)
  {
    hide Decodes, Finds, StreamCode, Rev, FixedCode;
    forall s: nat | s < 288 ensures Finds(lt, lroot, LENS, s, FixedLength(s), FixedCode(s)) {
      StaticTable(s);
      FindsCode(lt, lroot, LENS, StaticL(), s, FixedLength(s), FixedCode(s));
    }
    forall s: nat | s < 32 ensures Finds(dt, droot, DISTS, s, 5, s) {
      FivesCode(32, s);
      FindsCode(dt, droot, DISTS, Fives(32), s, 5, s);
    }
  }

  /** The tables of the fixed codes. */
  method FixedPair() returns (lt: seq<Code>, lroot: nat, dt: seq<Code>, droot: nat)
    ensures FixedTables(lt, lroot, dt, droot) && ReadsFixedCodes(lt, lroot, dt, droot)
  {
    hide Prefix, Complete, Decodes, LinksOk, StaticL, Enough, ReadsFixedCodes;
    StaticComplete();
    FivesComplete();
    StaticValid();
    FixedFits();
    lt, lroot := MakeTable(LENS, StaticL(), 9);
    dt, droot := MakeTable(DISTS, Fives(32), 5);
    FixedCodesRead(lt, lroot, dt, droot);
  }

  lemma FixedFits()
    ensures Enough(LENS, StaticL(), 9) && Enough(DISTS, Fives(32), 5)
  {
    Pow2Bytes();
    assert Pow2(9) == 2 * Pow2(8);
    SmallPowers();
  }

  lemma TypeIs(s: Sent, v: nat, rest: nat)
    requires IsSent(s) && v == Stream(s.fields, rest) && rest > 0
    ensures s.kind != StoredBlock && Low(v, 3) / 2 == (if s.kind == FixedBlock then 1 else 2) && Shr(v, 3) > 0
    ensures Low(v, 3) % 2 == 1 <==> s.last
  {
    hide Stream, Low, Shr, BlockTrees, BlockFields, DynamicFields, BlReady, AllHaveCodes, HeaderFields;
    if s.kind == FixedBlock {
      TypeRead(FixedBlock, s.last, BlockFields(s.t, StaticL(), Fives(D_CODES), s.tokens), rest);
      StreamPositive(BlockFields(s.t, StaticL(), Fives(D_CODES), s.tokens), rest);
    } else {
      DynamicSplit(s.t, s.tree.lens, s.dtree.lens, s.bl, s.codes, s.nb, s.tokens, s.last, rest);
      HeaderOf(s, v, rest);
    }
  }

  lemma StaticValid()
    ensures ValidLens(StaticL()) && ValidLens(Fives(32))
  {
  }

  lemma TreesValid(s: Sent)
    requires IsSent(s)
    ensures ValidLens(s.tree.lens) && Prefix(s.tree.lens) && Complete(s.tree.lens) && |s.tree.lens| <= 288
    ensures Enough(LENS, s.tree.lens, 9) && Enough(DISTS, s.dtree.lens, 6)
    ensures ValidLens(s.dtree.lens) && Prefix(s.dtree.lens) && Complete(s.dtree.lens) && |s.dtree.lens| <= 32
  {
    hide LitFreqs, DistFreqs, Prefix, Complete, Coded, SentAs, BuildTree.RightSymbols, HasCodes, Covers;
    BlockTreesFacts(s.t, s.tokens, s.tree, s.dtree);
  }

  lemma FixedSent(s: Sent, v: nat, lt: seq<Code>, lroot: nat, dt: seq<Code>, droot: nat, rest: nat)
    requires IsSent(s) && s.kind == FixedBlock && v == Stream(s.fields, rest)
    requires FixedTables(lt, lroot, dt, droot)
    ensures GoodPair(lt, lroot, dt, droot) && Reads(lt, lroot, dt, droot, Shr(v, 3), s.tokens, rest)
  {
    hide BlockTrees, FixedTables, GoodPair, Reads, Stream, Shr, Low;
    FixedBlockRead(s.t, s.tokens, s.last, lt, lroot, dt, droot, rest);
  }

  lemma DynamicSent(s: Sent, lt: seq<Code>, lroot: nat, dt: seq<Code>, droot: nat, rest: nat)
    requires IsSent(s) && s.kind == DynamicBlock && END_BLOCK < |s.tree.lens|
    requires AllHaveCodes(s.t, s.tree.lens, s.dtree.lens, s.tokens)
    requires TableFor(lt, lroot, s.tree.lens, LENS) && TableFor(dt, droot, s.dtree.lens, DISTS)
    ensures GoodPair(lt, lroot, dt, droot)
    ensures Reads(lt, lroot, dt, droot, DataOf(s, rest), s.tokens, rest)
  {
    hide BlockTrees, GoodPair, Reads, Stream, Decodes, Prefix, Complete, LinksOk, BlockFields, AllHaveCodes;
    BlockTreesFacts(s.t, s.tokens, s.tree, s.dtree);
    PairOfCodes(lt, lroot, s.tree.lens, dt, droot, s.dtree.lens);
    BlockRead(s.t, s.tree.lens, s.dtree.lens, s.tokens, lt, lroot, dt, droot, rest);
  }

  lemma {:induction false} ApplySplit(h: seq<nat>, a: seq<Token>, b: seq<Token>)
    ensures Apply(h, a + b) == Apply(Apply(h, a), b)
    decreases |b|
  {
    hide Append;
    if b == [] {
      assert a + b == a;
    } else {
      var k := |b| - 1;
      assert (a + b)[..|a| + k] == a + b[..k];
      ApplySplit(h, a, b[..k]);
    }
  }

  /** What the state of the decoder says about a block behind others. */
  lemma JudgeBlock(start: Place, tokens: seq<Token>, place: Place, mode: Mode, v: nat, length: nat, offset: nat, extra: nat,
                   history: seq<nat>, wsize: nat, front: seq<Token>, all: seq<Token>, rest: nat)
    requires Follows(start, tokens, place) && Mid(place, mode, v, length, offset, extra, history, wsize)
    requires Reads(start.lt, start.lroot, start.dt, start.droot, start.at, all, rest)
    requires start.history == Expand(front) && InReach(front + all, wsize)
    ensures mode != BAD && history <= Expand(front + all) && (mode == TYPE ==> history == Expand(front + all) && v == rest)
  {
    hide Reads, Mid, Follows, Apply, InReach;
    BlockDone(start, tokens, place, mode, v, length, offset, extra, history, wsize, all, rest);
    ApplySplit([], front, all);
    if mode == BAD {
      var k := |tokens|;
      Reached(front + all, wsize, |front| + k);
      assert (front + all)[|front| + k] == all[k] && (front + all)[..|front| + k] == front + all[..k];
      ApplySplit([], front, all[..k]);
    }
    WrittenSoFar(start, tokens, place, mode, v, length, offset, extra, history, wsize, all, rest);
  }

  /** Read the next block, with all bytes at hand and room for all of it. */
  method ReadBlock(d: Inflater, size: nat, ghost s: Sent, ghost front: seq<Token>, ghost rest: nat) returns (last: bool, output: seq<nat>)
    requires d.Reading() && d.bits < 8 && d.future == [1] && Circular(d.window[..], d.wnext, d.whave, d.history)
    requires IsSent(s) && rest > 0 && d.Ahead() == Stream(s.fields, rest)
    requires d.history == Expand(front) && InReach(front + s.tokens, d.window.Length) && size > |Expand(front + s.tokens)|
    modifies d, d.window
    ensures d.Reading() && d.bits < 8 && d.future == [1] && Circular(d.window[..], d.wnext, d.whave, d.history)
    ensures d.Ahead() == rest && d.history == old(d.history) + output == Expand(front + s.tokens) && last == s.last
  {
    hide Stream, Number, IsSent, InReach, Reads, GoodPair, Circular, Mid, Follows, Apply, Pow2, Due, Rest, BitIo.Bytes;
    var lt, lroot, dt, droot;
    last, lt, lroot, dt, droot := ReadHead(d, s, rest);
    d.StartBlock(lt, lroot, dt, droot);
    var out := new nat[size];
    var n := d.Call(out);
    output := out[..n];
    JudgeBlock(d.start, d.tokens, d.place, d.mode, d.Ahead(), d.length, d.offset, d.extra, d.history, d.window.Length, front, s.tokens, rest);
    assert EndsWithin(lt, lroot, dt, droot, d.start.at, s.tokens);
    NotStarved(d, s.tokens);
  }

  lemma {:induction false} TokensSplit(blocks: seq<Sent>, i: nat)
    requires i <= |blocks|
    ensures AllTokens(blocks) == AllTokens(blocks[..i]) + AllTokens(blocks[i..])
    decreases i
  {
    if i == 0 {
      assert blocks[..0] == [] && blocks[0..] == blocks;
    } else {
      assert blocks[..i][0] == blocks[0] && blocks[..i][1..] == blocks[1..][..i - 1] && blocks[1..][i - 1..] == blocks[i..];
      TokensSplit(blocks[1..], i - 1);
    }
  }

  /** One block further. */
  lemma NextBlock(blocks: seq<Sent>, i: nat, rest: nat, wsize: nat)
    requires i < |blocks| && rest > 0 && InReach(AllTokens(blocks), wsize)
    ensures Stream(AllFields(blocks[i..]), rest) == Stream(blocks[i].fields, Stream(AllFields(blocks[i + 1..]), rest))
    ensures Stream(AllFields(blocks[i + 1..]), rest) > 0
    ensures AllTokens(blocks[..i + 1]) == AllTokens(blocks[..i]) + blocks[i].tokens
    ensures AllTokens(blocks[..i + 1]) <= AllTokens(blocks) && InReach(AllTokens(blocks[..i + 1]), wsize)
    ensures |Expand(AllTokens(blocks[..i + 1]))| <= |Expand(AllTokens(blocks))|
  {
    hide Stream, ReachAt, Apply;
    assert blocks[i..][0] == blocks[i] && blocks[i..][1..] == blocks[i + 1..];
    StreamAppend(blocks[i].fields, AllFields(blocks[i + 1..]), rest);
    StreamPositive(AllFields(blocks[i + 1..]), rest);
    assert blocks[..i + 1] == blocks[..i] + [blocks[i]];
    OneMoreBlock(blocks[..i], blocks[i]);
    TokensSplit(blocks, i + 1);
    var all, k := AllTokens(blocks), |AllTokens(blocks[..i + 1])|;
    assert AllTokens(blocks[..i + 1]) == all[..k];
    ReachOfFront(all, wsize, k);
    ApplyGrows([], all, k);
  }

  lemma ReachOfFront(all: seq<Token>, wsize: nat, k: nat)
    requires InReach(all, wsize) && k <= |all|
    ensures InReach(all[..k], wsize)
  {
    forall i | 0 <= i < k ensures ReachAt(all[..k], wsize, i) {
      assert ReachAt(all, wsize, i) && all[..k][..i] == all[..i];
    }
  }

  /** Read back all blocks up to the last one. */
  method ReadAll(bytes: seq<nat>, wsize: nat, size: nat, ghost blocks: seq<Sent>, ghost rest: nat) returns (output: seq<nat>)
    requires BitIo.Bytes(bytes) && wsize > 0 && |blocks| > 0 && AreSent(blocks, true)
    requires InReach(AllTokens(blocks), wsize) && size > |Expand(AllTokens(blocks))|
    requires rest > 0 && Number(bytes + [1]) == Stream(AllFields(blocks), rest)
    ensures output == Expand(AllTokens(blocks))
  {
    hide Stream, Number, IsSent, InReach, Circular, Apply, Pow2, AllFields, AllTokens, Rest;
    var d := new Inflater(wsize);
    d.source := bytes;
    d.future := [1];
    assert BitIo.Bytes(bytes + [1]);
    RestOfAll(bytes + [1], blocks);
    output := [];
    ghost var i := 0;
    var last := false;
    while !last
      invariant 0 <= i <= |blocks| && (last <==> i == |blocks|) && fresh(d) && fresh(d.window) && d.window.Length == wsize
      invariant d.Reading() && d.bits < 8 && d.future == [1] && Circular(d.window[..], d.wnext, d.whave, d.history)
      invariant d.Ahead() == Stream(AllFields(blocks[i..]), rest)
      invariant d.history == output == Expand(AllTokens(blocks[..i]))
      decreases |blocks| - i
    {
      NextBlock(blocks, i, rest, wsize);
      var written;
      last, written := ReadBlock(d, size, blocks[i], AllTokens(blocks[..i]), Stream(AllFields(blocks[i + 1..]), rest));
      output := output + written;
      i := i + 1;
    }
    assert blocks[..i] == blocks;
  }

  lemma RestOfAll(bytes: seq<nat>, blocks: seq<Sent>)
    ensures Rest(0, 0, bytes) == Number(bytes) && 0 < Pow2(0)
    ensures blocks[0..] == blocks && AllTokens(blocks[..0]) == [] && Expand([]) == []
  {
  }

  // ----- all of it ------------------------------------------------------------------------------------

  lemma TokensExpressible(cfg: Config, tokens: seq<Token>)
    requires cfg.Ok() && forall i :: 0 <= i < |tokens| ==> GoodToken(cfg, tokens[i])
    ensures AllExpressible(tokens)
  {
    forall i | 0 <= i < |tokens| ensures Expressible(tokens[i]) { assert GoodToken(cfg, tokens[i]); }
  }

  /**
    Compress input with ample output space, in blocks of `size` tokens, and
    decompress the bytes: every input comes back.
   */
  method DeflateThenInflate(cfg: Config, tuning: Tuning, filtered: bool, lazy: bool, fixed: bool, size: nat, input: seq<nat>)
    returns (bytes: seq<nat>, output: seq<nat>)
    requires cfg.Ok() && tuning.Ok() && HashChains.Bytes(input) && 1 <= size < 0x7fff
    ensures output == input
  {
    hide AreSent, InReach, Expand, Stream, Number, GoodToken, AllTokens, AllFields;
    ghost var why, events;
    var tokens, done;
    tokens, done, why, events := Deflate.Compress(cfg, tuning, filtered, lazy, [input], [Deflate.Finish], [true]);
    OneChunk(input);
    TokensExpressible(cfg, tokens);
    ghost var blocks, rest;
    bytes, blocks, rest := SendAll(tokens, size, fixed);
    output := ReadAll(bytes, cfg.wsize, |input| + 1, blocks, rest);
  }

  lemma OneChunk(input: seq<nat>)
    ensures Concat([input]) == input
  {
    var one: seq<seq<nat>> := [input];
    assert one[..0] == [];
    assert Concat(one) == Concat(one[..0]) + input;
  }
}
