/**
  The encoder against the decoder: what _tr_flush_block of deps/zlib/trees.c sends
  is what inflate of deps/zlib/inflate.c writes, however input and output are cut
  into calls.
 */
module RoundTrip {
  import opened Wrappers
  import opened Bits
  import opened Canonical
  import opened BitIo
  import opened Lz77
  import opened InflateSpec
  import opened InflateTable
  import opened InflateLookup
  import opened InflateWindow
  import opened SymbolTables
  import opened CodeLengths
  import opened SendTree
  import opened Block
  import opened Header
  import BlockCost
  import opened StaticTrees
  import opened FlushBlock
  import opened Inflate
  import opened InflateProgress

  // ----- the tables of complete codes -----------------------------------------------------------

  lemma LengthResult(c: nat, x: nat)
    requires c < 29 && x < Pow2(LEXT[c] - 16) && 16 <= LEXT[c] < 32
    ensures 3 <= LBASE[c] + x <= 258
  {
    hide Pow2;
    PowersTo13();
    if c < 28 {
      LengthBases(c);
      if c < 27 { LengthBases(c + 1); LengthTop(c + 1); }
    } else {
      assert LBASE[c] == 258 && LEXT[c] == 16;
    }
  }

  lemma {:induction false} LengthTop(c: nat)
    requires c < 28
    ensures LBASE[c] <= 258
    decreases 28 - c
  {
    hide Pow2, LBASE, LEXT;
    LengthBases(c);
    if c < 27 { LengthTop(c + 1); }
  }

  /** What a literal/length entry can be. */
  lemma LenEntry(sym: nat, bits: nat)
    requires sym < 288
    ensures var e := Entry(LENS, sym, bits);
            && (e.op == 0 ==> e.val < 256)
            && (16 <= e.op < 32 ==> e.op <= 21)
            && (e.op != 0 && !HasBit(e.op, 32) && !HasBit(e.op, 64) ==>
                  257 <= sym < 286 && e.op == LEXT[sym - 257] && 16 <= e.op < 32 && e.val == LBASE[sym - 257])
  {
    if sym > 256 { LenOps(sym - 257); }
  }

  lemma LenOps(c: nat)
    requires c < 31
    ensures LEXT[c] != 0 && (16 <= LEXT[c] < 32 ==> LEXT[c] <= 21)
    ensures c < 29 ==> 16 <= LEXT[c] < 32
    ensures c >= 29 ==> HasBit(LEXT[c], 64)
  {
  }

  lemma DistEntryIs(sym: nat, bits: nat)
    requires sym < 32
    ensures var e := Entry(DISTS, sym, bits);
            && e.op != 0 && (16 <= e.op < 32 ==> e.op <= 29)
            && (!HasBit(e.op, 64) ==> e.val >= 1)
  {
    DistOps(sym);
  }

  lemma DistOps(c: nat)
    requires c < 32
    ensures DEXT[c] != 0 && (16 <= DEXT[c] < 32 ==> DEXT[c] <= 29)
    ensures !HasBit(DEXT[c], 64) ==> DBASE[c] >= 1
  {
  }

  /** A table with everything the decoder builds for a complete code. */
  ghost predicate TableFor(t: seq<Code>, root: nat, lens: seq<nat>, ct: CodeType) {
    && ValidLens(lens) && |lens| <= MaxCodes(ct) && Prefix(lens) && Complete(lens)
    && Decodes(t, root, lens, ct) && LinksOk(t, root)
  }

  /** The tables of two complete codes serve the decoder. */
  lemma PairOfCodes(lt: seq<Code>, lroot: nat, ll: seq<nat>, dt: seq<Code>, droot: nat, dl: seq<nat>)
    requires TableFor(lt, lroot, ll, LENS) && TableFor(dt, droot, dl, DISTS)
    ensures GoodPair(lt, lroot, dt, droot)
  {
    hide Lookup, Prefix, Complete, Decodes, LinksOk, Entry, NextToken, StartsWith, HasBit;
    CompleteUsable(lt, lroot, ll, LENS);
    CompleteUsable(dt, droot, dl, DISTS);
    forall v: nat ensures ExtraAt(lt, lroot, v, 5) {
      var s := EveryStreamDecodes(lt, lroot, ll, LENS, v);
      LenEntry(s, EntryBits(lroot, ll[s]));
    }
    forall v: nat ensures ExtraAt(dt, droot, v, 13) && NoLiteralAt(dt, droot, v) {
      var s := EveryStreamDecodes(dt, droot, dl, DISTS, v);
      DistEntryIs(s, EntryBits(droot, dl[s]));
    }
    forall v: nat ensures GoodResult(NextToken(lt, lroot, dt, droot, v)) {
      ResultOfCodes(lt, lroot, ll, dt, droot, dl, v);
    }
  }

  lemma ResultOfCodes(lt: seq<Code>, lroot: nat, ll: seq<nat>, dt: seq<Code>, droot: nat, dl: seq<nat>, v: nat)
    requires TableFor(lt, lroot, ll, LENS) && TableFor(dt, droot, dl, DISTS)
    ensures GoodResult(NextToken(lt, lroot, dt, droot, v))
  {
    hide Lookup, Prefix, Complete, Decodes, LinksOk, Entry, StartsWith, HasBit, Low, Shr, Pow2, LBASE, LEXT, DBASE, DEXT;
    var s := EveryStreamDecodes(lt, lroot, ll, LENS, v);
    var e, n := Entry(LENS, s, EntryBits(lroot, ll[s])), ll[s];
    LenEntry(s, EntryBits(lroot, ll[s]));
    if e.op != 0 && !HasBit(e.op, 32) && !HasBit(e.op, 64) {
      var x := Low(Shr(v, n), e.op % 16);
      LowBound(Shr(v, n), e.op % 16);
      LengthResult(s - 257, x);
      var u := Shr(v, n + e.op % 16);
      var d := EveryStreamDecodes(dt, droot, dl, DISTS, u);
      DistEntryIs(d, EntryBits(droot, dl[d]));
    }
  }

  // ----- a block through the decoder --------------------------------------------------------------

  lemma {:induction false} ConcatBytes(chunks: seq<seq<nat>>)
    requires forall i :: 0 <= i < |chunks| ==> Bytes(chunks[i])
    ensures Bytes(Concat(chunks))
    decreases |chunks|
  {
    if chunks != [] { ConcatBytes(chunks[..|chunks| - 1]); }
  }

  lemma NextChunk(chunks: seq<seq<nat>>, i: nat, source: seq<nat>, tail: seq<nat>)
    requires i < |chunks|
    ensures source + (Concat(chunks[i..]) + tail) == source + chunks[i] + (Concat(chunks[i + 1..]) + tail)
  {
    var rest := chunks[i..];
    ConcatSplit(rest, 1);
    assert rest[..1] == [chunks[i]] && rest[1..] == chunks[i + 1..];
    var one: seq<seq<nat>> := [chunks[i]];
    assert one[..0] == [];
    assert Concat(one) == Concat(one[..0]) + chunks[i];
  }

  lemma NoMoreChunks(chunks: seq<seq<nat>>, tail: seq<nat>)
    ensures Concat(chunks[|chunks|..]) + tail == tail
  {
    assert chunks[|chunks|..] == [];
  }

  /**
    A whole run of the decoder on one block: for every division of the input into
    chunks and every size of each call's output buffer, what is written is a
    beginning of the block's expansion, and all of it once the end of the block
    is reported.  It is reported, at the latest, by the last call, if the block
    ends within the input and that call has room for more than it writes.
    `tail` is what follows the input in the stream.
   */
  method InflateRun(wsize: nat, lt: seq<Code>, lroot: nat, dt: seq<Code>, droot: nat, chunks: seq<seq<nat>>, sizes: seq<nat>,
                    ghost tail: seq<nat>, ghost all: seq<Token>, ghost rest: nat)
    returns (output: seq<nat>, done: bool, full: bool)
    requires wsize > 0 && GoodPair(lt, lroot, dt, droot) && |sizes| == |chunks|
    requires Bytes(tail) && forall i :: 0 <= i < |chunks| ==> Bytes(chunks[i])
    requires Reads(lt, lroot, dt, droot, Number(Concat(chunks) + tail), all, rest) && InReach(all, wsize)
    ensures output <= Expand(all)
    ensures done ==> output == Expand(all)
    ensures tail == [1] && rest > 0 && |chunks| > 0 && !full ==> done
    ensures |chunks| > 0 && sizes[|chunks| - 1] > |Expand(all)| ==> !full
  {
    hide GoodPair, Reads, Circular, Pow2, Number, Mid, Follows, Apply, Concat, InReach, Due;
    var d := new Inflater(wsize);
    ConcatBytes(chunks);
    d.future := Concat(chunks) + tail;
    assert d.source + d.future == Concat(chunks) + tail;
    StartReading(d.source + d.future);
    d.StartBlock(lt, lroot, dt, droot);
    output, full := Calls(d, chunks, sizes, tail);
    done := d.mode == TYPE;
    Judge(d.start, d.tokens, d.place, d.mode, d.Ahead(), d.length, d.offset, d.extra, d.history, wsize, all, rest);
    if tail == [1] && rest > 0 {
      assert EndsWithin(lt, lroot, dt, droot, d.start.at, all);
      NotStarved(d, all);
    }
  }

  /** A block that ends within the input leaves the decoder no reason to wait at the end of the input. */
  lemma NotStarved(d: Inflater, all: seq<Token>)
    requires d.Consistent() && d.future == [1]
    requires EndsWithin(d.start.lt, d.start.lroot, d.start.dt, d.start.droot, d.start.at, all)
    ensures !d.Starved()
  {
    hide EndsWithin, GoodPair, Pow2, Number, Mid, Follows, Due;
    if d.Starved() {
      assert d.source + d.future == [1];
      DoesNotWait(d.start, d.tokens, d.place, d.mode, d.hold, d.bits, d.length, d.offset, d.extra, d.history, d.window.Length, all);
    }
  }

  /** The calls of a run. */
  method Calls(d: Inflater, chunks: seq<seq<nat>>, sizes: seq<nat>, ghost tail: seq<nat>) returns (output: seq<nat>, full: bool)
    requires d.Valid() && d.history == [] && d.source == [] && d.future == Concat(chunks) + tail && |sizes| == |chunks|
    modifies d, d.window
    ensures d.Valid() && d.history == output && d.start == old(d.start) && d.future == tail
    ensures |chunks| > 0 ==> d.mode in {TYPE, BAD} || d.Starved() || full
    ensures full ==> |chunks| > 0 && |output| >= sizes[|chunks| - 1]
  {
    hide GoodPair, Circular, Pow2, Number, Mid, Follows, Concat, Rest, Shr, Needs, Due;
    output, full := [], false;
    assert chunks[0..] == chunks;
    ghost var start := d.start;
    var i := 0;
    while i < |chunks|
      invariant 0 <= i <= |chunks| && d.Valid() && d.history == output
      invariant d.start == start && d.future == Concat(chunks[i..]) + tail
      invariant i > 0 ==> d.mode in {TYPE, BAD} || d.Starved() || full
      invariant full ==> i > 0 && |output| >= sizes[i - 1]
    {
      NextChunk(chunks, i, d.source, tail);
      d.source := d.source + chunks[i];
      d.future := Concat(chunks[i + 1..]) + tail;
      var out := new nat[sizes[i]];
      var n := d.Call(out);
      full := n == sizes[i];
      output := output + out[..n];
      i := i + 1;
    }
    NoMoreChunks(chunks, tail);
  }

  /** What the state of the decoder says about the block. */
  lemma Judge(start: Place, tokens: seq<Token>, place: Place, mode: Mode, v: nat, length: nat, offset: nat, extra: nat,
              history: seq<nat>, wsize: nat, all: seq<Token>, rest: nat)
    requires Follows(start, tokens, place) && Mid(place, mode, v, length, offset, extra, history, wsize) && start.history == []
    requires Reads(start.lt, start.lroot, start.dt, start.droot, start.at, all, rest) && InReach(all, wsize)
    ensures mode != BAD && history <= Expand(all) && (mode == TYPE ==> history == Expand(all))
  {
    hide Reads, Mid, Follows, Apply, InReach;
    BlockDone(start, tokens, place, mode, v, length, offset, extra, history, wsize, all, rest);
    if mode == BAD { Reached(all, wsize, |tokens|); }
    WrittenSoFar(start, tokens, place, mode, v, length, offset, extra, history, wsize, all, rest);
  }

  lemma Reached(all: seq<Token>, wsize: nat, i: nat)
    requires InReach(all, wsize) && i < |all|
    ensures all[i].Copy? ==> all[i].distance <= wsize && all[i].distance <= |Apply([], all[..i])|
  {
    assert ReachAt(all, wsize, i);
  }

  // ----- what is sent is what is read ----------------------------------------------------------------

  lemma TypeRead(kind: Kind, last: bool, fields: seq<Field>, rest: nat)
    ensures var v := Stream([TypeField(kind, last)] + fields, rest);
            Low(v, 3) == TypeField(kind, last).value && Shr(v, 3) == Stream(fields, rest)
  {
    hide Stream, Low, Shr;
    TypeFits(kind, last);
    StreamAppend([TypeField(kind, last)], fields, rest);
    StreamOne(TypeField(kind, last), Stream(fields, rest));
  }

  lemma TreeTable(freq: seq<nat>, tree: Tree, t: seq<Code>, root: nat, ct: CodeType)
    requires TreeFor(freq, MAXBITS, tree) && |tree.lens| <= MaxCodes(ct) && Decodes(t, root, tree.lens, ct) && LinksOk(t, root)
    ensures TableFor(t, root, tree.lens, ct)
  {
  }

  /**
    A dynamic block: the decoder reads the type and the counts; the lengths of the
    code length code; with its table the lengths of both codes; and with theirs
    the tokens of the block.  What follows the block is untouched.
   */
  lemma DynamicBlockRead(t: Tables, tokens: seq<Token>, tree: Tree, dtree: Tree, bl: seq<nat>, codes: seq<nat>, nb: nat, last: bool,
                         bt: seq<Code>, broot: nat, lt: seq<Code>, lroot: nat, dt: seq<Code>, droot: nat, rest: nat)
    requires BlockTrees(t, tokens, tree, dtree) && BlReady(tree.lens, dtree.lens, bl, codes, nb)
    requires 257 <= |tree.lens| && 1 <= |dtree.lens| && AllHaveCodes(t, tree.lens, dtree.lens, tokens)
    requires Decodes(bt, broot, bl, CODES)
    requires |tree.lens| <= 288 && Decodes(lt, lroot, tree.lens, LENS) && LinksOk(lt, lroot)
    requires |dtree.lens| <= 32 && Decodes(dt, droot, dtree.lens, DISTS) && LinksOk(dt, droot)
    ensures GoodPair(lt, lroot, dt, droot)
    ensures var v := Stream(DynamicFields(t, tree.lens, dtree.lens, bl, codes, nb, tokens, last), rest);
            var h := Shr(v, 3);
            var u := Shr(Shr(Shr(h, 5), 5), 4);
            var block := Stream(BlockFields(t, tree.lens, dtree.lens, tokens), rest);
            && Low(v, 3) == TypeField(DynamicBlock, last).value
            && Low(h, 5) + 257 == |tree.lens| && Low(Shr(h, 5), 5) + 1 == |dtree.lens| && Low(Shr(Shr(h, 5), 5), 4) + 4 == nb
            && BlReceived(Taken(u, Threes(nb))) == bl
            && ReadLens(bt, broot, Shr(u, 3 * nb), [], |tree.lens| + |dtree.lens|) == Lengths(tree.lens + dtree.lens, block)
            && Reads(lt, lroot, dt, droot, block, tokens, rest)
  {
    hide Stream, Low, Shr, ReadLens, Reads, BlockFields, HeaderFields, Decodes, LinksOk, GoodPair, BlReceived, Taken, AllHaveCodes,
         BlockTrees, BlReady, DynamicFields, LengthsOk, Coded, BlockCost.Covers;
    BlockTreesFacts(t, tokens, tree, dtree);
    var ll, dl := tree.lens, dtree.lens;
    DynamicSplit(t, ll, dl, bl, codes, nb, tokens, last, rest);
    ReadyHeader(ll, dl, bl, codes, nb, bt, broot, Stream(BlockFields(t, ll, dl, tokens), rest));
    BlockRead(t, ll, dl, tokens, lt, lroot, dt, droot, rest);
    TablesServe(t, tokens, tree, dtree, lt, lroot, dt, droot);
  }

  /** A dynamic block is its type, its header and its data. */
  lemma DynamicSplit(t: Tables, ll: seq<nat>, dl: seq<nat>, bl: seq<nat>, codes: seq<nat>, nb: nat, tokens: seq<Token>, last: bool, rest: nat)
    requires BlReady(ll, dl, bl, codes, nb) && 257 <= |ll| && 1 <= |dl| && AllHaveCodes(t, ll, dl, tokens)
    ensures 4 <= nb <= 19 && Sendable(bl, Compressed(ll)) && Sendable(bl, Compressed(dl))
    ensures var v := Stream(DynamicFields(t, ll, dl, bl, codes, nb, tokens, last), rest);
            && Low(v, 3) == TypeField(DynamicBlock, last).value
            && Shr(v, 3) == Stream(HeaderFields(ll, dl, bl, nb), Stream(BlockFields(t, ll, dl, tokens), rest))
  {
    hide Stream, Low, Shr, BlockFields, HeaderFields, AllHaveCodes, Compressed, Sendable, Coded, Prefix, Complete, BL_ORDER;
    var head, data := HeaderFields(ll, dl, bl, nb), BlockFields(t, ll, dl, tokens);
    assert [TypeField(DynamicBlock, last)] + head + data == [TypeField(DynamicBlock, last)] + (head + data);
    TypeRead(DynamicBlock, last, head + data, rest);
    StreamAppend(head, data, rest);
  }

  lemma ReadyHeader(ll: seq<nat>, dl: seq<nat>, bl: seq<nat>, codes: seq<nat>, nb: nat, bt: seq<Code>, broot: nat, rest: nat)
    requires BlReady(ll, dl, bl, codes, nb) && Decodes(bt, broot, bl, CODES)
    requires 257 <= |ll| <= 288 && 1 <= |dl| <= 32 && LengthsOk(ll) && LengthsOk(dl)
    ensures var v := Stream(HeaderFields(ll, dl, bl, nb), rest);
            var u := Shr(Shr(Shr(v, 5), 5), 4);
            && Low(v, 5) + 257 == |ll| && Low(Shr(v, 5), 5) + 1 == |dl| && Low(Shr(Shr(v, 5), 5), 4) + 4 == nb
            && BlReceived(Taken(u, Threes(nb))) == bl
            && ReadLens(bt, broot, Shr(u, 3 * nb), [], |ll| + |dl|) == Lengths(ll + dl, rest)
  {
    hide Stream, Low, Shr, ReadLens, HeaderFields, Decodes, BlReceived, Taken, Compressed, Sendable, Coded, Prefix, Complete, BL_ORDER, LengthsOk;
    HeaderRead(ll, dl, bl, nb, bt, broot, rest);
  }

  lemma TablesServe(t: Tables, tokens: seq<Token>, tree: Tree, dtree: Tree, lt: seq<Code>, lroot: nat, dt: seq<Code>, droot: nat)
    requires BlockTrees(t, tokens, tree, dtree)
    requires |tree.lens| <= 288 && Decodes(lt, lroot, tree.lens, LENS) && LinksOk(lt, lroot)
    requires |dtree.lens| <= 32 && Decodes(dt, droot, dtree.lens, DISTS) && LinksOk(dt, droot)
    ensures GoodPair(lt, lroot, dt, droot)
  {
    hide Decodes, LinksOk, GoodPair, TreeFor, TableFor;
    TreeTable(BlockCost.LitFreqs(t, tokens), tree, lt, lroot, LENS);
    TreeTable(BlockCost.DistFreqs(t, tokens), dtree, dt, droot, DISTS);
    PairOfCodes(lt, lroot, tree.lens, dt, droot, dtree.lens);
  }

  /** A fixed distance code with all 32 symbols decodes the 30 that exist. */
  lemma FivesDecode(dt: seq<Code>, droot: nat, n: nat)
    requires n <= 32 && Decodes(dt, droot, Fives(32), DISTS)
    ensures Decodes(dt, droot, Fives(n), DISTS)
  {
    hide Lookup, StreamCode, Low, Entry;
    forall s: nat, v: nat | s < n && StartsWith(Fives(n), s, v)
      ensures Lookup(dt, droot, v) == Some((Entry(DISTS, s, EntryBits(droot, 5)), 5))
    {
      FivesCode(n, s);
      FivesCode(32, s);
      DecodesAt(dt, droot, Fives(32), DISTS, s, v);
    }
  }

  /** The decoder's tables for the fixed codes. */
  ghost predicate FixedTables(lt: seq<Code>, lroot: nat, dt: seq<Code>, droot: nat) {
    TableFor(lt, lroot, StaticL(), LENS) && TableFor(dt, droot, Fives(32), DISTS)
  }

  /** A fixed block is read with the fixed tables. */
  lemma FixedBlockRead(t: Tables, tokens: seq<Token>, last: bool, lt: seq<Code>, lroot: nat, dt: seq<Code>, droot: nat, rest: nat)
    requires AllHaveCodes(t, StaticL(), Fives(D_CODES), tokens)
    requires FixedTables(lt, lroot, dt, droot)
    ensures GoodPair(lt, lroot, dt, droot)
    ensures var v := Stream(FixedFields(t, tokens, last), rest);
            && Low(v, 3) == TypeField(FixedBlock, last).value
            && Reads(lt, lroot, dt, droot, Shr(v, 3), tokens, rest)
  {
    hide Stream, Low, Shr, Reads, BlockFields, Decodes, LinksOk, GoodPair, AllHaveCodes, Prefix, Complete;
    PairOfCodes(lt, lroot, StaticL(), dt, droot, Fives(32));
    FivesDecode(dt, droot, D_CODES);
    TypeRead(FixedBlock, last, BlockFields(t, StaticL(), Fives(D_CODES), tokens), rest);
    BlockRead(t, StaticL(), Fives(D_CODES), tokens, lt, lroot, dt, droot, rest);
  }
}
