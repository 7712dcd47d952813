/**
  _tr_flush_block of deps/zlib/trees.c: build the trees of a block, predict its
  length, choose an encoding and send it.
 */
module FlushBlock {
  import opened Bits
  import opened Canonical
  import opened BitLengths
  import opened HuffmanOptimal
  import opened BuildTree
  import opened BitIo
  import opened Lz77
  import opened CodeLengths
  import opened SendTree
  import opened SymbolTables
  import opened Block
  import opened BlockCost
  import opened Header
  import opened StaticTrees

  /** A code: lengths up to the last symbol, and codes as they are sent. */
  datatype Tree = Tree(lens: seq<nat>, codes: seq<nat>)

  /**
    Below 2^16 in all, rarer symbols have no shorter codes, and the lengths are optimal
    unless an optimal code has one above m.
   */
  ghost predicate Compact(freq: seq<nat>, lens: seq<nat>, m: nat)
    requires |lens| <= |freq|
  {
    var w := Weights(freq, lens);
    Total(Syms(w, |w|), w) < 0x1_0000 ==> Graded(w, lens) && exists best :: BestLengths(freq, lens, m, best)
  }

  lemma CompactSame(a: seq<nat>, b: seq<nat>, lens: seq<nat>, m: nat, best: seq<nat>)
    requires |lens| <= |a| && |lens| <= |b| && forall s :: 0 <= s < |lens| ==> a[s] == b[s]
    requires var w := Weights(a, lens); Total(Syms(w, |w|), w) < 0x1_0000 ==> BestLengths(a, lens, m, best) && Graded(w, lens)
    ensures Compact(b, lens, m)
  {
    hide Optimal, Graded, Total, Syms;
    assert Weights(a, lens) == Weights(b, lens);
    if BestLengths(a, lens, m, best) { assert BestLengths(b, lens, m, best); }
  }

  /** What build_tree promises about the tree of a list of frequencies. */
  ghost predicate TreeFor(freq: seq<nat>, m: nat, tree: Tree) {
    && RightSymbols(freq, |freq|, tree.lens) && tree.lens != []
    && (forall s :: 0 <= s < |tree.lens| ==> tree.lens[s] <= m)
    && Prefix(tree.lens) && Complete(tree.lens) && Coded(tree.codes, tree.lens)
  }

  lemma RightSame(a: seq<nat>, b: seq<nat>, elems: nat, lens: seq<nat>)
    requires RightSymbols(a, elems, lens) && elems <= |b| && forall s :: 0 <= s < elems ==> a[s] == b[s]
    ensures RightSymbols(b, elems, lens)
  {
    UsedSame(a, b, elems);
  }

  /** build_tree for a list of frequencies. */
  method BuildOne(freq: seq<nat>, m: nat, extra: seq<nat>, slens: seq<nat>) returns (tree: Tree, opt: int, stat: int)
    requires 3 <= |freq| && 1 <= m <= MAXBITS && |extra| == |slens| == |freq| && extra[0] == extra[1] == extra[2] == 0
    requires Used(freq, |freq|) <= Pow2(m)
    ensures TreeFor(freq, m, tree) && |tree.codes| > 2 * |freq| && |tree.lens| <= |freq| && Compact(freq, tree.lens, m)
    ensures opt == Cost(freq, tree.lens, tree.lens, extra, |tree.lens|)
    ensures stat == Cost(freq, tree.lens, slens, extra, |tree.lens|)
  {
    hide Prefix, Complete, Tally, RightSymbols, Cost, Used, StreamCode, BestLengths, Syms, Total, Weights, Pow2, Compact, Graded;
    var elems := |freq|;
    var fc := new nat[2 * elems + 1](i => if 0 <= i < elems then freq[i] else 0);
    var dl := new nat[2 * elems + 1];
    var heap := new nat[2 * elems + 1];
    var depth := new nat[2 * elems + 1](_ => 0);
    var bl := new nat[MAXBITS + 1];
    ghost var f0 := fc[..];
    UsedAgain(freq, f0, elems);
    var maxCode;
    ghost var lens, best;
    maxCode, opt, stat, lens, best := BuildTree.BuildTree(fc, dl, heap, depth, bl, elems, m, extra, slens);
    tree := Tree(dl[..maxCode + 1], fc[..]);
    assert tree.lens == lens;
    CompactSame(f0, freq, lens, m, best);
    RightSame(f0, freq, elems, lens);
    CostSame(f0, freq, lens, lens, lens, extra, extra, |lens|);
    CostSame(f0, freq, lens, slens, slens, extra, extra, |lens|);
  }

  lemma UsedAgain(a: seq<nat>, b: seq<nat>, n: nat)
    requires n <= |a| && n <= |b| && forall s :: 0 <= s < n ==> a[s] == b[s]
    ensures Used(a, n) == Used(b, n)
  {
    UsedSame(a, b, n);
  }

  // ----- every symbol of the block has a code ------------------------------------------------------

  lemma {:induction false} SymbolsOccur(t: Tables, tokens: seq<Token>, i: nat)
    requires GoodTables(t) && AllExpressible(tokens) && i < |tokens|
    ensures LitFreqs(t, tokens)[LitSymbol(t, tokens[i])] > 0
    ensures tokens[i].Copy? ==>
              var d := DistSymbol(t, tokens[i].distance).code;
              d < D_CODES && DistFreqs(t, tokens)[d] > 0
    decreases |tokens|
  {
    hide LitFreqs, DistFreqs, LitSymbol, DistSymbol, GoodTables;
    var k := |tokens| - 1;
    assert tokens == tokens[..k] + [tokens[k]];
    FreqsMore(t, tokens[..k], tokens[k]);
    DistFreqsMore(t, tokens[..k], tokens[k]);
    if i < k {
      assert tokens[..k][i] == tokens[i];
      SymbolsOccur(t, tokens[..k], i);
    }
  }

  lemma {:induction false} EndOccurs(t: Tables, tokens: seq<Token>)
    requires GoodTables(t) && AllExpressible(tokens)
    ensures LitFreqs(t, tokens)[END_BLOCK] > 0
    decreases |tokens|
  {
    hide LitSymbol;
    if tokens != [] { EndOccurs(t, tokens[..|tokens| - 1]); }
  }

  lemma TreesCover(t: Tables, tokens: seq<Token>, ll: seq<nat>, dl: seq<nat>)
    requires GoodTables(t) && AllExpressible(tokens)
    requires RightSymbols(LitFreqs(t, tokens), L_CODES, ll) && RightSymbols(DistFreqs(t, tokens), D_CODES, dl)
    ensures Covers(LitFreqs(t, tokens), ll, |ll|) && Covers(DistFreqs(t, tokens), dl, |dl|)
    ensures |ll| > END_BLOCK && ll[END_BLOCK] > 0 && AllHaveCodes(t, ll, dl, tokens)
  {
    hide LitFreqs, DistFreqs, LengthSymbol, DistSymbol, GoodTables, Used;
    EndOccurs(t, tokens);
    forall i | 0 <= i < |tokens| ensures HasCodes(t, ll, dl, tokens[i]) {
      SymbolsOccur(t, tokens, i);
      assert Expressible(tokens[i]);
    }
  }

  lemma StaticCovers(t: Tables, tokens: seq<Token>)
    requires GoodTables(t) && AllExpressible(tokens)
    ensures AllHaveCodes(t, StaticL(), Fives(D_CODES), tokens)
  {
    hide LengthSymbol, DistSymbol, GoodTables;
    forall i | 0 <= i < |tokens| ensures HasCodes(t, StaticL(), Fives(D_CODES), tokens[i]) {
      assert Expressible(tokens[i]);
      match tokens[i]
      case Literal(_) => {}
      case Copy(distance, length) => {
        LengthSymbolMeans(t, length);
        DistSymbolMeans(t, distance);
      }
    }
  }

  // ----- lengths padded with zeros -------------------------------------------------------------------

  function Pad(lens: seq<nat>, n: nat): (r: seq<nat>)
    ensures |r| == n
  {
    seq(n, i requires 0 <= i < n => if i < |lens| then lens[i] else 0)
  }

  lemma {:induction false} PadCount(lens: seq<nat>, n: nat, k: nat, b: nat)
    requires |lens| <= n && k <= n && b > 0
    ensures CountTo(Pad(lens, n), k, b) == CountTo(lens, if k < |lens| then k else |lens|, b)
    decreases k
  {
    if k > 0 { PadCount(lens, n, k - 1, b); }
  }

  lemma {:induction false} PadNext(lens: seq<nat>, n: nat, b: nat)
    requires |lens| <= n
    ensures NextCode(Pad(lens, n), b) == NextCode(lens, b)
    decreases b
  {
    hide CountTo;
    if b > 1 {
      PadNext(lens, n, b - 1);
      PadCount(lens, n, n, b - 1);
    }
  }

  lemma PadCode(lens: seq<nat>, n: nat, s: nat)
    requires s < |lens| <= n && lens[s] > 0
    ensures StreamCode(Pad(lens, n), s) == StreamCode(lens, s)
  {
    hide CountTo, NextCode, Rev;
    PadNext(lens, n, lens[s]);
    PadCount(lens, n, s, lens[s]);
  }

  lemma PadPrefix(lens: seq<nat>, n: nat)
    requires |lens| <= n && Prefix(lens) && Complete(lens)
    ensures Prefix(Pad(lens, n)) && Complete(Pad(lens, n))
  {
    hide CountTo, NextCode, Pow2;
    forall b | 1 <= b <= MAXBITS ensures NextCode(Pad(lens, n), b) + Count(Pad(lens, n), b) == NextCode(lens, b) + Count(lens, b) {
      PadNext(lens, n, b);
      PadCount(lens, n, n, b);
    }
    forall b | 1 <= b <= MAXBITS ensures Canonical.Fits(Pad(lens, n), b) { assert Canonical.Fits(lens, b); }
  }

  lemma {:induction false} PadCost(freq: seq<nat>, lens: seq<nat>, n: nat, extra: seq<nat>, k: nat)
    requires |lens| <= k <= n && n <= |freq| && n <= |extra|
    ensures Cost(freq, Pad(lens, n), Pad(lens, n), extra, k) == Cost(freq, lens, lens, extra, |lens|)
    decreases k
  {
    if k > |lens| {
      PadCost(freq, lens, n, extra, k - 1);
    } else {
      PadCostSame(freq, lens, n, extra, k);
    }
  }

  lemma {:induction false} PadCostSame(freq: seq<nat>, lens: seq<nat>, n: nat, extra: seq<nat>, k: nat)
    requires k <= |lens| <= n && n <= |freq| && n <= |extra|
    ensures Cost(freq, Pad(lens, n), Pad(lens, n), extra, k) == Cost(freq, lens, lens, extra, k)
    decreases k
  {
    if k > 0 { PadCostSame(freq, lens, n, extra, k - 1); }
  }

  // ----- the code length code --------------------------------------------------------------------------

  lemma {:induction false} UsedAtMost(f: seq<nat>, n: nat)
    requires n <= |f|
    ensures Used(f, n) <= n
  {
    if n > 0 { UsedAtMost(f, n - 1); }
  }

  lemma {:induction false} ItemsAppend(bl: seq<nat>, a: seq<Item>, b: seq<Item>)
    requires |bl| == 19 && AllGood(a) && AllGood(b)
    ensures AllGood(a + b) && ItemsFields(bl, a + b) == ItemsFields(bl, a) + ItemsFields(bl, b)
    decreases |b|
  {
    hide ItemFields, ItemsFields;
    if b == [] {
      assert a + b == a;
      NoItemFields(bl);
    } else {
      var k := |b| - 1;
      assert a + b == (a + b[..k]) + [b[k]] && b == b[..k] + [b[k]];
      ItemsAppend(bl, a, b[..k]);
      ItemsMore(bl, a + b[..k], b[k]);
      ItemsMore(bl, b[..k], b[k]);
    }
  }

  lemma NoItemFields(bl: seq<nat>)
    requires |bl| == 19
    ensures ItemsFields(bl, []) == []
  {
  }

  lemma {:induction false} ItemOccurs(items: seq<Item>, i: nat)
    requires i < |items| && items[i].symbol < 19
    ensures Occurs(items, items[i].symbol) > 0
    decreases |items|
  {
    if i < |items| - 1 { ItemOccurs(items[..|items| - 1], i); }
  }

  /** Symbols that occur have codes. */
  lemma BlSendable(items: seq<Item>, lens: seq<nat>)
    requires RightSymbols(ItemFreqs(items), 19, lens) && AllGood(items)
    ensures Sendable(Pad(lens, 19), items)
  {
    hide Used, Occurs;
    forall i | 0 <= i < |items| ensures Pad(lens, 19)[items[i].symbol] > 0 {
      assert GoodItem(items[i]);
      ItemOccurs(items, i);
      assert ItemFreqs(items)[items[i].symbol] > 0;
    }
  }

  lemma PartsSendable(bl: seq<nat>, a: seq<Item>, b: seq<Item>)
    requires Sendable(bl, a + b)
    ensures Sendable(bl, a) && Sendable(bl, b)
  {
    assert a + b == a + b + [];
    PartSendable(bl, a + b, a, b, []);
    assert a + b == [] + a + b;
    PartSendable(bl, a + b, [], a, b);
  }

  /** scan_tree on a list of lengths: the list with its guard, and the frequencies of the items. */
  method Scan(lens: seq<nat>, freq: array<nat>, ghost before: seq<Item>) returns (guarded: seq<nat>)
    requires lens != [] && LengthsOk(lens) && freq.Length == 19 && freq[..] == ItemFreqs(before)
    modifies freq
    ensures freq[..] == ItemFreqs(before + Compressed(lens))
    ensures guarded == lens + [GUARD]
  {
    hide Compressed, Occurs;
    var dl := new nat[|lens| + 1](i => if 0 <= i < |lens| then lens[i] else 0);
    ghost var f0 := freq[..];
    assert dl[..|lens|] == lens;
    ScanTree(dl, |lens| - 1, freq);
    guarded := dl[..];
    forall s | 0 <= s < 19 ensures freq[s] == Occurs(before + Compressed(lens), s) {
      OccursAppend(before, Compressed(lens), s);
      assert freq[..][s] == f0[s] + Occurs(Compressed(lens), s);
    }
    assert freq[..] == ItemFreqs(before + Compressed(lens));
  }

  /** What the code length code does for both trees. */
  ghost predicate BlReady(ll: seq<nat>, dl: seq<nat>, bl: seq<nat>, codes: seq<nat>, nb: nat) {
    && |bl| == 19 && (forall s :: 0 <= s < 19 ==> bl[s] <= 7) && Coded(codes, bl) && Prefix(bl) && Complete(bl)
    && Sendable(bl, Compressed(ll)) && Sendable(bl, Compressed(dl))
    && 4 <= nb <= 19 && forall i :: nb <= i < 19 ==> BL_ORDER[i] < 19 && bl[BL_ORDER[i]] == 0
  }

  /** It is as good as build_tree makes it, and no more of its lengths are sent than there have to be. */
  ghost predicate BlBest(ll: seq<nat>, dl: seq<nat>, bl: seq<nat>, nb: nat)
    requires |bl| == 19 && nb <= 19
  {
    && (exists lens :: |lens| <= 19 && bl == Pad(lens, 19) && Compact(ItemFreqs(Compressed(ll) + Compressed(dl)), lens, 7))
    && (nb <= 4 || (BL_ORDER[nb - 1] < 19 && bl[BL_ORDER[nb - 1]] > 0))
  }

  /** Without an item for a length other than zero only zeros are received. */
  lemma {:induction false} OnlyZeros(lens: seq<nat>, items: seq<Item>)
    requires (forall i :: 0 <= i < |lens| ==> lens[i] == 0)
    requires forall i :: 0 <= i < |items| ==> !(1 <= items[i].symbol < 16)
    ensures forall i :: 0 <= i < |ReceiveAll(lens, items)| ==> ReceiveAll(lens, items)[i] == 0
    decreases |items|
  {
    if items != [] { OnlyZeros(Receive(lens, items[0]), items[1..]); }
  }

  /** A length that is not zero is sent at least once as itself. */
  lemma SomeLength(bl: seq<nat>, ll: seq<nat>, k: nat) returns (s: nat)
    requires LengthsOk(ll) && k < |ll| && ll[k] > 0 && Sendable(bl, Compressed(ll))
    ensures 1 <= s < 16 && bl[s] > 0
  {
    hide Compressed, ReceiveAll;
    OneTree(ll);
    var items := Compressed(ll);
    if forall i :: 0 <= i < |items| ==> !(1 <= items[i].symbol < 16) { OnlyZeros([], items); }
    var i :| 0 <= i < |items| && 1 <= items[i].symbol < 16;
    s := items[i].symbol;
  }

  lemma IndexOfLength(s: nat)
    requires s < 16
    ensures |BL_INDEX| == 19 && 3 <= BL_INDEX[s] < 19
  {
  }

  lemma BlTree(ll: seq<nat>, dl: seq<nat>, tree: Tree)
    requires LengthsOk(ll) && LengthsOk(dl) && TreeFor(ItemFreqs(Compressed(ll) + Compressed(dl)), 7, tree) && |tree.codes| >= 19
    ensures var bl := Pad(tree.lens, 19);
            && (forall s :: 0 <= s < 19 ==> bl[s] <= 7) && Coded(tree.codes, bl) && Prefix(bl) && Complete(bl)
            && Sendable(bl, Compressed(ll)) && Sendable(bl, Compressed(dl)) && Sendable(bl, Compressed(ll) + Compressed(dl))
  {
    hide Compressed, ItemFreqs, Prefix, Complete, StreamCode, Used;
    var bl, a, b := Pad(tree.lens, 19), Compressed(ll), Compressed(dl);
    RoundTrip(ll, dl);
    BlSendable(a + b, tree.lens);
    PartsSendable(bl, a, b);
    PadPrefix(tree.lens, 19);
    forall s | 0 <= s < 19 && bl[s] > 0 ensures tree.codes[s] == StreamCode(bl, s) { PadCode(tree.lens, 19, s); }
  }

  lemma ItemsCost(ll: seq<nat>, dl: seq<nat>, lens: seq<nat>)
    requires |lens| <= 19 && Sendable(Pad(lens, 19), Compressed(ll) + Compressed(dl))
    requires AllGood(Compressed(ll)) && AllGood(Compressed(dl))
    ensures Width(ItemsFields(Pad(lens, 19), Compressed(ll))) + Width(ItemsFields(Pad(lens, 19), Compressed(dl)))
         == Cost(ItemFreqs(Compressed(ll) + Compressed(dl)), lens, lens, ExtraB(), |lens|)
  {
    hide Compressed, ItemFreqs, Width, Cost, ItemsFields, Pad, ExtraB;
    var bl, a, b := Pad(lens, 19), Compressed(ll), Compressed(dl);
    ItemsWidth(bl, a + b);
    ItemsAppend(bl, a, b);
    ValueAppend(ItemsFields(bl, a), ItemsFields(bl, b));
    PadCost(ItemFreqs(a + b), lens, 19, ExtraB(), 19);
  }

  lemma NoFreqs(freq: seq<nat>)
    requires |freq| == 19 && forall s :: 0 <= s < 19 ==> freq[s] == 0
    ensures freq == ItemFreqs([])
  {
  }

  lemma ExtraBZero()
    ensures ExtraB()[0] == ExtraB()[1] == ExtraB()[2] == 0
  {
  }

  /** How many lengths of the code length code are sent: up to the last one that is not zero. */
  method LastBl(bl: seq<nat>, ghost s: nat) returns (max: nat)
    requires |bl| == 19 && s < 16 && bl[s] > 0
    ensures 3 <= max <= 18 && BL_ORDER[max] < 19 && bl[BL_ORDER[max]] > 0
    ensures forall i :: max < i < 19 ==> BL_ORDER[i] < 19 && bl[BL_ORDER[i]] == 0
  {
    hide BL_ORDER, BL_INDEX;
    IndexOfLength(s);
    OrderIs(s);
    max := 18;
    while max >= 3
      invariant BL_INDEX[s] <= max <= 18
      invariant forall i :: max < i < 19 ==> BL_ORDER[i] < 19 && bl[BL_ORDER[i]] == 0
      decreases max
    {
      OrderIs(max);
      if bl[BL_ORDER[max]] != 0 { break; }
      max := max - 1;
    }
  }

  lemma BestIs(ll: seq<nat>, dl: seq<nat>, tree: Tree, bl: seq<nat>, nb: nat)
    requires |tree.lens| <= 19 && bl == Pad(tree.lens, 19) && Compact(ItemFreqs(Compressed(ll) + Compressed(dl)), tree.lens, 7)
    requires 4 <= nb <= 19 && BL_ORDER[nb - 1] < 19 && bl[BL_ORDER[nb - 1]] > 0
    ensures BlBest(ll, dl, bl, nb)
  {
    hide Compressed, ItemFreqs, Compact, Pad, BL_ORDER;
  }

  /** build_bl_tree: the code length code, how many of its lengths are sent, and what is added to opt_len. */
  method BuildBlTree(ll: seq<nat>, dl: seq<nat>, ghost k: nat)
    returns (lg: seq<nat>, dg: seq<nat>, bl: seq<nat>, codes: seq<nat>, nb: nat, opt: int)
    requires k < |ll| && ll[k] > 0 && dl != [] && LengthsOk(ll) && LengthsOk(dl)
    ensures lg == ll + [GUARD] && dg == dl + [GUARD] && BlReady(ll, dl, bl, codes, nb)
    ensures |bl| == 19 && nb <= 19 && BlBest(ll, dl, bl, nb)
    ensures AllGood(Compressed(ll)) && AllGood(Compressed(dl))
    ensures opt == Width(ItemsFields(bl, Compressed(ll))) + Width(ItemsFields(bl, Compressed(dl))) + 3 * nb + 5 + 5 + 4
  {
    hide Compressed, Occurs, ItemsFields, Width, Cost, ItemFreqs, Sendable, AllGood, Prefix, Complete, RightSymbols, Pow2, Used,
         BL_ORDER, BL_INDEX, StreamCode, BlBest, Compact;
    var freq := new nat[19](_ => 0);
    NoFreqs(freq[..]);
    lg := Scan(ll, freq, []);
    ghost var a, b := Compressed(ll), Compressed(dl);
    assert [] + a == a;
    dg := Scan(dl, freq, a);
    UsedAtMost(freq[..], 19);
    Widths237();
    ExtraBZero();
    var tree, stat;
    tree, opt, stat := BuildOne(freq[..], 7, ExtraB(), Pad([], 19));
    bl, codes := Pad(tree.lens, 19), tree.codes;
    RightSize(freq[..], tree);
    BlTree(ll, dl, tree);
    SendableGood(bl, a, b);
    ItemsCost(ll, dl, tree.lens);
    ghost var s := SomeLength(bl, ll, k);
    var max := LastBl(bl, s);
    nb := max + 1;
    BestIs(ll, dl, tree, bl, nb);
    opt := opt + 3 * nb + 5 + 5 + 4;
  }

  lemma RightSize(freq: seq<nat>, tree: Tree)
    requires TreeFor(freq, 7, tree)
    ensures |tree.lens| <= |freq|
  {
  }

  // ----- the block -----------------------------------------------------------------------------------

  datatype Kind = StoredBlock | FixedBlock | DynamicBlock

  /** The three bits that start a block. */
  function TypeField(kind: Kind, last: bool): Field {
    Field((match kind case StoredBlock => 0 case FixedBlock => 2 case DynamicBlock => 4) + (if last then 1 else 0), 3)
  }

  ghost function FixedFields(t: Tables, tokens: seq<Token>, last: bool): seq<Field>
    requires AllHaveCodes(t, StaticL(), Fives(D_CODES), tokens)
  {
    [TypeField(FixedBlock, last)] + BlockFields(t, StaticL(), Fives(D_CODES), tokens)
  }

  ghost function DynamicFields(t: Tables, ll: seq<nat>, dl: seq<nat>, bl: seq<nat>, codes: seq<nat>, nb: nat, tokens: seq<Token>, last: bool): seq<Field>
    requires BlReady(ll, dl, bl, codes, nb) && 257 <= |ll| && 1 <= |dl| && AllHaveCodes(t, ll, dl, tokens)
  {
    [TypeField(DynamicBlock, last)] + HeaderFields(ll, dl, bl, nb) + BlockFields(t, ll, dl, tokens)
  }

  lemma BlockFieldsWidth(t: Tables, ll: seq<nat>, dl: seq<nat>, tokens: seq<Token>)
    requires AllHaveCodes(t, ll, dl, tokens) && END_BLOCK < |ll|
    ensures Width(BlockFields(t, ll, dl, tokens)) == Width(TokensFields(t, ll, dl, tokens)) + ll[END_BLOCK]
  {
    hide Width, TokensFields;
    ValueAppend(TokensFields(t, ll, dl, tokens), [CodeField(ll, END_BLOCK)]);
    FieldWidth(ll, END_BLOCK);
  }

  lemma HeaderWidth(ll: seq<nat>, dl: seq<nat>, bl: seq<nat>, nb: nat)
    requires 257 <= |ll| && 1 <= |dl| && 4 <= nb <= 19 && Sendable(bl, Compressed(ll)) && Sendable(bl, Compressed(dl))
    ensures Width(HeaderFields(ll, dl, bl, nb))
         == Width(ItemsFields(bl, Compressed(ll))) + Width(ItemsFields(bl, Compressed(dl))) + 3 * nb + 5 + 5 + 4
  {
    hide Width, Compressed, ItemsFields, BlFields;
    var c, b := CountsFields(|ll|, |dl|, nb), BlFields(bl, nb);
    var x, y := ItemsFields(bl, Compressed(ll)), ItemsFields(bl, Compressed(dl));
    ValueAppend(c + b, x + y);
    ValueAppend(c, b);
    ValueAppend(x, y);
    ThreesWidth(bl, nb);
    CountsWidth(|ll|, |dl|, nb);
  }

  lemma CountsWidth(nl: nat, nd: nat, nb: nat)
    requires 257 <= nl && 1 <= nd && 4 <= nb
    ensures Width(CountsFields(nl, nd, nb)) == 5 + 5 + 4
  {
    var a, b, c := Field(nl - 257, 5), Field(nd - 1, 5), Field(nb - 4, 4);
    assert CountsFields(nl, nd, nb) == [a] + ([b] + [c]);
    ValueAppend([a], [b] + [c]);
    ValueAppend([b], [c]);
    ValueOne(a);
    ValueOne(b);
    ValueOne(c);
  }

  /** A dynamic block is as long as predicted. */
  lemma DynamicWidth(t: Tables, tree: Tree, dtree: Tree, bl: seq<nat>, codes: seq<nat>, nb: nat, tokens: seq<Token>, last: bool)
    requires GoodTables(t) && AllExpressible(tokens) && AllHaveCodes(t, tree.lens, dtree.lens, tokens)
    requires BlReady(tree.lens, dtree.lens, bl, codes, nb) && 257 <= |tree.lens| <= L_CODES && 1 <= |dtree.lens| <= D_CODES
    requires Covers(LitFreqs(t, tokens), tree.lens, |tree.lens|) && Covers(DistFreqs(t, tokens), dtree.lens, |dtree.lens|)
    ensures Width(DynamicFields(t, tree.lens, dtree.lens, bl, codes, nb, tokens, last))
         == 3 + Cost(LitFreqs(t, tokens), tree.lens, tree.lens, ExtraL(), |tree.lens|)
            + Cost(DistFreqs(t, tokens), dtree.lens, dtree.lens, ExtraD(), |dtree.lens|)
            + Width(ItemsFields(bl, Compressed(tree.lens))) + Width(ItemsFields(bl, Compressed(dtree.lens))) + 3 * nb + 5 + 5 + 4
  {
    hide Width, Compressed, ItemsFields, Cost, LitFreqs, DistFreqs, TokensFields, ExtraL, ExtraD, Covers, AllHaveCodes, BlockFields, HeaderFields, GoodTables;
    var ll, dl := tree.lens, dtree.lens;
    var a, b, c := [TypeField(DynamicBlock, last)], HeaderFields(ll, dl, bl, nb), BlockFields(t, ll, dl, tokens);
    ValueAppend(a + b, c);
    ValueAppend(a, b);
    ValueOne(TypeField(DynamicBlock, last));
    HeaderWidth(ll, dl, bl, nb);
    BlockFieldsWidth(t, ll, dl, tokens);
    BlockWidth(t, tokens, ll, ll, |ll|, dl, dl, |dl|);
  }

  lemma FixedWidth(t: Tables, tree: Tree, dtree: Tree, tokens: seq<Token>, last: bool, sl: seq<nat>, sd: seq<nat>)
    requires GoodTables(t) && AllExpressible(tokens) && AllHaveCodes(t, StaticL(), Fives(D_CODES), tokens)
    requires END_BLOCK < |tree.lens| <= L_CODES && |dtree.lens| <= D_CODES
    requires Covers(LitFreqs(t, tokens), tree.lens, |tree.lens|) && Covers(DistFreqs(t, tokens), dtree.lens, |dtree.lens|)
    requires sl == StaticL()[..L_CODES] && sd == Fives(D_CODES)
    ensures Width(FixedFields(t, tokens, last))
         == 3 + Cost(LitFreqs(t, tokens), tree.lens, sl, ExtraL(), |tree.lens|)
            + Cost(DistFreqs(t, tokens), dtree.lens, sd, ExtraD(), |dtree.lens|)
  {
    hide Width, Cost, LitFreqs, DistFreqs, TokensFields, ExtraL, ExtraD, Covers, AllHaveCodes, BlockFields, GoodTables;
    ValueAppend([TypeField(FixedBlock, last)], BlockFields(t, StaticL(), Fives(D_CODES), tokens));
    ValueOne(TypeField(FixedBlock, last));
    BlockFieldsWidth(t, StaticL(), Fives(D_CODES), tokens);
    BlockWidth(t, tokens, tree.lens, StaticL(), |tree.lens|, dtree.lens, Fives(D_CODES), |dtree.lens|);
    CostSame(LitFreqs(t, tokens), LitFreqs(t, tokens), tree.lens, StaticL(), sl, ExtraL(), ExtraL(), |tree.lens|);
  }

  /** Everything about the trees of a block that sending and reading it needs. */
  ghost predicate BlockTrees(t: Tables, tokens: seq<Token>, tree: Tree, dtree: Tree) {
    && GoodTables(t) && AllExpressible(tokens)
    && TreeFor(LitFreqs(t, tokens), MAXBITS, tree) && TreeFor(DistFreqs(t, tokens), MAXBITS, dtree)
  }

  /** Both trees are as good as build_tree makes them. */
  ghost predicate BothCompact(t: Tables, tokens: seq<Token>, tree: Tree, dtree: Tree) {
    && GoodTables(t) && AllExpressible(tokens) && |tree.lens| <= L_CODES && |dtree.lens| <= D_CODES
    && Compact(LitFreqs(t, tokens), tree.lens, MAXBITS) && Compact(DistFreqs(t, tokens), dtree.lens, MAXBITS)
  }

  lemma BlockTreesFacts(t: Tables, tokens: seq<Token>, tree: Tree, dtree: Tree)
    requires BlockTrees(t, tokens, tree, dtree)
    ensures 257 <= |tree.lens| <= L_CODES && 1 <= |dtree.lens| <= D_CODES && LengthsOk(tree.lens) && LengthsOk(dtree.lens)
    ensures tree.lens[END_BLOCK] > 0 && Coded(tree.codes, tree.lens) && Coded(dtree.codes, dtree.lens)
    ensures Covers(LitFreqs(t, tokens), tree.lens, |tree.lens|) && Covers(DistFreqs(t, tokens), dtree.lens, |dtree.lens|)
    ensures AllHaveCodes(t, tree.lens, dtree.lens, tokens)
  {
    hide LitFreqs, DistFreqs, Prefix, Complete, StreamCode, Covers, HasCodes, Used;
    TreesCover(t, tokens, tree.lens, dtree.lens);
  }

  /** The literal and distance trees, and the length of the block's data with them and with the fixed codes. */
  method BuildTrees(t: Tables, lfreq: seq<nat>, dfreq: seq<nat>, symBuf: seq<nat>, ghost tokens: seq<Token>)
    returns (tree: Tree, dtree: Tree, opt: int, stat: int)
    requires Tallied(t, lfreq, dfreq, symBuf, tokens)
    ensures BlockTrees(t, tokens, tree, dtree) && BothCompact(t, tokens, tree, dtree)
    ensures opt == Cost(LitFreqs(t, tokens), tree.lens, tree.lens, ExtraL(), |tree.lens|)
                   + Cost(DistFreqs(t, tokens), dtree.lens, dtree.lens, ExtraD(), |dtree.lens|)
    ensures stat == Cost(LitFreqs(t, tokens), tree.lens, StaticL()[..L_CODES], ExtraL(), |tree.lens|)
                    + Cost(DistFreqs(t, tokens), dtree.lens, Fives(D_CODES), ExtraD(), |dtree.lens|)
  {
    hide LitFreqs, DistFreqs, Cost, Used, Pow2, Prefix, Complete, RightSymbols, Coded, SymBytes, GoodTables, Compact;
    UsedAtMost(lfreq[..L_CODES], L_CODES);
    UsedAtMost(dfreq[..D_CODES], D_CODES);
    PowMax();
    NoExtraLow();
    var opt1, stat1, opt2, stat2;
    tree, opt1, stat1 := BuildOne(lfreq[..L_CODES], MAXBITS, ExtraL(), StaticL()[..L_CODES]);
    dtree, opt2, stat2 := BuildOne(dfreq[..D_CODES], MAXBITS, ExtraD(), Fives(D_CODES));
    opt, stat := opt1 + opt2, stat1 + stat2;
  }

  lemma PowMax()
    ensures Pow2(MAXBITS) == 0x8000
  {
    Pow2Bytes();
    assert Pow2(16) == 2 * Pow2(15);
  }

  lemma NoExtraLow()
    ensures ExtraL()[0] == ExtraL()[1] == ExtraL()[2] == 0
    ensures ExtraD()[0] == ExtraD()[1] == ExtraD()[2] == 0
  {
  }

  /** What a block of the chosen kind consists of. */
  ghost predicate SentAs(kind: Kind, t: Tables, tokens: seq<Token>, tree: Tree, dtree: Tree, bl: seq<nat>, codes: seq<nat>, nb: nat,
                         last: bool, fields: seq<Field>) {
    match kind
    case StoredBlock => fields == []
    case FixedBlock => AllHaveCodes(t, StaticL(), Fives(D_CODES), tokens) && fields == FixedFields(t, tokens, last)
    case DynamicBlock =>
      && BlReady(tree.lens, dtree.lens, bl, codes, nb) && 257 <= |tree.lens| && 1 <= |dtree.lens|
      && AllHaveCodes(t, tree.lens, dtree.lens, tokens)
      && fields == DynamicFields(t, tree.lens, dtree.lens, bl, codes, nb, tokens, last)
  }

  /** The lengths predicted for the block are those of both encodings, whichever is chosen. */
  ghost predicate Predicted(t: Tables, tokens: seq<Token>, tree: Tree, dtree: Tree, bl: seq<nat>, codes: seq<nat>, nb: nat,
                            last: bool, optLen: int, staticLen: int) {
    && (forall f :: SentAs(FixedBlock, t, tokens, tree, dtree, bl, codes, nb, last, f) ==> Width(f) == 3 + staticLen)
    && (forall f :: SentAs(DynamicBlock, t, tokens, tree, dtree, bl, codes, nb, last, f) ==> Width(f) == 3 + optLen)
  }

  /**
    _tr_flush_block for a level above zero: the length predicted for the block is
    the number of bits sent for it.  A stored block is chosen here but sent
    elsewhere.
   */
  method FlushBlock(w: BitWriter, t: Tables, symBuf: seq<nat>, lfreq: seq<nat>, dfreq: seq<nat>, slcodes: seq<nat>, sdcodes: seq<nat>,
                    storedLen: nat, haveBuf: bool, fixed: bool, last: bool, ghost tokens: seq<Token>)
    returns (kind: Kind, optLen: int, staticLen: int, ghost tree: Tree, ghost dtree: Tree, ghost bl: seq<nat>, ghost codes: seq<nat>,
             ghost nb: nat, ghost fields: seq<Field>)
    requires w.Valid() && Tallied(t, lfreq, dfreq, symBuf, tokens)
    requires Coded(slcodes, StaticL()) && Coded(sdcodes, Fives(D_CODES))
    modifies w
    ensures w.Valid() && w.sent == old(w.sent) + fields && BlockTrees(t, tokens, tree, dtree)
    ensures SentAs(kind, t, tokens, tree, dtree, bl, codes, nb, last, fields)
    ensures BothCompact(t, tokens, tree, dtree) && |bl| == 19 && nb <= 19 && BlBest(tree.lens, dtree.lens, bl, nb)
    ensures Predicted(t, tokens, tree, dtree, bl, codes, nb, last, optLen, staticLen)
    ensures var optB, staticB := (optLen + 3 + 7) / 8, (staticLen + 3 + 7) / 8;
            kind == if haveBuf && storedLen + 4 <= optB && storedLen + 4 <= staticB then StoredBlock
                    else if fixed || staticB <= optB then FixedBlock
                    else DynamicBlock
  {
    hide LitFreqs, DistFreqs, Cost, SymBytes, GoodTables, StaticL, Coded, AllHaveCodes, BlReady, Width, DynamicFields, FixedFields,
         HeaderFields, BlockFields, Covers, ItemsFields, Compressed, TreeFor, AllGood, ExtraL, ExtraD, Sendable,
         BothCompact, BlBest;
    var ltree, dt, opt, stat := BuildTrees(t, lfreq, dfreq, symBuf, tokens);
    tree, dtree := ltree, dt;
    BlockTreesFacts(t, tokens, ltree, dt);
    StaticCovers(t, tokens);
    var lg, dg, blens, bcodes, blcodes, more := BuildBlTree(ltree.lens, dt.lens, END_BLOCK);
    bl, codes, nb := blens, bcodes, blcodes;
    optLen, staticLen := opt + more, stat;
    FixedWidth(t, ltree, dt, tokens, last, StaticL()[..L_CODES], Fives(D_CODES));
    DynamicWidth(t, ltree, dt, blens, bcodes, blcodes, tokens, last);
    var optB, staticB := (optLen + 3 + 7) / 8, (staticLen + 3 + 7) / 8;
    if staticB <= optB { optB := staticB; }
    fields := [];
    if storedLen + 4 <= optB && haveBuf {
      kind := StoredBlock;
      assert w.sent + [] == w.sent;
    } else if fixed || staticB == optB {
      kind := FixedBlock;
      SendFixed(w, t, symBuf, slcodes, sdcodes, last, tokens);
      fields := FixedFields(t, tokens, last);
    } else {
      kind := DynamicBlock;
      SendDynamic(w, t, symBuf, ltree, dt, lg, dg, blens, bcodes, blcodes, last, tokens);
      fields := DynamicFields(t, ltree.lens, dt.lens, blens, bcodes, blcodes, tokens, last);
    }
  }

  lemma TypeFits(kind: Kind, last: bool)
    ensures FieldFits(TypeField(kind, last))
  {
    Widths237();
  }

  method SendFixed(w: BitWriter, t: Tables, symBuf: seq<nat>, slcodes: seq<nat>, sdcodes: seq<nat>, last: bool, ghost tokens: seq<Token>)
    requires w.Valid() && Coded(slcodes, StaticL()) && Coded(sdcodes, Fives(D_CODES))
    requires AllHaveCodes(t, StaticL(), Fives(D_CODES), tokens) && symBuf == SymBytes(tokens)
    modifies w
    ensures w.Valid() && w.sent == old(w.sent) + FixedFields(t, tokens, last)
  {
    hide Coded, AllHaveCodes, BlockFields, SymBytes;
    TypeFits(FixedBlock, last);
    ghost var start := w.sent;
    w.SendBits(2 + (if last then 1 else 0), 3);
    CompressBlock(w, t, symBuf, slcodes, StaticL(), sdcodes, Fives(D_CODES), tokens);
    ghost var a, b := [TypeField(FixedBlock, last)], BlockFields(t, StaticL(), Fives(D_CODES), tokens);
    assert start + a + b == start + (a + b);
  }

  method SendDynamic(w: BitWriter, t: Tables, symBuf: seq<nat>, tree: Tree, dtree: Tree, lg: seq<nat>, dg: seq<nat>,
                     bl: seq<nat>, codes: seq<nat>, nb: nat, last: bool, ghost tokens: seq<Token>)
    requires w.Valid() && BlockTrees(t, tokens, tree, dtree) && BlReady(tree.lens, dtree.lens, bl, codes, nb)
    requires 257 <= |tree.lens| && 1 <= |dtree.lens| && AllHaveCodes(t, tree.lens, dtree.lens, tokens) && symBuf == SymBytes(tokens)
    requires lg == tree.lens + [GUARD] && dg == dtree.lens + [GUARD]
    modifies w
    ensures w.Valid() && w.sent == old(w.sent) + DynamicFields(t, tree.lens, dtree.lens, bl, codes, nb, tokens, last)
  {
    hide Coded, AllHaveCodes, BlockFields, SymBytes, HeaderFields, Compressed, Sendable, Prefix, Complete, LitFreqs, DistFreqs, BlockTrees, Covers,
         BL_ORDER;
    BlockTreesFacts(t, tokens, tree, dtree);
    TypeFits(DynamicBlock, last);
    ghost var start := w.sent;
    w.SendBits(4 + (if last then 1 else 0), 3);
    assert lg[..|tree.lens|] == tree.lens && dg[..|dtree.lens|] == dtree.lens;
    SendAllTrees(w, lg, |tree.lens|, dg, |dtree.lens|, codes, bl, nb);
    CompressBlock(w, t, symBuf, tree.codes, tree.lens, dtree.codes, dtree.lens, tokens);
    ghost var a, b, c := [TypeField(DynamicBlock, last)], HeaderFields(tree.lens, dtree.lens, bl, nb), BlockFields(t, tree.lens, dtree.lens, tokens);
    assert start + a + b + c == start + (a + b + c);
  }
}
