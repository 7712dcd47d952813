/**
  The length of a block: what the tally of literals and matches, scan_tree and
  build_tree of deps/zlib/trees.c predict, and what is sent.
 */
module BlockCost {
  import opened Bits
  import opened BitLengths
  import opened BitIo
  import opened Lz77
  import opened CodeLengths
  import opened SendTree
  import opened SymbolTables
  import opened InflateSpec
  import opened Block

  const L_CODES: nat := 286

  /** Extra bits by literal/length symbol. */
  function ExtraL(): (e: seq<nat>)
    ensures |e| == L_CODES
  {
    seq(L_CODES, s requires 0 <= s < L_CODES => if s < 257 then 0 else LengthExtra(s - 257))
  }

  function ExtraD(): (e: seq<nat>)
    ensures |e| == D_CODES
  {
    seq(D_CODES, s requires 0 <= s < D_CODES => DistExtra(s))
  }

  /** Extra bits of the code length alphabet. */
  function ExtraB(): (e: seq<nat>)
    ensures |e| == 19
  {
    seq(19, s => if s < 16 then 0 else if s == 16 then 2 else if s == 17 then 3 else 7)
  }

  // ----- the tally ---------------------------------------------------------------------------

  ghost predicate AllExpressible(tokens: seq<Token>) {
    forall i :: 0 <= i < |tokens| ==> Expressible(tokens[i])
  }

  /** The literal/length symbol of a token. */
  ghost function LitSymbol(t: Tables, token: Token): (s: nat)
    requires GoodTables(t) && Expressible(token)
    ensures s < L_CODES && s != END_BLOCK
  {
    match token
    case Literal(byte) => byte
    case Copy(_, length) => LengthSymbolMeans(t, length); LengthSymbol(t, length).code
  }

  function Bump(freq: seq<nat>, s: nat): (r: seq<nat>)
    requires s < |freq|
    ensures |r| == |freq|
  {
    freq[s := freq[s] + 1]
  }

  /** Frequencies of the literal/length symbols of a block, with its end. */
  ghost function LitFreqs(t: Tables, tokens: seq<Token>): (f: seq<nat>)
    requires GoodTables(t) && AllExpressible(tokens)
    ensures |f| == L_CODES
  {
    if tokens == [] then seq(L_CODES, s => if s == END_BLOCK then 1 else 0)
    else Bump(LitFreqs(t, tokens[..|tokens| - 1]), LitSymbol(t, tokens[|tokens| - 1]))
  }

  ghost function DistFreqs(t: Tables, tokens: seq<Token>): (f: seq<nat>)
    requires GoodTables(t) && AllExpressible(tokens)
    ensures |f| == D_CODES
  {
    if tokens == [] then seq(D_CODES, _ => 0)
    else
      match tokens[|tokens| - 1]
      case Literal(_) => DistFreqs(t, tokens[..|tokens| - 1])
      case Copy(distance, _) =>
        DistSymbolMeans(t, distance);
        Bump(DistFreqs(t, tokens[..|tokens| - 1]), DistSymbol(t, distance).code)
  }

  lemma {:induction false} FreqBound(t: Tables, tokens: seq<Token>)
    requires GoodTables(t) && AllExpressible(tokens)
    ensures forall s :: 0 <= s < L_CODES ==> LitFreqs(t, tokens)[s] <= |tokens| + 1
    ensures forall s :: 0 <= s < D_CODES ==> DistFreqs(t, tokens)[s] <= |tokens|
    decreases |tokens|
  {
    hide LitSymbol, DistSymbol;
    if tokens != [] { FreqBound(t, tokens[..|tokens| - 1]); }
  }

  /** The buffer of the current block: symbols and their frequencies. */
  ghost predicate Tallied(t: Tables, lfreq: seq<nat>, dfreq: seq<nat>, symBuf: seq<nat>, tokens: seq<Token>) {
    && GoodTables(t) && AllExpressible(tokens) && symBuf == SymBytes(tokens)
    && |lfreq| >= L_CODES && |dfreq| >= D_CODES
    && lfreq[..L_CODES] == LitFreqs(t, tokens) && dfreq[..D_CODES] == DistFreqs(t, tokens)
  }

  lemma {:induction false} SymBytesMore(tokens: seq<Token>, token: Token)
    requires AllExpressible(tokens) && Expressible(token)
    ensures AllExpressible(tokens + [token]) && SymBytes(tokens + [token]) == SymBytes(tokens) + SymTriple(token)
    decreases |tokens|
  {
    var more := tokens + [token];
    if tokens == [] {
      assert more[1..] == [];
    } else {
      assert more[1..] == tokens[1..] + [token];
      SymBytesMore(tokens[1..], token);
    }
  }

  lemma TalliedMore(t: Tables, lfreq: seq<nat>, dfreq: seq<nat>, symBuf: seq<nat>, tokens: seq<Token>, token: Token,
                    lfreq1: seq<nat>, dfreq1: seq<nat>)
    requires Tallied(t, lfreq, dfreq, symBuf, tokens) && Expressible(token)
    requires lfreq1 == Bump(lfreq, LitSymbol(t, token))
    requires match token
             case Literal(_) => dfreq1 == dfreq
             case Copy(distance, _) => DistSymbol(t, distance).code < |dfreq| && dfreq1 == Bump(dfreq, DistSymbol(t, distance).code)
    ensures Tallied(t, lfreq1, dfreq1, symBuf + SymTriple(token), tokens + [token])
  {
    hide LitSymbol, DistSymbol;
    SymBytesMore(tokens, token);
    var more := tokens + [token];
    assert more[..|more| - 1] == tokens;
    if token.Copy? { DistSymbolMeans(t, token.distance); }
  }

  /** init_block */
  lemma TalliedNone(t: Tables, lfreq: seq<nat>, dfreq: seq<nat>)
    requires GoodTables(t) && |lfreq| >= L_CODES && |dfreq| >= D_CODES
    requires forall s :: 0 <= s < L_CODES ==> lfreq[s] == if s == END_BLOCK then 1 else 0
    requires forall s :: 0 <= s < D_CODES ==> dfreq[s] == 0
    ensures Tallied(t, lfreq, dfreq, [], [])
  {
  }

  /** _tr_tally_lit */
  method TallyLit(t: Tables, lfreq: array<nat>, symBuf: seq<nat>, c: nat, ghost dfreq: seq<nat>, ghost tokens: seq<Token>)
    returns (buf: seq<nat>)
    requires Tallied(t, lfreq[..], dfreq, symBuf, tokens) && c < 256 && |tokens| < 0x7fff
    modifies lfreq
    ensures Tallied(t, lfreq[..], dfreq, buf, tokens + [Literal(c)])
  {
    hide LitFreqs, DistFreqs, SymBytes, GoodTables;
    ghost var l: seq<nat> := lfreq[..];
    FreqBound(t, tokens);
    buf := symBuf + [0, 0, c];
    assert l[c] == l[..L_CODES][c];
    lfreq[c] := (lfreq[c] + 1) % 0x1_0000;
    assert lfreq[..] == Bump(l, c);
    TalliedMore(t, l, dfreq, symBuf, tokens, Literal(c), lfreq[..], dfreq);
  }

  lemma CopySymbols(t: Tables, distance: nat, length: nat)
    requires GoodTables(t) && 1 <= distance <= 0x8000 && 3 <= length <= 258
    ensures LitSymbol(t, Copy(distance, length)) == t.lengthCode[length - 3] + 257 < L_CODES
    ensures DistSymbol(t, distance).code == DCode(t.distCode, distance - 1) < D_CODES
  {
    hide LBASE, LEXT, DBASE, DEXT, LengthTable, DistTable;
    LengthSymbolMeans(t, length);
    DistSymbolMeans(t, distance);
  }

  /** _tr_tally_dist */
  method TallyDist(t: Tables, lfreq: array<nat>, dfreq: array<nat>, symBuf: seq<nat>, distance: nat, length: nat, ghost tokens: seq<Token>)
    returns (buf: seq<nat>)
    requires lfreq != dfreq && Tallied(t, lfreq[..], dfreq[..], symBuf, tokens) && |tokens| < 0x7fff
    requires 1 <= distance <= 0x8000 && length <= 255
    modifies lfreq, dfreq
    ensures Tallied(t, lfreq[..], dfreq[..], buf, tokens + [Copy(distance, length + 3)])
  {
    hide LitFreqs, DistFreqs, SymBytes, LBASE, LEXT, DBASE, DEXT, GoodTables, LitSymbol, DistSymbol, LengthSymbol;
    ghost var l: seq<nat>, d: seq<nat> := lfreq[..], dfreq[..];
    FreqBound(t, tokens);
    LengthTableIs(t, length);
    DistTableIs(t, distance - 1);
    CopySymbols(t, distance, length + 3);
    buf := symBuf + [distance % 256, distance / 256, length];
    var lc, dc := t.lengthCode[length] + 257, DCode(t.distCode, distance - 1);
    assert l[lc] == l[..L_CODES][lc] && d[dc] == d[..D_CODES][dc];
    lfreq[lc] := (lfreq[lc] + 1) % 0x1_0000;
    dfreq[dc] := (dfreq[dc] + 1) % 0x1_0000;
    assert lfreq[..] == Bump(l, lc) && dfreq[..] == Bump(d, dc);
    TalliedMore(t, l, d, symBuf, tokens, Copy(distance, length + 3), lfreq[..], dfreq[..]);
  }

  // ----- the cost ------------------------------------------------------------------------------

  /** What a token takes: its symbols' lengths and extra bits. */
  lemma TokenWidth(t: Tables, ll: seq<nat>, dl: seq<nat>, token: Token)
    requires HasCodes(t, ll, dl, token)
    ensures token.Copy? ==> DistSymbol(t, token.distance).code < |dl|
    ensures var s := LitSymbol(t, token);
            s < |ll| && Width(TokenFields(t, ll, dl, token)) == ll[s] + ExtraL()[s] + DistWidthOf(t, dl, token)
  {
    hide Width, LengthTable, DistTable, LBASE, LEXT, DBASE, DEXT, CodeField;
    match token
    case Literal(byte) => FieldWidth(ll, byte);
    case Copy(distance, length) => {
      LengthSymbolMeans(t, length);
      DistSymbolMeans(t, distance);
      var a, b := LengthSymbol(t, length), DistSymbol(t, distance);
      ValueAppend(SymbolFields(ll, a), SymbolFields(dl, b));
      SymbolWidth(ll, a);
      SymbolWidth(dl, b);
    }
  }

  ghost function DistWidthOf(t: Tables, dl: seq<nat>, token: Token): nat
    requires GoodTables(t) && Expressible(token)
    requires token.Copy? ==> DistSymbol(t, token.distance).code < |dl|
  {
    match token
    case Literal(_) => 0
    case Copy(distance, _) => DistSymbolMeans(t, distance); dl[DistSymbol(t, distance).code] + ExtraD()[DistSymbol(t, distance).code]
  }

  lemma FieldWidth(lens: seq<nat>, s: nat)
    requires s < |lens|
    ensures Width([CodeField(lens, s)]) == lens[s]
  {
    ValueOne(CodeField(lens, s));
  }

  lemma SymbolWidth(lens: seq<nat>, s: Symbol)
    requires s.code < |lens|
    ensures Width(SymbolFields(lens, s)) == lens[s.code] + s.width
  {
    hide Width;
    ValueAppend([CodeField(lens, s.code)], Extra(s.extra, s.width));
    FieldWidth(lens, s.code);
    if s.width == 0 { WidthNone(); } else { ValueOne(Field(s.extra, s.width)); }
  }

  lemma WidthNone()
    ensures Width([]) == 0
  {
  }

  /** The symbols that occur are among the first n and used. */
  ghost predicate Covers(freq: seq<nat>, used: seq<nat>, n: nat) {
    n <= |used| && forall s :: 0 <= s < |freq| && freq[s] > 0 ==> s < n && used[s] > 0
  }

  lemma CoversBefore(freq: seq<nat>, s: nat, used: seq<nat>, n: nat)
    requires s < |freq| && Covers(Bump(freq, s), used, n)
    ensures Covers(freq, used, n) && s < n && used[s] > 0
  {
    var more := Bump(freq, s);
    assert forall x :: 0 <= x < |freq| && freq[x] > 0 ==> more[x] > 0;
    assert more[s] > 0;
  }

  /** The bits sent for the tokens and the end of a block are what the frequencies predict. */
  lemma {:induction false} BlockWidth(t: Tables, tokens: seq<Token>, ul: seq<nat>, ll: seq<nat>, nl: nat, ud: seq<nat>, dl: seq<nat>, nd: nat)
    requires GoodTables(t) && AllExpressible(tokens) && AllHaveCodes(t, ll, dl, tokens)
    requires Covers(LitFreqs(t, tokens), ul, nl) && Covers(DistFreqs(t, tokens), ud, nd)
    requires nl <= |ll| && nl <= L_CODES && nd <= |dl| && nd <= D_CODES && END_BLOCK < nl && nd <= |ud| && nl <= |ul|
    ensures Width(TokensFields(t, ll, dl, tokens)) + ll[END_BLOCK]
         == Cost(LitFreqs(t, tokens), ul, ll, ExtraL(), nl) + Cost(DistFreqs(t, tokens), ud, dl, ExtraD(), nd)
    decreases |tokens|
  {
    hide Width, Cost, TokenFields, HasCodes, LitSymbol, DistSymbol, GoodTables, Covers, ExtraL, ExtraD, DistWidthOf, LitFreqs, DistFreqs;
    if tokens == [] {
      WidthNone();
      NoTokensCost(t, ul, ll, nl, ud, dl, nd);
    } else {
      var k := |tokens| - 1;
      var init, last := tokens[..k], tokens[k];
      assert tokens == init + [last];
      TokensMore(t, ll, dl, init, last);
      ValueAppend(TokensFields(t, ll, dl, init), TokenFields(t, ll, dl, last));
      TokenWidth(t, ll, dl, last);
      FreqsMore(t, init, last);
      CoversBefore(LitFreqs(t, init), LitSymbol(t, last), ul, nl);
      CostBump(LitFreqs(t, init), ul, ll, ExtraL(), nl, LitSymbol(t, last));
      DistStepCost(t, init, last, ud, dl, nd);
      BlockWidth(t, init, ul, ll, nl, ud, dl, nd);
    }
  }

  lemma FreqsMore(t: Tables, init: seq<Token>, last: Token)
    requires GoodTables(t) && AllExpressible(init + [last]) && AllExpressible(init) && Expressible(last)
    ensures LitFreqs(t, init + [last]) == Bump(LitFreqs(t, init), LitSymbol(t, last))
  {
    hide LitSymbol;
    var all := init + [last];
    assert all[..|all| - 1] == init && all[|all| - 1] == last;
  }

  lemma DistFreqsMore(t: Tables, init: seq<Token>, last: Token)
    requires GoodTables(t) && AllExpressible(init + [last]) && AllExpressible(init) && Expressible(last)
    ensures last.Copy? ==> DistSymbol(t, last.distance).code < D_CODES
    ensures DistFreqs(t, init + [last])
         == if last.Copy? then Bump(DistFreqs(t, init), DistSymbol(t, last.distance).code) else DistFreqs(t, init)
  {
    hide DistSymbol;
    if last.Copy? { DistSymbolMeans(t, last.distance); }
    var all := init + [last];
    assert all[..|all| - 1] == init && all[|all| - 1] == last;
  }

  lemma BumpCost(freq: seq<nat>, s: nat, used: seq<nat>, l: seq<nat>, n: nat)
    requires |freq| == D_CODES && s < D_CODES && Covers(Bump(freq, s), used, n) && n <= |used| && n <= |l| && n <= D_CODES
    ensures Covers(freq, used, n) && s < |l|
    ensures Cost(Bump(freq, s), used, l, ExtraD(), n) == Cost(freq, used, l, ExtraD(), n) + l[s] + ExtraD()[s]
  {
    hide Cost, Covers, ExtraD;
    CoversBefore(freq, s, used, n);
    CostBump(freq, used, l, ExtraD(), n, s);
  }

  lemma DistStepCost(t: Tables, init: seq<Token>, last: Token, ud: seq<nat>, dl: seq<nat>, nd: nat)
    requires GoodTables(t) && AllExpressible(init + [last]) && AllExpressible(init) && Expressible(last)
    requires Covers(DistFreqs(t, init + [last]), ud, nd) && nd <= |ud| && nd <= |dl| && nd <= D_CODES
    requires last.Copy? ==> DistSymbol(t, last.distance).code < |dl|
    ensures Covers(DistFreqs(t, init), ud, nd)
    ensures Cost(DistFreqs(t, init + [last]), ud, dl, ExtraD(), nd)
         == Cost(DistFreqs(t, init), ud, dl, ExtraD(), nd) + DistWidthOf(t, dl, last)
  {
    hide Cost, GoodTables, Covers, ExtraD, DistFreqs, DistSymbol, AllExpressible, LBASE, LEXT, DBASE, DEXT;
    DistFreqsMore(t, init, last);
    if last.Copy? {
      BumpCost(DistFreqs(t, init), DistSymbol(t, last.distance).code, ud, dl, nd);
    }
  }

  lemma {:induction false} CostNoFreq(freq: seq<nat>, used: seq<nat>, l: seq<nat>, extra: seq<nat>, n: nat)
    requires n <= |used| && n <= |l| && n <= |freq| && n <= |extra| && forall s :: 0 <= s < n ==> freq[s] == 0
    ensures Cost(freq, used, l, extra, n) == 0
    decreases n
  {
    if n > 0 { CostNoFreq(freq, used, l, extra, n - 1); }
  }

  lemma NoTokensCost(t: Tables, ul: seq<nat>, ll: seq<nat>, nl: nat, ud: seq<nat>, dl: seq<nat>, nd: nat)
    requires GoodTables(t) && Covers(LitFreqs(t, []), ul, nl) && nl <= |ll| && nl <= L_CODES && END_BLOCK < nl
    requires nd <= |ud| && nd <= |dl| && nd <= D_CODES
    ensures Cost(LitFreqs(t, []), ul, ll, ExtraL(), nl) == ll[END_BLOCK]
    ensures Cost(DistFreqs(t, []), ud, dl, ExtraD(), nd) == 0
  {
    hide Cost;
    var zeros: seq<nat> := seq(L_CODES, _ => 0);
    assert LitFreqs(t, []) == zeros[END_BLOCK := zeros[END_BLOCK] + 1];
    CostNoFreq(zeros, ul, ll, ExtraL(), nl);
    CostBump(zeros, ul, ll, ExtraL(), nl, END_BLOCK);
    CostNoFreq(DistFreqs(t, []), ud, dl, ExtraD(), nd);
  }

  // ----- the code lengths ------------------------------------------------------------------------

  /** How often each symbol of the code length alphabet is sent. */
  function ItemFreqs(items: seq<Item>): (f: seq<nat>)
    ensures |f| == 19
  {
    seq(19, s requires 0 <= s < 19 => Occurs(items, s))
  }

  lemma ItemWidth(bl: seq<nat>, item: Item)
    requires |bl| == 19 && GoodItem(item)
    ensures Width(ItemFields(bl, item)) == bl[item.symbol] + ExtraB()[item.symbol]
  {
    hide Width;
    ValueAppend([CodeField(bl, item.symbol)], CountFields(item));
    FieldWidth(bl, item.symbol);
    if item.symbol < 16 { WidthNone(); } else { ValueOne(CountFields(item)[0]); }
  }

  lemma FreqsItem(items: seq<Item>, item: Item)
    requires item.symbol < 19
    ensures ItemFreqs(items + [item]) == Bump(ItemFreqs(items), item.symbol)
  {
    var more := items + [item];
    assert more[..|more| - 1] == items;
  }

  /** The bits sent for code lengths are what their frequencies predict. */
  lemma {:induction false} ItemsWidth(bl: seq<nat>, items: seq<Item>)
    requires Sendable(bl, items)
    ensures Width(ItemsFields(bl, items)) == Cost(ItemFreqs(items), bl, bl, ExtraB(), 19)
    decreases |items|
  {
    hide Width, Cost, ItemFields, ItemFreqs, Occurs, ExtraB;
    if items == [] {
      WidthNone();
      NoItems(bl);
    } else {
      var k := |items| - 1;
      assert items == items[..k] + [items[k]];
      ItemsWidth(bl, items[..k]);
      ItemsMore(bl, items[..k], items[k]);
      ValueAppend(ItemsFields(bl, items[..k]), ItemFields(bl, items[k]));
      ItemWidth(bl, items[k]);
      FreqsItem(items[..k], items[k]);
      CostBump(ItemFreqs(items[..k]), bl, bl, ExtraB(), 19, items[k].symbol);
    }
  }

  lemma NoItems(bl: seq<nat>)
    requires |bl| == 19
    ensures Cost(ItemFreqs([]), bl, bl, ExtraB(), 19) == 0
  {
    CostNoFreq(ItemFreqs([]), bl, bl, ExtraB(), 19);
  }
}
