/**
  The header of a dynamic block: send_all_trees of deps/zlib/trees.c against the
  TABLE, LENLENS and CODELENS states of deps/zlib/inflate.c, section 3.2.7 of
  RFC 1951.
 */
module Header {
  import opened Wrappers
  import opened Bits
  import opened InflateSpec
  import opened InflateTable
  import opened BitIo
  import opened CodeLengths
  import opened SendTree
  import opened Block

  /** bl_order, and `order` of inflate. */
  const BL_ORDER: seq<nat> := [16, 17, 18, 0, 8, 7, 9, 6, 10, 5, 11, 4, 12, 3, 13, 2, 14, 1, 15]
  const BL_INDEX: seq<nat> := [3, 17, 15, 13, 11, 9, 7, 5, 4, 6, 8, 10, 12, 14, 16, 18, 0, 1, 2]

  lemma OrderLow(i: nat)
    requires i < 10
    ensures BL_ORDER[i] < 19 && BL_INDEX[BL_ORDER[i]] == i && BL_INDEX[i] < 19 && BL_ORDER[BL_INDEX[i]] == i
  {
  }

  lemma OrderHigh(i: nat)
    requires 10 <= i < 19
    ensures BL_ORDER[i] < 19 && BL_INDEX[BL_ORDER[i]] == i && BL_INDEX[i] < 19 && BL_ORDER[BL_INDEX[i]] == i
  {
  }

  /** The order is a permutation of the symbols. */
  lemma OrderIs(i: nat)
    requires i < 19
    ensures |BL_ORDER| == |BL_INDEX| == 19
    ensures BL_ORDER[i] < 19 && BL_INDEX[BL_ORDER[i]] == i && BL_INDEX[i] < 19 && BL_ORDER[BL_INDEX[i]] == i
  {
    if i < 10 { OrderLow(i); } else { OrderHigh(i); }
  }

  /**
    The order in section 3.2.7 of RFC 1951, likeliest lengths first: the three repeats,
    zero, eight, and from there outwards by turns.
   */
  lemma OrderPlaces(k: nat)
    requires 1 <= k <= 7
    ensures BL_ORDER[0] == 16 && BL_ORDER[1] == 17 && BL_ORDER[2] == 18 && BL_ORDER[3] == 0 && BL_ORDER[4] == 8
    ensures BL_ORDER[3 + 2 * k] == 8 - k && BL_ORDER[4 + 2 * k] == 8 + k
  {
  }

  // ----- reading code lengths ----------------------------------------------------------------

  datatype Received = Lengths(lens: seq<nat>, rest: nat) | BadLengths

  /** The CODELENS state on an unlimited stream. */
  function ReadLens(t: seq<Code>, root: nat, v: nat, lens: seq<nat>, total: nat): Received
    decreases if |lens| < total then total - |lens| else 0
  {
    if |lens| >= total then Lengths(lens, v)
    else
      match Lookup(t, root, v)
      case None => BadLengths
      case Some((here, n)) =>
        if here.val < 16 then ReadLens(t, root, Shr(v, n), lens + [here.val], total)
        else if here.val == 16 then
          if lens == [] then BadLengths
          else ReadRun(t, root, Shr(v, n + 2), lens, total, lens[|lens| - 1], 3 + Low(Shr(v, n), 2))
        else if here.val == 17 then ReadRun(t, root, Shr(v, n + 3), lens, total, 0, 3 + Low(Shr(v, n), 3))
        else ReadRun(t, root, Shr(v, n + 7), lens, total, 0, 11 + Low(Shr(v, n), 7))
  }

  function ReadRun(t: seq<Code>, root: nat, v: nat, lens: seq<nat>, total: nat, len: nat, copy: nat): Received
    requires copy > 0 && |lens| < total
    decreases total - |lens|, 0
  {
    if |lens| + copy > total then BadLengths else ReadLens(t, root, v, lens + Repeat(len, copy), total)
  }

  /** An item at the head of a stream. */
  lemma ItemRead(t: seq<Code>, root: nat, bl: seq<nat>, item: Item, lens: seq<nat>, total: nat, rest: nat)
    requires |bl| == 19 && Decodes(t, root, bl, CODES) && GoodItem(item) && bl[item.symbol] > 0
    requires item.symbol == REP_3_6 ==> lens != []
    requires |Receive(lens, item)| <= total
    ensures ReadLens(t, root, Stream(ItemFields(bl, item), rest), lens, total) == ReadLens(t, root, rest, Receive(lens, item), total)
  {
    hide Lookup, Decodes, Stream, Shr, Low, Pow2, CodeField;
    var v := Stream(ItemFields(bl, item), rest);
    var w := if item.symbol < 16 then 0 else CountFields(item)[0].width;
    var s := Symbol(item.symbol, if w == 0 then 0 else CountFields(item)[0].value, w);
    PowZero();
    Widths237();
    assert SymbolFields(bl, s) == ItemFields(bl, item);
    SymbolRead(t, root, bl, CODES, s, rest);
  }

  lemma {:induction false} ItemsFirst(bl: seq<nat>, a: Item, b: seq<Item>)
    requires |bl| == 19 && GoodItem(a) && AllGood(b)
    ensures AllGood([a] + b) && ItemsFields(bl, [a] + b) == ItemFields(bl, a) + ItemsFields(bl, b)
    decreases |b|
  {
    hide ItemFields;
    var all := [a] + b;
    assert AllGood(all);
    if b == [] {
      assert all[..0] == [];
      assert all == [a];
    } else {
      var k := |b| - 1;
      assert all[..|all| - 1] == [a] + b[..k];
      ItemsFirst(bl, a, b[..k]);
    }
  }

  lemma {:induction false} ReceiveGrows(lens: seq<nat>, items: seq<Item>)
    ensures |ReceiveAll(lens, items)| >= |lens|
    decreases |items|
  {
    if items != [] { ReceiveGrows(Receive(lens, items[0]), items[1..]); }
  }

  /** Items sent are received as the lengths they stand for. */
  lemma {:induction false} ItemsRead(t: seq<Code>, root: nat, bl: seq<nat>, items: seq<Item>, lens: seq<nat>, total: nat, rest: nat)
    requires Sendable(bl, items) && Decodes(t, root, bl, CODES) && |ReceiveAll(lens, items)| <= total
    requires lens != [] || items == [] || items[0].symbol != REP_3_6
    ensures ReadLens(t, root, Stream(ItemsFields(bl, items), rest), lens, total)
         == ReadLens(t, root, rest, ReceiveAll(lens, items), total)
    decreases |items|
  {
    hide Decodes, Stream, ReadLens, ItemFields, Receive;
    if items == [] {
      assert ItemsFields(bl, items) == [];
      StreamNone(rest);
    } else {
      var first, others := items[0], items[1..];
      assert items == [first] + others;
      ItemsFirst(bl, first, others);
      StreamAppend(ItemFields(bl, first), ItemsFields(bl, others), rest);
      ReceiveGrows(Receive(lens, first), others);
      ReceiveSome(lens, first);
      ItemRead(t, root, bl, first, lens, total, Stream(ItemsFields(bl, others), rest));
      ItemsRead(t, root, bl, others, Receive(lens, first), total, rest);
    }
  }

  lemma ReceiveSome(lens: seq<nat>, item: Item)
    requires GoodItem(item) && (item.symbol == REP_3_6 ==> lens != [])
    ensures Receive(lens, item) != []
  {
  }

  lemma ReadLensEnd(t: seq<Code>, root: nat, v: nat, lens: seq<nat>, total: nat)
    requires |lens| == total
    ensures ReadLens(t, root, v, lens, total) == Lengths(lens, v)
  {
  }

  /** Both trees sent one after the other come back. */
  lemma TreesRead(t: seq<Code>, root: nat, bl: seq<nat>, ll: seq<nat>, dl: seq<nat>, rest: nat)
    requires LengthsOk(ll) && LengthsOk(dl) && |bl| == 19 && Decodes(t, root, bl, CODES)
    requires Sendable(bl, Compressed(ll)) && Sendable(bl, Compressed(dl))
    ensures ReadLens(t, root, Stream(ItemsFields(bl, Compressed(ll)) + ItemsFields(bl, Compressed(dl)), rest), [], |ll| + |dl|)
         == Lengths(ll + dl, rest)
  {
    hide Decodes, Stream, ReadLens, ItemsFields, Compressed, ReceiveAll;
    var a, b := Compressed(ll), Compressed(dl);
    RoundTrip(ll, dl);
    OneTree(ll);
    ReceiveAppend([], a, b);
    ReceiveGrows(ll, b);
    StreamAppend(ItemsFields(bl, a), ItemsFields(bl, b), rest);
    FirstItems(ll, dl);
    ItemsRead(t, root, bl, a, [], |ll| + |dl|, Stream(ItemsFields(bl, b), rest));
    ItemsRead(t, root, bl, b, ll, |ll| + |dl|, rest);
    ReadLensEnd(t, root, rest, ll + dl, |ll| + |dl|);
  }

  lemma OneTree(ll: seq<nat>)
    requires LengthsOk(ll)
    ensures ReceiveAll([], Compressed(ll)) == ll
  {
    hide Runs;
    RunsReceived([], ll, 0, -1, 0);
    NoneLeft([], ll, 0);
    assert [] + ll[0..] == ll;
  }

  lemma FirstItems(ll: seq<nat>, dl: seq<nat>)
    requires LengthsOk(ll) && LengthsOk(dl)
    ensures Compressed(ll) == [] || Compressed(ll)[0].symbol != REP_3_6
    ensures Compressed(dl) == [] || Compressed(dl)[0].symbol != REP_3_6
  {
    RoundTrip(ll, dl);
    if ll == [] { assert Compressed(ll) == []; }
    if dl == [] { assert Compressed(dl) == []; }
  }

  // ----- the whole header ------------------------------------------------------------------------

  /** The lengths of the code length codes, in their own order. */
  function BlFields(bl: seq<nat>, n: nat): (f: seq<Field>)
    requires |bl| == 19 && n <= 19
    ensures |f| == n
  {
    seq(n, i requires 0 <= i < n => OrderIs(i); Field(bl[BL_ORDER[i]], 3))
  }

  function Threes(n: nat): (w: seq<nat>)
    ensures |w| == n
  {
    seq(n, _ => 3)
  }

  /** LENLENS: lengths that are not sent are zero. */
  function BlReceived(values: seq<nat>): (bl: seq<nat>)
    requires |values| <= 19
    ensures |bl| == 19
  {
    seq(19, s requires 0 <= s < 19 => OrderIs(s); if BL_INDEX[s] < |values| then values[BL_INDEX[s]] else 0)
  }

  lemma BlRoundTrip(bl: seq<nat>, n: nat)
    requires |bl| == 19 && n <= 19
    requires forall i :: n <= i < 19 ==> BL_ORDER[i] < 19 && bl[BL_ORDER[i]] == 0
    ensures BlReceived(Values(BlFields(bl, n))) == bl
  {
    hide BL_ORDER, BL_INDEX;
    var got := BlReceived(Values(BlFields(bl, n)));
    forall s | 0 <= s < 19 ensures got[s] == bl[s] { OrderIs(s); }
  }

  /** The place of each length among the three-bit fields, and where inflate puts the fields. */
  lemma BlPlaces(bl: seq<nat>, values: seq<nat>, k: nat)
    requires |bl| == |values| == 19 && 1 <= k <= 7
    ensures BlFields(bl, 19)[..5] == [Field(bl[16], 3), Field(bl[17], 3), Field(bl[18], 3), Field(bl[0], 3), Field(bl[8], 3)]
    ensures BlFields(bl, 19)[3 + 2 * k] == Field(bl[8 - k], 3) && BlFields(bl, 19)[4 + 2 * k] == Field(bl[8 + k], 3)
    ensures BlReceived(values)[16..] == values[..3] && BlReceived(values)[0] == values[3] && BlReceived(values)[8] == values[4]
    ensures BlReceived(values)[8 - k] == values[3 + 2 * k] && BlReceived(values)[8 + k] == values[4 + 2 * k]
  {
    hide BL_ORDER, BL_INDEX;
    OrderPlaces(k);
    OrderIs(0);
    forall i | 0 <= i < 19 ensures BL_ORDER[i] < 19 && BL_INDEX[BL_ORDER[i]] == i { OrderIs(i); }
  }

  /** Fewer fields are the first of them; those not sent are read as zeros. */
  lemma BlShorter(bl: seq<nat>, values: seq<nat>, n: nat)
    requires |bl| == 19 && |values| == n <= 19
    ensures BlFields(bl, n) == BlFields(bl, 19)[..n]
    ensures BlReceived(values) == BlReceived(values + seq(19 - n, _ => 0))
  {
    hide BL_ORDER, BL_INDEX;
    var long := values + seq(19 - n, _ => 0);
    forall s | 0 <= s < 19 ensures BlReceived(values)[s] == BlReceived(long)[s] { OrderIs(s); }
  }

  /** The three counts. */
  function CountsFields(nl: nat, nd: nat, nb: nat): seq<Field>
    requires 257 <= nl && 1 <= nd && 4 <= nb
  {
    [Field(nl - 257, 5), Field(nd - 1, 5), Field(nb - 4, 4)]
  }

  /** What send_all_trees sends. */
  ghost function HeaderFields(ll: seq<nat>, dl: seq<nat>, bl: seq<nat>, nb: nat): seq<Field>
    requires 257 <= |ll| && 1 <= |dl| && 4 <= nb <= 19 && Sendable(bl, Compressed(ll)) && Sendable(bl, Compressed(dl))
  {
    CountsFields(|ll|, |dl|, nb) + BlFields(bl, nb) + (ItemsFields(bl, Compressed(ll)) + ItemsFields(bl, Compressed(dl)))
  }

  lemma SmallPowers()
    ensures Pow2(3) == 8 && Pow2(4) == 16 && Pow2(5) == 32
  {
    Widths237();
    assert Pow2(4) == 2 * Pow2(3) && Pow2(5) == 2 * Pow2(4);
  }

  lemma BlFit(bl: seq<nat>, n: nat)
    requires |bl| == 19 && n <= 19 && forall s :: 0 <= s < 19 ==> bl[s] <= 7
    ensures AllFit(BlFields(bl, n)) && Widths(BlFields(bl, n)) == Threes(n)
  {
    hide BL_ORDER, BL_INDEX, Pow2;
    SmallPowers();
    forall i | 0 <= i < n ensures FieldFits(BlFields(bl, n)[i]) { OrderIs(i); }
  }

  /**
    TABLE, LENLENS and CODELENS on what send_all_trees sent: the counts, the
    lengths of the code length codes, and with any table that decodes these, the
    lengths of both trees.
   */
  lemma HeaderRead(ll: seq<nat>, dl: seq<nat>, bl: seq<nat>, nb: nat, t: seq<Code>, root: nat, rest: nat)
    requires 257 <= |ll| <= 288 && 1 <= |dl| <= 32 && 4 <= nb <= 19 && LengthsOk(ll) && LengthsOk(dl)
    requires |bl| == 19 && Sendable(bl, Compressed(ll)) && Sendable(bl, Compressed(dl)) && Decodes(t, root, bl, CODES)
    requires forall s :: 0 <= s < 19 ==> bl[s] <= 7
    requires forall i :: nb <= i < 19 ==> BL_ORDER[i] < 19 && bl[BL_ORDER[i]] == 0
    ensures var v := Stream(HeaderFields(ll, dl, bl, nb), rest);
            var u := Shr(Shr(Shr(v, 5), 5), 4);
            && Low(v, 5) + 257 == |ll| && Low(Shr(v, 5), 5) + 1 == |dl| && Low(Shr(Shr(v, 5), 5), 4) + 4 == nb
            && BlReceived(Taken(u, Threes(nb))) == bl
            && ReadLens(t, root, Shr(u, 3 * nb), [], |ll| + |dl|) == Lengths(ll + dl, rest)
  {
    hide Decodes, Stream, ReadLens, ItemsFields, Compressed, Sendable, Low, Shr, Pow2, Taken, BlReceived, BlFields, BL_ORDER, BL_INDEX;
    var counts, lens := CountsFields(|ll|, |dl|, nb), BlFields(bl, nb);
    SendableGood(bl, Compressed(ll), Compressed(dl));
    var trees := ItemsFields(bl, Compressed(ll)) + ItemsFields(bl, Compressed(dl));
    var x := Stream(trees, rest);
    StreamAppend(counts + lens, trees, rest);
    StreamAppend(counts, lens, x);
    CountsRead(|ll|, |dl|, nb, Stream(lens, x));
    BlRead(bl, nb, x);
    TreesRead(t, root, bl, ll, dl, rest);
  }

  lemma SendableGood(bl: seq<nat>, a: seq<Item>, b: seq<Item>)
    requires Sendable(bl, a) && Sendable(bl, b)
    ensures AllGood(a) && AllGood(b)
  {
  }

  lemma CountsRead(nl: nat, nd: nat, nb: nat, rest: nat)
    requires 257 <= nl <= 288 && 1 <= nd <= 32 && 4 <= nb <= 19
    ensures var v := Stream(CountsFields(nl, nd, nb), rest);
            && Low(v, 5) + 257 == nl && Low(Shr(v, 5), 5) + 1 == nd && Low(Shr(Shr(v, 5), 5), 4) + 4 == nb
            && Shr(Shr(Shr(v, 5), 5), 4) == rest
  {
    hide Stream, Low, Shr, Pow2;
    SmallPowers();
    var a, b, c := Field(nl - 257, 5), Field(nd - 1, 5), Field(nb - 4, 4);
    assert CountsFields(nl, nd, nb) == [a] + ([b] + [c]);
    StreamAppend([a], [b] + [c], rest);
    StreamAppend([b], [c], rest);
    StreamOne(a, Stream([b] + [c], rest));
    StreamOne(b, Stream([c], rest));
    StreamOne(c, rest);
  }

  lemma BlRead(bl: seq<nat>, nb: nat, rest: nat)
    requires |bl| == 19 && nb <= 19 && (forall s :: 0 <= s < 19 ==> bl[s] <= 7)
    requires forall i :: nb <= i < 19 ==> BL_ORDER[i] < 19 && bl[BL_ORDER[i]] == 0
    ensures var v := Stream(BlFields(bl, nb), rest);
            BlReceived(Taken(v, Threes(nb))) == bl && Shr(v, 3 * nb) == rest
  {
    hide Low, Shr, Pow2, Taken, BlReceived, BlFields, BL_ORDER, BL_INDEX;
    BlFit(bl, nb);
    TakenSent(BlFields(bl, nb), rest);
    BlRoundTrip(bl, nb);
    ThreesWidth(bl, nb);
    ValueFits(BlFields(bl, nb));
    Join(rest, Value(BlFields(bl, nb)), 3 * nb);
  }

  lemma ThreesWidth(bl: seq<nat>, nb: nat)
    requires |bl| == 19 && nb <= 19
    ensures Width(BlFields(bl, nb)) == 3 * nb
  {
    WidthThrees(BlFields(bl, nb));
  }

  lemma {:induction false} WidthThrees(fields: seq<Field>)
    requires forall i :: 0 <= i < |fields| ==> fields[i].width == 3
    ensures Width(fields) == 3 * |fields|
    decreases |fields|
  {
    if fields != [] { WidthThrees(fields[1..]); }
  }

  /** The counts and the lengths of the code length codes. */
  method SendCounts(w: BitWriter, lcodes: nat, dcodes: nat, bl: seq<nat>, blcodes: nat)
    requires w.Valid() && |bl| == 19 && (forall s :: 0 <= s < 19 ==> bl[s] <= 7) && 4 <= blcodes <= 19
    requires 257 <= lcodes <= 286 && 1 <= dcodes <= 30
    modifies w
    ensures w.Valid() && w.sent == old(w.sent) + (CountsFields(lcodes, dcodes, blcodes) + BlFields(bl, blcodes))
  {
    hide Pow2, BL_ORDER, BL_INDEX;
    SmallPowers();
    ghost var start := w.sent;
    w.SendBits(lcodes - 257, 5);
    w.SendBits(dcodes - 1, 5);
    w.SendBits(blcodes - 4, 4);
    ghost var counts := CountsFields(lcodes, dcodes, blcodes);
    assert w.sent == start + (counts + BlFields(bl, 0));
    var rank := 0;
    while rank < blcodes
      invariant 0 <= rank <= blcodes && w.Valid() && w.sent == start + (counts + BlFields(bl, rank))
    {
      OrderIs(rank);
      w.SendBits(bl[BL_ORDER[rank]], 3);
      assert BlFields(bl, rank) + [Field(bl[BL_ORDER[rank]], 3)] == BlFields(bl, rank + 1);
      rank := rank + 1;
    }
  }

  /** send_all_trees */
  method SendAllTrees(w: BitWriter, ldl: seq<nat>, lcodes: nat, ddl: seq<nat>, dcodes: nat, codes: seq<nat>, bl: seq<nat>, blcodes: nat)
    requires w.Valid() && Coded(codes, bl) && |bl| == 19 && (forall s :: 0 <= s < 19 ==> bl[s] <= 7) && 4 <= blcodes <= 19
    requires 257 <= lcodes <= 286 && lcodes < |ldl| && ldl[lcodes] == GUARD && LengthsOk(ldl[..lcodes])
    requires 1 <= dcodes <= 30 && dcodes < |ddl| && ddl[dcodes] == GUARD && LengthsOk(ddl[..dcodes])
    requires Sendable(bl, Compressed(ldl[..lcodes])) && Sendable(bl, Compressed(ddl[..dcodes]))
    modifies w
    ensures w.Valid() && w.sent == old(w.sent) + HeaderFields(ldl[..lcodes], ddl[..dcodes], bl, blcodes)
  {
    hide Coded, ItemsFields, Compressed, Sendable, CountsFields, BlFields;
    ghost var start := w.sent;
    SendCounts(w, lcodes, dcodes, bl, blcodes);
    SendTree.SendTree(w, codes, bl, ldl, lcodes - 1);
    SendTree.SendTree(w, codes, bl, ddl, dcodes - 1);
    SendableGood(bl, Compressed(ldl[..lcodes]), Compressed(ddl[..dcodes]));
    ghost var a, b := ItemsFields(bl, Compressed(ldl[..lcodes])), ItemsFields(bl, Compressed(ddl[..dcodes]));
    ghost var c := CountsFields(lcodes, dcodes, blcodes) + BlFields(bl, blcodes);
    assert start + c + a + b == start + (c + (a + b));
  }
}
