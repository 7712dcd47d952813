/** send_tree and send_all_trees of deps/zlib/trees.c: the code lengths on their way to the decoder. */
module SendTree {
  import opened Bits
  import opened Canonical
  import opened BitIo
  import opened CodeLengths

  /** The field that send_code sends. */
  function CodeField(lens: seq<nat>, s: nat): Field
    requires s < |lens|
  {
    Field(StreamCode(lens, s), lens[s])
  }

  lemma CodeFieldFits(lens: seq<nat>, s: nat)
    requires s < |lens|
    ensures FieldFits(CodeField(lens, s))
  {
    RevBound(lens[s], CodeOf(lens, s));
  }

  /** The codes of a tree, as gen_codes leaves them. */
  ghost predicate Coded(codes: seq<nat>, lens: seq<nat>) {
    && |lens| <= |codes| && ValidLens(lens)
    && forall s :: 0 <= s < |lens| && lens[s] > 0 ==> codes[s] == StreamCode(lens, s)
  }

  /** send_code */
  method SendCode(w: BitWriter, codes: seq<nat>, lens: seq<nat>, s: nat)
    requires w.Valid() && Coded(codes, lens) && s < |lens| && lens[s] > 0
    modifies w
    ensures w.Valid() && w.sent == old(w.sent) + [CodeField(lens, s)]
  {
    hide StreamCode;
    CodeFieldFits(lens, s);
    w.SendBits(codes[s], lens[s]);
  }

  /** The extra bits that carry a repeat count. */
  function CountFields(item: Item): seq<Field>
    requires GoodItem(item)
  {
    if item.symbol < 16 then []
    else if item.symbol == REP_3_6 then [Field(item.count - 3, 2)]
    else if item.symbol == REPZ_3_10 then [Field(item.count - 3, 3)]
    else [Field(item.count - 11, 7)]
  }

  function ItemFields(bl: seq<nat>, item: Item): seq<Field>
    requires |bl| == 19 && GoodItem(item)
  {
    [CodeField(bl, item.symbol)] + CountFields(item)
  }

  ghost function ItemsFields(bl: seq<nat>, items: seq<Item>): seq<Field>
    requires |bl| == 19 && AllGood(items)
  {
    if items == [] then [] else ItemsFields(bl, items[..|items| - 1]) + ItemFields(bl, items[|items| - 1])
  }

  lemma ItemsMore(bl: seq<nat>, items: seq<Item>, item: Item)
    requires |bl| == 19 && AllGood(items) && GoodItem(item)
    ensures AllGood(items + [item]) && ItemsFields(bl, items + [item]) == ItemsFields(bl, items) + ItemFields(bl, item)
  {
    assert (items + [item])[..|items|] == items;
  }

  /** The symbols of all items have codes. */
  ghost predicate Sendable(bl: seq<nat>, items: seq<Item>) {
    |bl| == 19 && AllGood(items) && forall i :: 0 <= i < |items| ==> bl[items[i].symbol] > 0
  }

  lemma Widths237()
    ensures Pow2(2) == 4 && Pow2(3) == 8 && Pow2(7) == 128
  {
    assert Pow2(0) == 1 && Pow2(1) == 2 * Pow2(0) && Pow2(2) == 2 * Pow2(1) && Pow2(3) == 2 * Pow2(2);
    assert Pow2(4) == 2 * Pow2(3) && Pow2(5) == 2 * Pow2(4) && Pow2(6) == 2 * Pow2(5) && Pow2(7) == 2 * Pow2(6);
  }

  /** One symbol with its repeat count. */
  method SendItem(w: BitWriter, codes: seq<nat>, bl: seq<nat>, symbol: nat, count: nat, ghost start: seq<Field>, ghost done: seq<Item>)
    requires w.Valid() && Coded(codes, bl) && |bl| == 19 && GoodItem(Item(symbol, count)) && bl[symbol] > 0
    requires AllGood(done) && w.sent == start + ItemsFields(bl, done)
    modifies w
    ensures w.Valid() && AllGood(done + [Item(symbol, count)]) && w.sent == start + ItemsFields(bl, done + [Item(symbol, count)])
  {
    hide CodeField, ItemsFields, Pow2, Coded;
    Widths237();
    ItemsMore(bl, done, Item(symbol, count));
    SendCode(w, codes, bl, symbol);
    if symbol == REP_3_6 {
      w.SendBits(count - 3, 2);
    } else if symbol == REPZ_3_10 {
      w.SendBits(count - 3, 3);
    } else if symbol == REPZ_11_138 {
      w.SendBits(count - 11, 7);
    }
  }

  /** One run, sent as send_tree does. */
  method SendRun(w: BitWriter, codes: seq<nat>, bl: seq<nat>, curlen: nat, count: nat, prevlen: int, minCount: nat,
                 ghost start: seq<Field>, ghost done: seq<Item>)
    requires w.Valid() && Coded(codes, bl) && 1 <= minCount && 1 <= count
    requires Sendable(bl, RunItems(curlen, count, prevlen, minCount)) && AllGood(done)
    requires w.sent == start + ItemsFields(bl, done)
    modifies w
    ensures w.Valid() && AllGood(done + RunItems(curlen, count, prevlen, minCount))
    ensures w.sent == start + ItemsFields(bl, done + RunItems(curlen, count, prevlen, minCount))
  {
    hide ItemsFields, Coded;
    ghost var items := RunItems(curlen, count, prevlen, minCount);
    if count < minCount {
      assert GoodItem(items[0]) && items[0] == Item(curlen, 1) && bl[items[0].symbol] > 0;
      var left := count;
      assert done + Singles(curlen, 0) == done;
      while left != 0
        invariant 0 <= left <= count && w.Valid() && AllGood(done + Singles(curlen, count - left))
        invariant w.sent == start + ItemsFields(bl, done + Singles(curlen, count - left))
        decreases left
      {
        SendItem(w, codes, bl, curlen, 1, start, done + Singles(curlen, count - left));
        assert done + Singles(curlen, count - left) + [Item(curlen, 1)] == done + Singles(curlen, count - left + 1);
        left := left - 1;
      }
    } else if curlen != 0 {
      assert GoodItem(items[0]) && bl[items[0].symbol] > 0;
      if curlen != prevlen {
        assert GoodItem(items[1]) && bl[items[1].symbol] > 0;
        SendItem(w, codes, bl, curlen, 1, start, done);
        SendItem(w, codes, bl, REP_3_6, count - 1, start, done + [Item(curlen, 1)]);
        assert done + [Item(curlen, 1)] + [Item(REP_3_6, count - 1)] == done + items;
      } else {
        SendItem(w, codes, bl, REP_3_6, count, start, done);
      }
    } else if count <= 10 {
      assert GoodItem(items[0]) && bl[items[0].symbol] > 0;
      SendItem(w, codes, bl, REPZ_3_10, count, start, done);
    } else {
      assert GoodItem(items[0]) && bl[items[0].symbol] > 0;
      SendItem(w, codes, bl, REPZ_11_138, count, start, done);
    }
  }

  /** What is sent of a sequence that is part of a larger one. */
  lemma PartSendable(bl: seq<nat>, all: seq<Item>, before: seq<Item>, part: seq<Item>, after: seq<Item>)
    requires Sendable(bl, all) && all == before + part + after
    ensures Sendable(bl, part) && AllGood(before)
  {
    forall i | 0 <= i < |part| ensures GoodItem(part[i]) && bl[part[i].symbol] > 0 { assert all[|before| + i] == part[i]; }
    forall i | 0 <= i < |before| ensures GoodItem(before[i]) { assert all[i] == before[i]; }
  }

  lemma MidwayAll(lens: seq<nat>, n: nat, prev: int, count: nat, nextlen: nat, maxCount: nat, minCount: nat, done: seq<Item>)
    requires Midway(lens, n, prev, count, nextlen, maxCount, minCount, done)
    ensures Compressed(lens) == done + Runs(lens, n, prev, count)
  {
  }

  /** send_tree: the items of the compressed lengths, each with its code and count. */
  method SendTree(w: BitWriter, codes: seq<nat>, bl: seq<nat>, dl: seq<nat>, maxCode: nat)
    requires w.Valid() && |bl| == 19 && Coded(codes, bl) && maxCode + 1 < |dl| && dl[maxCode + 1] == GUARD && LengthsOk(dl[..maxCode + 1])
    requires Sendable(bl, Compressed(dl[..maxCode + 1]))
    modifies w
    ensures w.Valid() && w.sent == old(w.sent) + ItemsFields(bl, Compressed(dl[..maxCode + 1]))
  {
    hide Counted, Midway, RunItems, Runs, ItemsFields, Coded, Sendable, AllGood;
    ghost var lens, start := dl[..maxCode + 1], w.sent;
    var prevlen: int, nextlen: nat, count: nat := -1, dl[0], 0;
    var maxCount: nat, minCount: nat := 7, 4;
    if nextlen == 0 { maxCount, minCount := 138, 3; }
    ghost var items: seq<Item> := [];
    StartSend(lens, bl);
    assert start + [] == start;
    var n: nat := 0;
    while n <= maxCode
      invariant 0 <= n <= maxCode + 1 && w.Valid()
      invariant Midway(lens, n, prevlen, count, nextlen, maxCount, minCount, items)
      invariant AllGood(items) && w.sent == start + ItemsFields(bl, items)
    {
      assert dl[n + 1] == NextLen(lens, n + 1);
      MidwayStep(lens, n, prevlen, count, nextlen, maxCount, minCount, items, dl[n + 1]);
      MidwayLen(lens, n, prevlen, count, nextlen, maxCount, minCount, items);
      var curlen := nextlen;
      nextlen := dl[n + 1];
      count := count + 1;
      if !(count < maxCount && curlen == nextlen) {
        ghost var run := RunItems(curlen, count, prevlen, minCount);
        MidwayAll(lens, n + 1, curlen, 0, nextlen, MaxCount(curlen, nextlen), MinCount(curlen, nextlen), items + run);
        PartSendable(bl, Compressed(lens), items, run, Runs(lens, n + 1, curlen, 0));
        SendRun(w, codes, bl, curlen, count, prevlen, minCount, start, items);
        items := items + run;
        count, prevlen := 0, curlen;
        maxCount, minCount := Limits(curlen, nextlen);
      }
      n := n + 1;
    }
    MidwayEnd(lens, prevlen, count, nextlen, maxCount, minCount, items);
  }

  lemma StartSend(lens: seq<nat>, bl: seq<nat>)
    requires lens != [] && |bl| == 19
    ensures Midway(lens, 0, -1, 0, lens[0], MaxCount(-1, lens[0]), MinCount(-1, lens[0]), [])
    ensures AllGood([]) && ItemsFields(bl, []) == []
  {
    assert [] + Runs(lens, 0, -1, 0) == Compressed(lens);
  }
}
