/**
  The run-length coding of code lengths: scan_tree and send_tree of
  deps/zlib/trees.c against the CODELENS state of deps/zlib/inflate.c, section
  3.2.7 of RFC 1951.
 */
module CodeLengths {
  import opened Bits
  import opened BitIo

  const REP_3_6: nat := 16
  const REPZ_3_10: nat := 17
  const REPZ_11_138: nat := 18
  const GUARD: nat := 0xffff

  /** A symbol of the code length alphabet with its repeat count, if it has one. */
  datatype Item = Item(symbol: nat, count: nat)

  /** Repeat counts are in range, and no item of a length has one. */
  predicate GoodItem(item: Item) {
    if item.symbol < 16 then item.count == 1
    else if item.symbol == REP_3_6 then 3 <= item.count <= 6
    else if item.symbol == REPZ_3_10 then 3 <= item.count <= 10
    else item.symbol == REPZ_11_138 && 11 <= item.count <= 138
  }

  // ----- the receiver ----------------------------------------------------------------------

  function Repeat(x: nat, n: nat): (s: seq<nat>)
    ensures |s| == n
  {
    seq(n, _ => x)
  }

  /** What the CODELENS state does with one symbol; a repeat of the last length needs one before it. */
  function Receive(lens: seq<nat>, item: Item): seq<nat> {
    if item.symbol < 16 then lens + [item.symbol]
    else if item.symbol == REP_3_6 then
      if lens == [] then lens else lens + Repeat(lens[|lens| - 1], item.count)
    else lens + Repeat(0, item.count)
  }

  function ReceiveAll(lens: seq<nat>, items: seq<Item>): seq<nat>
    decreases |items|
  {
    if items == [] then lens else ReceiveAll(Receive(lens, items[0]), items[1..])
  }

  lemma {:induction false} ReceiveAppend(lens: seq<nat>, a: seq<Item>, b: seq<Item>)
    ensures ReceiveAll(lens, a + b) == ReceiveAll(ReceiveAll(lens, a), b)
    decreases |a|
  {
    if a == [] {
      assert a + b == b;
    } else {
      assert (a + b)[1..] == a[1..] + b;
      ReceiveAppend(Receive(lens, a[0]), a[1..], b);
    }
  }

  // ----- the sender --------------------------------------------------------------------------

  /** What a run of `count` equal lengths is sent as; `prev` is the last length sent. */
  function RunItems(curlen: nat, count: nat, prev: int, minCount: nat): seq<Item>
    requires 1 <= minCount
  {
    if count < minCount then Singles(curlen, count)
    else if curlen != 0 then
      if curlen != prev then [Item(curlen, 1), Item(REP_3_6, count - 1)] else [Item(REP_3_6, count)]
    else if count <= 10 then [Item(REPZ_3_10, count)]
    else [Item(REPZ_11_138, count)]
  }

  function Singles(x: nat, n: nat): (s: seq<Item>)
    ensures |s| == n
  {
    seq(n, _ => Item(x, 1))
  }

  function MaxCount(prev: int, next: nat): nat {
    if next == 0 then 138 else if prev == next then 6 else 7
  }

  function MinCount(prev: int, next: nat): nat {
    if next == 0 then 3 else if prev == next then 3 else 4
  }

  function NextLen(lens: seq<nat>, n: nat): nat {
    if n < |lens| then lens[n] else GUARD
  }

  /** All items from position n on, when `count` equal lengths before it were not yet sent. */
  function Runs(lens: seq<nat>, n: nat, prev: int, count: nat): seq<Item>
    decreases |lens| - n
  {
    if n >= |lens| then []
    else
      var cur, c := lens[n], count + 1;
      if c < MaxCount(prev, cur) && cur == NextLen(lens, n + 1) then Runs(lens, n + 1, prev, c)
      else RunItems(cur, c, prev, MinCount(prev, cur)) + Runs(lens, n + 1, cur, 0)
  }

  /** A code length sequence in compressed form. */
  function Compressed(lens: seq<nat>): seq<Item> {
    Runs(lens, 0, -1, 0)
  }

  // ----- what a whole run comes to ----------------------------------------------------------------

  /** A run of zeros: as many as one symbol can stand for, again and again. */
  function ZeroCode(n: nat): (s: seq<Item>)
    ensures |s| <= n / 138 + 2
  {
    if n < 3 then Singles(0, n)
    else if n <= 10 then [Item(REPZ_3_10, n)]
    else if n <= 138 then [Item(REPZ_11_138, n)]
    else [Item(REPZ_11_138, 138)] + ZeroCode(n - 138)
  }

  /** More of a length that was just sent. */
  function AgainCode(x: nat, n: nat): (s: seq<Item>)
    ensures |s| <= n / 6 + 2
    decreases n
  {
    if n < 3 then Singles(x, n)
    else if n <= 6 then [Item(REP_3_6, n)]
    else [Item(REP_3_6, 6)] + AgainCode(x, n - 6)
  }

  /** A run of n equal lengths behind a different one. */
  function RunCode(x: nat, n: nat): (s: seq<Item>)
    ensures |s| <= if x == 0 then n / 138 + 2 else n / 6 + 3
  {
    if x == 0 then ZeroCode(n)
    else if n < 4 then Singles(x, n)
    else if n <= 7 then [Item(x, 1), Item(REP_3_6, n - 1)]
    else [Item(x, 1), Item(REP_3_6, 6)] + AgainCode(x, n - 7)
  }

  /** From i on there are n lengths x and no more. */
  ghost predicate RunAt(lens: seq<nat>, i: nat, n: nat, x: nat) {
    && 0 < n && i + n <= |lens| && x < 16 && NextLen(lens, i + n) != x
    && forall k :: i <= k < i + n ==> lens[k] == x
  }

  /** k lengths are collected and sent together: all there are, or as many as can be. */
  lemma {:induction false} Collected(lens: seq<nat>, i: nat, n: nat, x: nat, prev: int, count: nat, k: nat)
    requires RunAt(lens, i, n, x) && 0 < k <= n && count + k <= MaxCount(prev, x)
    requires k == n || count + k == MaxCount(prev, x)
    ensures Runs(lens, i, prev, count) == RunItems(x, count + k, prev, MinCount(prev, x)) + Runs(lens, i + k, x, 0)
    decreases k
  {
    hide RunItems, MinCount, MaxCount;
    if k > 1 { Collected(lens, i + 1, n - 1, x, prev, count + 1, k - 1); }
  }

  lemma {:induction false} AgainIs(lens: seq<nat>, i: nat, n: nat, x: nat)
    requires x > 0 && (n == 0 || RunAt(lens, i, n, x)) && i + n <= |lens|
    ensures Runs(lens, i, x, 0) == AgainCode(x, n) + Runs(lens, i + n, x, 0)
    decreases n
  {
    hide Runs;
    if n == 0 {
      assert AgainCode(x, n) == [];
    } else {
      var k := if n <= 6 then n else 6;
      Collected(lens, i, n, x, x, 0, k);
      if n > 6 {
        AgainIs(lens, i + 6, n - 6, x);
        assert [Item(REP_3_6, 6)] + (AgainCode(x, n - 6) + Runs(lens, i + n, x, 0)) == AgainCode(x, n) + Runs(lens, i + n, x, 0);
      }
    }
  }

  lemma {:induction false} ZerosAre(lens: seq<nat>, i: nat, n: nat, prev: int)
    requires RunAt(lens, i, n, 0)
    ensures Runs(lens, i, prev, 0) == ZeroCode(n) + Runs(lens, i + n, 0, 0)
    decreases n
  {
    hide Runs;
    var k := if n <= 138 then n else 138;
    Collected(lens, i, n, 0, prev, 0, k);
    if n > 138 {
      ZerosAre(lens, i + 138, n - 138, 0);
      assert [Item(REPZ_11_138, 138)] + (ZeroCode(n - 138) + Runs(lens, i + n, 0, 0)) == ZeroCode(n) + Runs(lens, i + n, 0, 0);
    }
  }

  /** Every run of equal lengths, wherever it stands, is sent as the code of a run. */
  lemma RunIs(lens: seq<nat>, i: nat, n: nat, x: nat, prev: int)
    requires RunAt(lens, i, n, x) && prev != x
    ensures Runs(lens, i, prev, 0) == RunCode(x, n) + Runs(lens, i + n, x, 0)
  {
    hide Runs;
    if x == 0 {
      ZerosAre(lens, i, n, prev);
    } else {
      var k := if n <= 7 then n else 7;
      Collected(lens, i, n, x, prev, 0, k);
      if n > 7 {
        AgainIs(lens, i + 7, n - 7, x);
        var head, rest := [Item(x, 1), Item(REP_3_6, 6)], Runs(lens, i + n, x, 0);
        assert head + (AgainCode(x, n - 7) + rest) == (head + AgainCode(x, n - 7)) + rest;
      }
    }
  }

  // ----- the round trip ------------------------------------------------------------------------

  lemma RepeatMore(x: nat, n: nat)
    ensures Repeat(x, n) + [x] == Repeat(x, n + 1) == [x] + Repeat(x, n)
  {
  }

  lemma {:induction false} SinglesReceived(lens: seq<nat>, x: nat, n: nat)
    requires x < 16
    ensures ReceiveAll(lens, Singles(x, n)) == lens + Repeat(x, n)
    decreases n
  {
    if n == 0 {
      assert lens + Repeat(x, 0) == lens;
    } else {
      assert Singles(x, n)[1..] == Singles(x, n - 1);
      SinglesReceived(lens + [x], x, n - 1);
      assert lens + [x] + Repeat(x, n - 1) == lens + Repeat(x, n);
    }
  }

  lemma ReceiveOne(lens: seq<nat>, item: Item)
    ensures ReceiveAll(lens, [item]) == Receive(lens, item)
  {
    assert [item][1..] == [];
  }

  lemma ReceiveTwo(lens: seq<nat>, a: Item, b: Item)
    ensures ReceiveAll(lens, [a, b]) == Receive(Receive(lens, a), b)
  {
    assert [a, b][1..] == [b];
    ReceiveOne(Receive(lens, a), b);
  }

  /** The last length sent in this sequence, or -1 at its beginning. */
  ghost predicate LastIs(lens: seq<nat>, prev: int) {
    prev == -1 || (lens != [] && lens[|lens| - 1] == prev)
  }

  lemma RunReceived(lens: seq<nat>, curlen: nat, count: nat, prev: int)
    requires curlen < 16 && 1 <= count <= MaxCount(prev, curlen) && LastIs(lens, prev)
    ensures ReceiveAll(lens, RunItems(curlen, count, prev, MinCount(prev, curlen))) == lens + Repeat(curlen, count)
    ensures forall i :: 0 <= i < |RunItems(curlen, count, prev, MinCount(prev, curlen))| ==>
              GoodItem(RunItems(curlen, count, prev, MinCount(prev, curlen))[i])
  {
    if count < MinCount(prev, curlen) {
      SinglesReceived(lens, curlen, count);
    } else if curlen != 0 && curlen != prev {
      ReceiveTwo(lens, Item(curlen, 1), Item(REP_3_6, count - 1));
      RepeatMore(curlen, count - 1);
      assert lens + [curlen] + Repeat(curlen, count - 1) == lens + ([curlen] + Repeat(curlen, count - 1));
    } else if curlen != 0 {
      ReceiveOne(lens, Item(REP_3_6, count));
    } else if count <= 10 {
      ReceiveOne(lens, Item(REPZ_3_10, count));
    } else {
      ReceiveOne(lens, Item(REPZ_11_138, count));
    }
  }

  predicate LengthsOk(lens: seq<nat>) {
    forall i :: 0 <= i < |lens| ==> lens[i] < 16
  }

  ghost predicate AllGood(items: seq<Item>) {
    forall i :: 0 <= i < |items| ==> GoodItem(items[i])
  }

  lemma {:induction false} RunsReceived(before: seq<nat>, lens: seq<nat>, n: nat, prev: int, count: nat)
    requires LengthsOk(lens) && LastIs(before, prev) && n <= |lens|
    requires count > 0 ==> n < |lens| && count < MaxCount(prev, lens[n])
    ensures AllGood(Runs(lens, n, prev, count))
    ensures ReceiveAll(before, Runs(lens, n, prev, count)) == before + (if n < |lens| then Repeat(lens[n], count) else []) + lens[n..]
    decreases |lens| - n
  {
    hide RunItems, Receive;
    if n < |lens| {
      var cur, c := lens[n], count + 1;
      assert lens[n..] == [cur] + lens[n + 1..];
      RepeatMore(cur, count);
      if c < MaxCount(prev, cur) && cur == NextLen(lens, n + 1) {
        RunsReceived(before, lens, n + 1, prev, c);
        assert before + Repeat(cur, c) + lens[n + 1..] == before + Repeat(cur, count) + ([cur] + lens[n + 1..]);
      } else {
        var items := RunItems(cur, c, prev, MinCount(prev, cur));
        RunReceived(before, cur, c, prev);
        var after := before + Repeat(cur, c);
        assert after[|after| - 1] == cur;
        RunsReceived(after, lens, n + 1, cur, 0);
        ReceiveAppend(before, items, Runs(lens, n + 1, cur, 0));
        NoneLeft(after, lens, n + 1);
        assert after + lens[n + 1..] == before + Repeat(cur, count) + ([cur] + lens[n + 1..]);
      }
    } else {
      assert before + [] + lens[n..] == before;
    }
  }

  lemma NoneLeft(before: seq<nat>, lens: seq<nat>, n: nat)
    requires n <= |lens|
    ensures before + (if n < |lens| then Repeat(lens[n], 0) else []) + lens[n..] == before + lens[n..]
  {
  }

  /** The first item repeats nothing: a sequence does not reach back before itself. */
  lemma {:induction false} FirstIsNoRepeat(lens: seq<nat>, n: nat, count: nat)
    requires LengthsOk(lens) && n < |lens| && (count > 0 ==> count < MaxCount(-1, lens[n]))
    ensures Runs(lens, n, -1, count) != [] && Runs(lens, n, -1, count)[0].symbol != REP_3_6
    decreases |lens| - n
  {
    var cur, c := lens[n], count + 1;
    if c < MaxCount(-1, cur) && cur == NextLen(lens, n + 1) {
      FirstIsNoRepeat(lens, n + 1, c);
    }
  }

  /**
    Two sequences sent one after the other come back as their concatenation,
    with all repeat counts in range and no repeat across the border.
   */
  lemma RoundTrip(a: seq<nat>, b: seq<nat>)
    requires LengthsOk(a) && LengthsOk(b)
    ensures ReceiveAll([], Compressed(a) + Compressed(b)) == a + b
    ensures AllGood(Compressed(a) + Compressed(b))
    ensures a != [] ==> Compressed(a) != [] && Compressed(a)[0].symbol != REP_3_6
    ensures b != [] ==> Compressed(b) != [] && Compressed(b)[0].symbol != REP_3_6
  {
    hide Runs;
    RunsReceived([], a, 0, -1, 0);
    RunsReceived(a, b, 0, -1, 0);
    NoneLeft([], a, 0);
    NoneLeft(a, b, 0);
    assert [] + a[0..] == a && b[0..] == b;
    ReceiveAppend([], Compressed(a), Compressed(b));
    if a != [] { FirstIsNoRepeat(a, 0, 0); }
    if b != [] { FirstIsNoRepeat(b, 0, 0); }
  }

  // ----- scan_tree ------------------------------------------------------------------------------

  /** How often a symbol occurs. */
  function Occurs(items: seq<Item>, symbol: nat): nat {
    if items == [] then 0 else Occurs(items[..|items| - 1], symbol) + (if items[|items| - 1].symbol == symbol then 1 else 0)
  }

  lemma {:induction false} OccursAppend(a: seq<Item>, b: seq<Item>, symbol: nat)
    ensures Occurs(a + b, symbol) == Occurs(a, symbol) + Occurs(b, symbol)
    decreases |b|
  {
    if b == [] {
      assert a + b == a;
    } else {
      var k := |b| - 1;
      assert (a + b)[..|a| + k] == a + b[..k];
      OccursAppend(a, b[..k], symbol);
    }
  }

  lemma {:induction false} OccursSingles(x: nat, n: nat, symbol: nat)
    ensures Occurs(Singles(x, n), symbol) == if x == symbol then n else 0
    decreases n
  {
    if n > 0 {
      assert Singles(x, n)[..n - 1] == Singles(x, n - 1);
      OccursSingles(x, n - 1, symbol);
    }
  }

  lemma OccursOne(item: Item, symbol: nat)
    ensures Occurs([item], symbol) == if item.symbol == symbol then 1 else 0
  {
    assert [item][..0] == [];
  }

  /** freq holds the number of occurrences on top of what was there before. */
  ghost predicate Counted(freq: seq<nat>, before: seq<nat>, items: seq<Item>) {
    && |freq| == |before| >= 19
    && forall k :: 0 <= k < 19 ==> freq[k] == before[k] + Occurs(items, k)
  }

  lemma CountSingles(freq: seq<nat>, before: seq<nat>, items: seq<Item>, x: nat, n: nat)
    requires Counted(freq, before, items) && x < 19
    ensures Counted(freq[x := freq[x] + n], before, items + Singles(x, n))
  {
    forall k | 0 <= k < 19 ensures freq[x := freq[x] + n][k] == before[k] + Occurs(items + Singles(x, n), k) {
      OccursAppend(items, Singles(x, n), k);
      OccursSingles(x, n, k);
    }
  }

  lemma CountOne(freq: seq<nat>, before: seq<nat>, items: seq<Item>, item: Item)
    requires Counted(freq, before, items) && item.symbol < 19
    ensures Counted(freq[item.symbol := freq[item.symbol] + 1], before, items + [item])
  {
    var x := item.symbol;
    forall k | 0 <= k < 19 ensures freq[x := freq[x] + 1][k] == before[k] + Occurs(items + [item], k) {
      OccursAppend(items, [item], k);
      OccursOne(item, k);
    }
  }

  /** Where the loops of scan_tree and send_tree stand: what is done, and what is still to come. */
  ghost predicate Midway(lens: seq<nat>, n: nat, prev: int, count: nat, nextlen: nat, maxCount: nat, minCount: nat, done: seq<Item>) {
    && n <= |lens| && nextlen == NextLen(lens, n)
    && (n < |lens| ==> maxCount == MaxCount(prev, nextlen) && minCount == MinCount(prev, nextlen) && count < maxCount)
    && Compressed(lens) == done + Runs(lens, n, prev, count)
  }

  /** One turn: a run goes on, or it ends and is sent. */
  lemma MidwayStep(lens: seq<nat>, n: nat, prev: int, count: nat, cur: nat, maxCount: nat, minCount: nat, done: seq<Item>, next: nat)
    requires Midway(lens, n, prev, count, cur, maxCount, minCount, done) && n < |lens| && next == NextLen(lens, n + 1)
    ensures 1 <= minCount
    ensures count + 1 < maxCount && cur == next ==> Midway(lens, n + 1, prev, count + 1, next, maxCount, minCount, done)
    ensures !(count + 1 < maxCount && cur == next) ==>
              Midway(lens, n + 1, cur, 0, next, MaxCount(cur, next), MinCount(cur, next),
                     done + RunItems(cur, count + 1, prev, minCount))
  {
    var items := RunItems(cur, count + 1, prev, minCount);
    assert done + (items + Runs(lens, n + 1, cur, 0)) == (done + items) + Runs(lens, n + 1, cur, 0);
  }

  lemma MidwayEnd(lens: seq<nat>, prev: int, count: nat, nextlen: nat, maxCount: nat, minCount: nat, done: seq<Item>)
    requires Midway(lens, |lens|, prev, count, nextlen, maxCount, minCount, done)
    ensures Compressed(lens) == done
  {
    assert done + [] == done;
  }

  /** One run, counted as scan_tree does. */
  method ScanRun(freq: array<nat>, curlen: nat, count: nat, prevlen: int, minCount: nat, ghost before: seq<nat>, ghost items: seq<Item>)
    requires 1 <= minCount && curlen < 16 && Counted(freq[..], before, items)
    modifies freq
    ensures Counted(freq[..], before, items + RunItems(curlen, count, prevlen, minCount))
  {
    hide Counted;
    CountedSize(freq[..], before, items);
    ghost var f: seq<nat> := freq[..];
    if count < minCount {
      CountSingles(f, before, items, curlen, count);
      freq[curlen] := freq[curlen] + count;
      assert freq[..] == f[curlen := f[curlen] + count];
    } else if curlen != 0 {
      ghost var part := items;
      if curlen != prevlen {
        CountOne(f, before, items, Item(curlen, 1));
        freq[curlen] := freq[curlen] + 1;
        part := items + [Item(curlen, 1)];
        assert freq[..] == f[curlen := f[curlen] + 1];
      }
      ghost var item := Item(REP_3_6, if curlen != prevlen then count - 1 else count);
      ghost var g: seq<nat> := freq[..];
      CountOne(g, before, part, item);
      freq[REP_3_6] := freq[REP_3_6] + 1;
      assert freq[..] == g[REP_3_6 := g[REP_3_6] + 1];
      assert part + [item] == items + RunItems(curlen, count, prevlen, minCount);
    } else if count <= 10 {
      CountOne(f, before, items, Item(REPZ_3_10, count));
      freq[REPZ_3_10] := freq[REPZ_3_10] + 1;
      assert freq[..] == f[REPZ_3_10 := f[REPZ_3_10] + 1];
    } else {
      CountOne(f, before, items, Item(REPZ_11_138, count));
      freq[REPZ_11_138] := freq[REPZ_11_138] + 1;
      assert freq[..] == f[REPZ_11_138 := f[REPZ_11_138] + 1];
    }
  }

  lemma CountedSize(freq: seq<nat>, before: seq<nat>, items: seq<Item>)
    requires Counted(freq, before, items)
    ensures |freq| >= 19
  {
  }

  /** scan_tree: add to freq the number of times each symbol will be sent, and set the guard. */
  method ScanTree(dl: array<nat>, maxCode: nat, freq: array<nat>)
    requires dl != freq && maxCode + 1 < dl.Length && freq.Length >= 19 && LengthsOk(dl[..maxCode + 1])
    modifies dl, freq
    ensures dl[..] == old(dl[..])[maxCode + 1 := GUARD]
    ensures Counted(freq[..], old(freq[..]), Compressed(old(dl[..maxCode + 1])))
  {
    hide Counted, Midway, RunItems, Runs;
    ghost var lens, before := dl[..maxCode + 1], freq[..];
    var prevlen: int, nextlen: nat, count: nat := -1, dl[0], 0;
    var maxCount: nat, minCount: nat := 7, 4;
    if nextlen == 0 { maxCount, minCount := 138, 3; }
    dl[maxCode + 1] := GUARD;
    ghost var items: seq<Item> := [];
    StartScan(lens, before);
    var n: nat := 0;
    while n <= maxCode
      invariant 0 <= n <= maxCode + 1 && dl[..] == old(dl[..])[maxCode + 1 := GUARD]
      invariant Midway(lens, n, prevlen, count, nextlen, maxCount, minCount, items)
      invariant Counted(freq[..], before, items)
    {
      assert dl[n + 1] == NextLen(lens, n + 1);
      MidwayStep(lens, n, prevlen, count, nextlen, maxCount, minCount, items, dl[n + 1]);
      MidwayLen(lens, n, prevlen, count, nextlen, maxCount, minCount, items);
      var curlen := nextlen;
      nextlen := dl[n + 1];
      count := count + 1;
      if !(count < maxCount && curlen == nextlen) {
        ScanRun(freq, curlen, count, prevlen, minCount, before, items);
        items := items + RunItems(curlen, count, prevlen, minCount);
        count, prevlen := 0, curlen;
        maxCount, minCount := Limits(curlen, nextlen);
      }
      n := n + 1;
    }
    MidwayEnd(lens, prevlen, count, nextlen, maxCount, minCount, items);
  }

  /** The limits for the next run. */
  method Limits(curlen: nat, nextlen: nat) returns (maxCount: nat, minCount: nat)
    ensures maxCount == MaxCount(curlen, nextlen) && minCount == MinCount(curlen, nextlen)
  {
    if nextlen == 0 { return 138, 3; }
    if curlen == nextlen { return 6, 3; }
    return 7, 4;
  }

  lemma StartScan(lens: seq<nat>, before: seq<nat>)
    requires lens != [] && |before| >= 19
    ensures Midway(lens, 0, -1, 0, lens[0], MaxCount(-1, lens[0]), MinCount(-1, lens[0]), [])
    ensures Counted(before, before, [])
  {
    assert [] + Runs(lens, 0, -1, 0) == Compressed(lens);
  }

  lemma MidwayLen(lens: seq<nat>, n: nat, prev: int, count: nat, nextlen: nat, maxCount: nat, minCount: nat, done: seq<Item>)
    requires Midway(lens, n, prev, count, nextlen, maxCount, minCount, done) && n < |lens| && LengthsOk(lens)
    ensures nextlen < 16 && count + 1 <= MaxCount(prev, nextlen) && minCount == MinCount(prev, nextlen)
  {
  }
}
