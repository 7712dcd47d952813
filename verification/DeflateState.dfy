/**
  What the compressor of deps/zlib/deflate.c keeps while it reads, inserts,
  slides and matches, as facts about the contents of its buffers.
 */
module DeflateState {
  import opened Bits
  import opened HashChains
  import opened Lz77
  import opened LongestMatch

  const WORD: nat := 0x1_0000_0000

  function Min(a: nat, b: nat): nat {
    if a > b then b else a
  }

  /** Subtraction of 32-bit unsigned numbers. */
  function Sub32(a: nat, b: nat): (r: nat)
    requires a < WORD && b < WORD
    ensures r < WORD
  {
    if b <= a then a - b else a + WORD - b
  }

  /** A slide moves both ends of a match and keeps their distance, even when match_start wraps. */
  lemma SlideKeepsDistance(strstart: nat, matchStart: nat, wsize: nat)
    requires wsize <= strstart < WORD && matchStart < WORD
    ensures Sub32(strstart - wsize, Sub32(matchStart, wsize)) == Sub32(strstart, matchStart)
  {
  }

  /**
    The window holds input up to `end`, the dictionary knows strings before pos,
    and the running hash is ready for the string at pos if that is complete.
   */
  ghost predicate Core(cfg: Config, w: seq<nat>, head: seq<nat>, prev: seq<nat>, insH: nat,
                       input: seq<nat>, base: nat, ins: set<nat>, pos: nat, end: nat, now: nat) {
    && Dict(cfg, head, prev, input, base, ins, now) && Below(ins, base + pos)
    && |w| == 2 * cfg.wsize && WindowOk(w, input, base, end) && Bytes(input)
    && (pos + 3 <= end ==> Primed(cfg, insH, w[pos], w[pos + 1]))
  }

  /** INSERT_STRING for the string at pos. */
  lemma CoreInsert(cfg: Config, w: seq<nat>, head: seq<nat>, prev: seq<nat>, insH: nat,
                   input: seq<nat>, base: nat, ins: set<nat>, pos: nat, end: nat, now: nat,
                   h: nat, head1: seq<nat>, prev1: seq<nat>)
    requires Core(cfg, w, head, prev, insH, input, base, ins, pos, end, now) && pos + 3 <= end && base + pos <= now
    requires h == Update(cfg, insH, w[pos + 2]) && h < |head|
    requires head1 == head[h := pos] && prev1 == prev[pos % cfg.wsize := head[h]]
    ensures Core(cfg, w, head1, prev1, h, input, base, ins + {base + pos}, pos + 1, end, now)
    ensures head[h] == 0 || (head[h] < pos && OnChain(cfg, input, base, ins + {base + pos}, head[h], HashAt(cfg, input, base + pos)))
    ensures NoneBetween(cfg, input, base, ins + {base + pos}, HashAt(cfg, input, base + pos), base + head[h], base + pos)
  {
    hide Dict, Primed, Update, Hash3, NoneBetween;
    DictOk(cfg, head, prev, input, base, ins, now);
    assert w[pos] == input[base + pos] && w[pos + 1] == input[base + pos + 1] && w[pos + 2] == input[base + pos + 2];
    PrimedStep(cfg, insH, w[pos], w[pos + 1], w[pos + 2]);
    InsertKeeps(cfg, head, prev, input, base, ins, now, base + pos, h, head1, prev1);
    HeadIs(cfg, head, prev, input, base, ins, now, h);
    NoneShorter(cfg, input, base, ins, h, base + head[h], |input|, base + pos);
    InsertNone(cfg, input, base, ins, base + pos, h, base + head[h], base + pos);
  }

  lemma HeadIs(cfg: Config, head: seq<nat>, prev: seq<nat>, input: seq<nat>, base: nat, ins: set<nat>, now: nat, h: nat)
    requires Dict(cfg, head, prev, input, base, ins, now) && h < |head|
    ensures HeadOk(cfg, head, input, base, ins, h) && NoneBetween(cfg, input, base, ins, h, base + head[h], |input|)
  {
  }

  /** Hash values and offsets stay inside the tables. */
  lemma CoreSizes(cfg: Config, w: seq<nat>, head: seq<nat>, prev: seq<nat>, insH: nat,
                 input: seq<nat>, base: nat, ins: set<nat>, pos: nat, end: nat, now: nat)
    requires Core(cfg, w, head, prev, insH, input, base, ins, pos, end, now)
    ensures forall h: nat, c: nat :: Update(cfg, h, c) < |head|
    ensures |prev| == cfg.wsize > 0 && |w| == 2 * cfg.wsize && end <= |w| && cfg.Ok()
  {
    forall h: nat, c: nat ensures Update(cfg, h, c) < |head| { UpdateBound(cfg, h, c); }
  }

  lemma CoreKnown(cfg: Config, w: seq<nat>, head: seq<nat>, prev: seq<nat>, insH: nat,
                  input: seq<nat>, base: nat, ins: set<nat>, pos: nat, end: nat, now: nat)
    requires Core(cfg, w, head, prev, insH, input, base, ins, pos, end, now)
    ensures forall q :: q in ins ==> q + 3 <= |input|
    ensures |input| == base + end
  {
  }

  /** Where no complete string starts nothing is inserted. */
  lemma CoreSkip(cfg: Config, w: seq<nat>, head: seq<nat>, prev: seq<nat>, insH: nat,
                 input: seq<nat>, base: nat, ins: set<nat>, pos: nat, end: nat, now: nat)
    requires Core(cfg, w, head, prev, insH, input, base, ins, pos, end, now) && pos + 3 > end
    ensures Core(cfg, w, head, prev, insH, input, base, ins, pos + 1, end, now)
  {
    hide Dict, Primed;
  }

  lemma CoreLater(cfg: Config, w: seq<nat>, head: seq<nat>, prev: seq<nat>, insH: nat,
                  input: seq<nat>, base: nat, ins: set<nat>, pos: nat, end: nat, now: nat, later: nat)
    requires Core(cfg, w, head, prev, insH, input, base, ins, pos, end, now) && now <= later
    ensures Core(cfg, w, head, prev, insH, input, base, ins, pos, end, later)
  {
    hide Primed;
    LaterKeeps(cfg, head, prev, input, base, ins, now, later);
  }

  /** The hash starts afresh at a later position. */
  lemma CoreJump(cfg: Config, w: seq<nat>, head: seq<nat>, prev: seq<nat>, insH: nat,
                 input: seq<nat>, base: nat, ins: set<nat>, pos: nat, end: nat, now: nat, later: nat)
    requires Core(cfg, w, head, prev, insH, input, base, ins, pos, end, now) && pos <= later && later + 1 < |w|
    ensures Core(cfg, w, head, prev, Update(cfg, w[later], w[later + 1]), input, base, ins, later, end, now)
  {
    hide Dict, Primed, Update;
    DictOk(cfg, head, prev, input, base, ins, now);
    if later + 3 <= end {
      assert w[later] == input[base + later];
      PrimedStart(cfg, w[later], w[later + 1]);
    }
  }

  /** The hash starts afresh at the first string left over. */
  lemma CoreFresh(cfg: Config, w: seq<nat>, head: seq<nat>, prev: seq<nat>, input: seq<nat>, base: nat, ins: set<nat>,
                  pos: nat, end: nat, now: nat)
    requires Dict(cfg, head, prev, input, base, ins, now) && Below(ins, base + pos)
    requires |w| == 2 * cfg.wsize && WindowOk(w, input, base, end) && Bytes(input) && pos + 3 <= end
    ensures Core(cfg, w, head, prev, Update(cfg, w[pos], w[pos + 1]), input, base, ins, pos, end, now)
  {
    hide Dict, Primed, Update;
    DictOk(cfg, head, prev, input, base, ins, now);
    assert w[pos] == input[base + pos];
    PrimedStart(cfg, w[pos], w[pos + 1]);
  }

  /** With no complete string the hash does not matter. */
  lemma CoreShort(cfg: Config, w: seq<nat>, head: seq<nat>, prev: seq<nat>, insH: nat, input: seq<nat>, base: nat, ins: set<nat>,
                  pos: nat, end: nat, now: nat)
    requires Dict(cfg, head, prev, input, base, ins, now) && Below(ins, base + pos)
    requires |w| == 2 * cfg.wsize && WindowOk(w, input, base, end) && Bytes(input) && pos + 3 > end
    ensures Core(cfg, w, head, prev, insH, input, base, ins, pos, end, now)
  {
  }

  lemma LeftIsKnown(cfg: Config, w: seq<nat>, head: seq<nat>, prev: seq<nat>, insH: nat, input: seq<nat>, base: nat, ins: set<nat>,
                    str: nat, end: nat, now: nat, pos: nat)
    requires Core(cfg, w, head, prev, insH, input, base, ins, str, end, now) && str <= pos && (str == pos || str + 3 > end)
    ensures Core(cfg, w, head, prev, insH, input, base, ins, pos, end, now) && Below(ins, base + str)
  {
    hide Dict, Primed;
  }

  lemma CoreBelow(cfg: Config, w: seq<nat>, head: seq<nat>, prev: seq<nat>, insH: nat, input: seq<nat>, base: nat, ins: set<nat>,
                  pos: nat, end: nat, now: nat)
    requires Core(cfg, w, head, prev, insH, input, base, ins, pos, end, now)
    ensures Below(ins, base + pos)
  {
  }

  lemma CoreSearch(cfg: Config, w: seq<nat>, head: seq<nat>, prev: seq<nat>, insH: nat, input: seq<nat>, base: nat, ins: set<nat>,
                   strstart: nat, lookahead: nat)
    requires Core(cfg, w, head, prev, insH, input, base, ins, strstart + 1, strstart + lookahead, base + strstart)
    requires 3 <= lookahead && strstart + MIN_LOOKAHEAD <= |w|
    ensures Searchable(cfg, w, head, prev, input, base, ins, strstart, lookahead)
  {
    hide Dict, Primed;
  }

  lemma CurrentByte(cfg: Config, w: seq<nat>, head: seq<nat>, prev: seq<nat>, insH: nat, input: seq<nat>, base: nat, ins: set<nat>,
                    pos: nat, end: nat, now: nat, i: nat)
    requires Core(cfg, w, head, prev, insH, input, base, ins, pos, end, now) && i < end
    ensures |input| == base + end && w[i] == input[base + i] < 256
  {
    hide Dict, Primed;
  }

  lemma MatchRange(cfg: Config, input: seq<nat>, n: nat, d: nat, length: nat)
    requires IsMatch(cfg, input, n, d, length)
    ensures 1 <= d <= n && MIN_MATCH <= length <= MAX_MATCH && n + length <= |input|
  {
  }

  /** At the end of the input the last two positions start no complete string. */
  lemma CoreEnd(cfg: Config, w: seq<nat>, head: seq<nat>, prev: seq<nat>, insH: nat, input: seq<nat>, base: nat, ins: set<nat>,
                pos: nat, end: nat, now: nat)
    requires Core(cfg, w, head, prev, insH, input, base, ins, pos, end, now)
    ensures Below(ins, base + end - 2)
  {
  }

  /** New bytes at the end of the window. */
  lemma CoreRead(cfg: Config, w: seq<nat>, head: seq<nat>, prev: seq<nat>, insH: nat,
                 input: seq<nat>, base: nat, ins: set<nat>, pos: nat, end: nat, now: nat, more: seq<nat>, w1: seq<nat>)
    requires Core(cfg, w, head, prev, insH, input, base, ins, pos, end, now) && Bytes(more)
    requires |w1| == |w| && end + |more| <= |w|
    requires forall i :: 0 <= i < end ==> w1[i] == w[i]
    requires forall i :: 0 <= i < |more| ==> w1[end + i] == more[i]
    ensures Dict(cfg, head, prev, input + more, base, ins, now) && WindowOk(w1, input + more, base, end + |more|)
    ensures Bytes(input + more) && Below(ins, base + pos)
  {
    hide Dict, Primed;
    MoreKeeps(cfg, head, prev, input, base, ins, now, more);
    var all := input + more;
    forall i | 0 <= i < end + |more| ensures w1[i] == all[base + i] {
      if i >= end { assert w1[end + (i - end)] == more[i - end]; }
    }
  }

  /** Moving the upper half of the window to the lower half. */
  lemma CoreSlide(cfg: Config, w: seq<nat>, head: seq<nat>, prev: seq<nat>, insH: nat,
                  input: seq<nat>, base: nat, ins: set<nat>, pos: nat, end: nat, now: nat,
                  w1: seq<nat>, head1: seq<nat>, prev1: seq<nat>)
    requires Core(cfg, w, head, prev, insH, input, base, ins, pos, end, now) && cfg.wsize <= pos <= end
    requires |w1| == |w| && forall i :: 0 <= i < end - cfg.wsize ==> w1[i] == w[cfg.wsize + i]
    requires |head1| == |head| && forall i :: 0 <= i < |head| ==> head1[i] == Slid(head[i], cfg.wsize)
    requires |prev1| == |prev| && forall i :: 0 <= i < |prev| ==> prev1[i] == Slid(prev[i], cfg.wsize)
    ensures Core(cfg, w1, head1, prev1, insH, input, base + cfg.wsize, ins, pos - cfg.wsize, end - cfg.wsize, now)
  {
    hide Dict, Primed;
    SlideKeeps(cfg, head, prev, input, base, ins, now, head1, prev1);
    var base1, end1, p := base + cfg.wsize, end - cfg.wsize, pos - cfg.wsize;
    forall i | 0 <= i < end1 ensures w1[i] == input[base1 + i] { assert w[cfg.wsize + i] == input[base + (cfg.wsize + i)]; }
    if pos + 3 <= end { assert w1[p] == w[pos] && w1[p + 1] == w[pos + 1]; }
  }

  /** No dictionary: a new window may start at the end of the input. */
  lemma CoreClear(cfg: Config, w: seq<nat>, head: seq<nat>, prev: seq<nat>, insH: nat,
                  input: seq<nat>, base: nat, ins: set<nat>, pos: nat, end: nat, now: nat, head1: seq<nat>)
    requires Core(cfg, w, head, prev, insH, input, base, ins, pos, end, now)
    requires |head1| == |head| && forall h :: 0 <= h < |head1| ==> head1[h] == 0
    ensures Core(cfg, w, head1, prev, insH, input, base, {}, pos, end, now)
    ensures Core(cfg, w, head1, prev, insH, input, |input|, {}, 0, 0, |input|)
  {
    hide Primed;
    ClearKeeps(cfg, head1, prev, input, base, now);
    ClearKeeps(cfg, head1, prev, input, |input|, |input|);
  }

  // ----- tokens ------------------------------------------------------------------------------

  /** Lengths and distances that the format can express and the decoder's window covers. */
  predicate GoodToken(cfg: Config, token: Token) {
    match token
    case Literal(byte) => byte < 256
    case Copy(distance, length) => 1 <= distance <= cfg.wsize - MIN_LOOKAHEAD && MIN_MATCH <= length <= MAX_MATCH
  }

  /** The tokens stand for the first n bytes of the input. */
  ghost predicate Told(cfg: Config, tokens: seq<Token>, input: seq<nat>, n: nat) {
    && n <= |input| && Expand(tokens) == input[..n] && InReach(tokens, cfg.wsize)
    && forall i :: 0 <= i < |tokens| ==> GoodToken(cfg, tokens[i])
  }

  lemma ToldLiteral(cfg: Config, tokens: seq<Token>, input: seq<nat>, n: nat)
    requires Told(cfg, tokens, input, n) && n < |input| && input[n] < 256
    ensures Told(cfg, tokens + [Literal(input[n])], input, n + 1)
  {
    ExpandMore(tokens, Literal(input[n]));
    InReachMore(tokens, cfg.wsize, Literal(input[n]));
    assert input[..n] + [input[n]] == input[..n + 1];
  }

  /** A match of the input with itself at distance d. */
  ghost predicate IsMatch(cfg: Config, input: seq<nat>, n: nat, d: nat, length: nat) {
    && 1 <= d <= cfg.wsize - MIN_LOOKAHEAD && MIN_MATCH <= length <= MAX_MATCH
    && d <= n && Agree(input, n - d, n, length)
  }

  lemma ToldCopy(cfg: Config, tokens: seq<Token>, input: seq<nat>, n: nat, d: nat, length: nat)
    requires Told(cfg, tokens, input, n) && IsMatch(cfg, input, n, d, length)
    ensures Told(cfg, tokens + [Copy(d, length)], input, n + length)
  {
    ExpandMore(tokens, Copy(d, length));
    InReachMore(tokens, cfg.wsize, Copy(d, length));
    CopyIsMatch(input, n, d, length);
  }

  lemma ToldMore(cfg: Config, tokens: seq<Token>, input: seq<nat>, n: nat, more: seq<nat>)
    requires Told(cfg, tokens, input, n)
    ensures Told(cfg, tokens, input + more, n)
  {
    assert (input + more)[..n] == input[..n];
  }

  lemma MatchMore(cfg: Config, input: seq<nat>, n: nat, d: nat, length: nat, more: seq<nat>)
    requires IsMatch(cfg, input, n, d, length)
    ensures IsMatch(cfg, input + more, n, d, length)
  {
    var all, p := input + more, n - d;
    forall k | 0 <= k < length ensures EqualAt(all, p, n, k) { assert EqualAt(input, p, n, k); }
  }
}
