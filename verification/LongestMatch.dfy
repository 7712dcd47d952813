/** longest_match of deps/zlib/deflate.c: the walk along a hash chain for the longest string. */
module LongestMatch {
  import opened Bits
  import opened HashChains
  import opened Lz77

  /** The window holds the end of the input: n bytes from the absolute position base on. */
  ghost predicate WindowOk(w: seq<nat>, input: seq<nat>, base: nat, n: nat) {
    && n <= |w| && base + n == |input|
    && forall i :: 0 <= i < n ==> w[i] == input[base + i]
  }

  /** The strings at p and q agree for exactly n bytes, or for at least MAX_MATCH. */
  ghost predicate Extent(w: seq<nat>, p: nat, q: nat, n: nat) {
    && n <= MAX_MATCH && Agree(w, p, q, n)
    && (n < MAX_MATCH ==> p + n < |w| && q + n < |w| && !EqualAt(w, p, q, n))
  }

  /** The strings at p and q do not agree for more than n bytes (of MAX_MATCH). */
  ghost predicate NoLonger(w: seq<nat>, p: nat, q: nat, n: nat) {
    n >= MAX_MATCH || exists k :: 0 <= k <= n && p + k < |w| && q + k < |w| && !EqualAt(w, p, q, k)
  }

  /** The unrolled comparison, which starts after the third byte and looks at the end every eight bytes only. */
  method MatchLength(window: array<nat>, scan: nat, match_: nat) returns (len: nat)
    requires match_ < scan && scan + MAX_MATCH < window.Length
    requires Agree(window[..], match_, scan, 3)
    ensures 3 <= len && Extent(window[..], match_, scan, len)
  {
    ghost var w := window[..];
    len := 2;
    var going := true;
    while going
      invariant 2 <= len <= MAX_MATCH && (going ==> (len + 6) % 8 == 0)
      invariant !going ==> 3 <= len && Extent(w, match_, scan, len)
      invariant going ==> len < MAX_MATCH && Agree(w, match_, scan, len + 1)
      decreases MAX_MATCH - len, going
    {
      var i := 0;
      ghost var start := len;
      while i < 8 && going
        invariant 0 <= i <= 8 && len == start + i && len <= MAX_MATCH
        invariant Agree(w, match_, scan, len)
        invariant going ==> EqualAt(w, match_, scan, len)
        invariant !going ==> len > start && !EqualAt(w, match_, scan, len)
      {
        AgreeMore(w, match_, scan, len);
        len := len + 1;
        going := window[scan + len] == window[match_ + len];
        i := i + 1;
      }
      if going { AgreeMore(w, match_, scan, len); }
      going := going && len < MAX_MATCH;
    }
  }

  lemma AgreeMore(w: seq<nat>, p: nat, q: nat, n: nat)
    requires Agree(w, p, q, n) && p + n < |w| && q + n < |w| && EqualAt(w, p, q, n)
    ensures Agree(w, p, q, n + 1)
  {
  }

  /** What longest_match is given about the dictionary and the current string. */
  ghost predicate Searchable(cfg: Config, w: seq<nat>, head: seq<nat>, prev: seq<nat>, input: seq<nat>, base: nat, ins: set<nat>,
                             strstart: nat, lookahead: nat) {
    && Dict(cfg, head, prev, input, base, ins, base + strstart) && Bytes(input)
    && |w| == 2 * cfg.wsize && WindowOk(w, input, base, strstart + lookahead)
    && 3 <= lookahead && strstart + MIN_LOOKAHEAD <= |w|
  }

  /** A candidate: an earlier string with the hash of the current one. */
  ghost predicate Candidate(cfg: Config, input: seq<nat>, base: nat, ins: set<nat>, strstart: nat, cur: nat) {
    && 0 < cur < strstart && OnChain(cfg, input, base, ins, cur, HashAt(cfg, input, base + strstart))
    && strstart - cur <= cfg.wsize - MIN_LOOKAHEAD
  }

  /** It is not necessary to compare the third byte. */
  lemma SkipThird(cfg: Config, w: seq<nat>, head: seq<nat>, prev: seq<nat>, input: seq<nat>, base: nat, ins: set<nat>,
                  strstart: nat, lookahead: nat, cur: nat)
    requires Searchable(cfg, w, head, prev, input, base, ins, strstart, lookahead)
    requires Candidate(cfg, input, base, ins, strstart, cur)
    requires w[cur] == w[strstart] && w[cur + 1] == w[strstart + 1]
    ensures Agree(w, cur, strstart, 3)
  {
    hide Hash3, Dict;
    var s := base + strstart;
    InsertedFits(cfg, head, prev, input, base, ins, s, base + cur);
    assert w[cur + 2] == input[base + cur + 2] && w[strstart + 2] == input[s + 2];
    assert w[cur] == input[base + cur] && w[cur + 1] == input[base + cur + 1];
    assert w[strstart] == input[s] && w[strstart + 1] == input[s + 1];
    DictOk(cfg, head, prev, input, base, ins, s);
    ThirdByte(cfg, input[s], input[s + 1], input[base + cur + 2], input[s + 2]);
  }

  lemma DictOk(cfg: Config, head: seq<nat>, prev: seq<nat>, input: seq<nat>, base: nat, ins: set<nat>, now: nat)
    requires Dict(cfg, head, prev, input, base, ins, now)
    ensures cfg.Ok() && |head| == cfg.HashSize() && |prev| == cfg.wsize
  {
  }

  lemma InsertedFits(cfg: Config, head: seq<nat>, prev: seq<nat>, input: seq<nat>, base: nat, ins: set<nat>, now: nat, p: nat)
    requires Dict(cfg, head, prev, input, base, ins, now) && p in ins
    ensures p + 3 <= |input|
  {
  }

  /** The next string of the chain is a candidate again if it is not beyond the limit. */
  lemma NextCandidate(cfg: Config, w: seq<nat>, head: seq<nat>, prev: seq<nat>, input: seq<nat>, base: nat, ins: set<nat>,
                      strstart: nat, lookahead: nat, cur: nat, limit: nat)
    requires Searchable(cfg, w, head, prev, input, base, ins, strstart, lookahead)
    requires Candidate(cfg, input, base, ins, strstart, cur)
    requires limit == if strstart > cfg.wsize - MIN_LOOKAHEAD then strstart - (cfg.wsize - MIN_LOOKAHEAD) else 0
    ensures |prev| == cfg.wsize > 0
    ensures prev[cur % cfg.wsize] > limit ==>
              prev[cur % cfg.wsize] < cur && Candidate(cfg, input, base, ins, strstart, prev[cur % cfg.wsize])
  {
    hide Dict, HashAt;
    DictOk(cfg, head, prev, input, base, ins, base + strstart);
    WalkOn(cfg, head, prev, input, base, ins, base + strstart, cur, HashAt(cfg, input, base + strstart));
  }

  /** The positions visited: along the chain, none beyond the limit but the first. */
  ghost predicate Walk(prev: seq<nat>, wsize: nat, limit: nat, visited: seq<nat>) {
    && 0 < wsize == |prev| && |visited| > 0
    && forall i :: 1 <= i < |visited| ==> StepOf(prev, wsize, limit, visited, i)
  }

  ghost predicate StepOf(prev: seq<nat>, wsize: nat, limit: nat, visited: seq<nat>, i: nat)
    requires 0 < wsize == |prev| && 1 <= i < |visited|
  {
    visited[i] == prev[visited[i - 1] % wsize] && visited[i] > limit
  }

  ghost predicate NoneLonger(w: seq<nat>, visited: seq<nat>, strstart: nat, best: nat) {
    forall i :: 0 <= i < |visited| ==> NoLonger(w, visited[i], strstart, best)
  }

  lemma NoneLongerMore(w: seq<nat>, visited: seq<nat>, strstart: nat, best: nat, cur: nat, best1: nat)
    requires NoneLonger(w, visited, strstart, best) && best <= best1 && NoLonger(w, cur, strstart, best1)
    ensures NoneLonger(w, visited + [cur], strstart, best1)
  {
    var more := visited + [cur];
    forall i | 0 <= i < |more| ensures NoLonger(w, more[i], strstart, best1) {
      if i < |visited| { assert NoLonger(w, visited[i], strstart, best); }
    }
  }

  lemma ExtentLimits(w: seq<nat>, p: nat, q: nat, n: nat, best: nat)
    requires Extent(w, p, q, n) && n <= best
    ensures NoLonger(w, p, q, best)
  {
  }

  /** A match in the window is one in the input as far as there is input. */
  lemma MatchInInput(cfg: Config, w: seq<nat>, input: seq<nat>, base: nat, strstart: nat, lookahead: nat, start: nat, best: nat, n: nat)
    requires WindowOk(w, input, base, strstart + lookahead) && start < strstart && Agree(w, start, strstart, best)
    requires n <= best && n <= lookahead
    ensures Agree(input, base + start, base + strstart, n)
  {
    var p, q := base + start, base + strstart;
    forall k | 0 <= k < n ensures EqualAt(input, p, q, k) {
      assert EqualAt(w, start, strstart, k);
      assert w[start + k] == input[base + (start + k)] && w[strstart + k] == input[base + (strstart + k)];
    }
  }

  /** The parameters of a compression level. */
  datatype Tuning = Tuning(good: nat, lazy: nat, nice: nat, chain: nat) {
    predicate Ok() {
      4 <= chain && nice <= MAX_MATCH && 3 <= lazy <= MAX_MATCH
    }
  }

  /**
    longest_match: the longest of the strings visited, if it is longer than
    prevLength.  `start` is the new match_start; without a longer match it
    stays as it was, whatever that is.
   */
  method LongestMatch(cfg: Config, tuning: Tuning, window: array<nat>, prev: array<nat>, strstart: nat, lookahead: nat,
                      prevLength: nat, oldStart: nat, curMatch: nat,
                      ghost head: seq<nat>, ghost input: seq<nat>, ghost base: nat, ghost ins: set<nat>)
    returns (length: nat, start: nat, ghost best: nat, ghost visited: seq<nat>)
    requires tuning.Ok() && 1 <= prevLength < MAX_MATCH
    requires Searchable(cfg, window[..], head, prev[..], input, base, ins, strstart, lookahead)
    requires Candidate(cfg, input, base, ins, strstart, curMatch)
    ensures length == if best <= lookahead then best else lookahead
    ensures best == prevLength ==> start == oldStart
    ensures best >= prevLength && (best > prevLength ==> start in visited && Extent(window[..], start, strstart, best))
    ensures best > prevLength ==>
              && start < strstart && strstart - start <= cfg.wsize - MIN_LOOKAHEAD
              && Agree(input, base + start, base + strstart, length)
    ensures 0 < |visited| <= (if prevLength >= tuning.good then tuning.chain / 4 else tuning.chain)
    ensures visited[0] == curMatch && NoneLonger(window[..], visited, strstart, best)
    ensures var limit := if strstart > cfg.wsize - MIN_LOOKAHEAD then strstart - (cfg.wsize - MIN_LOOKAHEAD) else 0;
            && Walk(prev[..], cfg.wsize, limit, visited)
            && (|| best >= tuning.nice || best >= lookahead
                || prev[visited[|visited| - 1] % cfg.wsize] <= limit
                || |visited| == (if prevLength >= tuning.good then tuning.chain / 4 else tuning.chain))
  {
    hide Searchable, Candidate, NoneLonger, Extent, NoLonger, Walk, Agree;
    ghost var w := window[..];
    SearchSizes(cfg, w, head, prev[..], input, base, ins, strstart, lookahead);
    var chain := if prevLength >= tuning.good then tuning.chain / 4 else tuning.chain;
    var nice := if tuning.nice > lookahead then lookahead else tuning.nice;
    var limit := if strstart > cfg.wsize - MIN_LOOKAHEAD then strstart - (cfg.wsize - MIN_LOOKAHEAD) else 0;
    var bestLen: nat, cur: nat := prevLength, curMatch;
    start := oldStart;
    visited := [];
    NothingVisited(w, prev[..], cfg.wsize, limit, cur, strstart, bestLen);
    var going := true;
    ghost var left := chain;
    while going
      invariant prevLength <= bestLen < MAX_MATCH || (!going && prevLength <= bestLen <= MAX_MATCH)
      invariant Searchable(cfg, w, head, prev[..], input, base, ins, strstart, lookahead)
      invariant going ==> Candidate(cfg, input, base, ins, strstart, cur) && Walk(prev[..], cfg.wsize, limit, visited + [cur])
      invariant going ==> 0 < chain == left - |visited|
      invariant |visited| <= left
      invariant bestLen == prevLength ==> start == oldStart
      invariant bestLen > prevLength ==> start in visited && Extent(w, start, strstart, bestLen)
      invariant bestLen > prevLength ==> Candidate(cfg, input, base, ins, strstart, start)
      invariant NoneLonger(w, visited, strstart, bestLen) && (visited + [cur])[0] == curMatch
      invariant !going ==> visited != [] && Walk(prev[..], cfg.wsize, limit, visited)
      invariant !going ==> bestLen >= nice || prev[visited[|visited| - 1] % cfg.wsize] <= limit || |visited| == left
      decreases cur, going
    {
      CandidateSizes(cfg, input, base, ins, strstart, cur);
      ghost var bestOld := bestLen;
      if window[cur + bestLen] == window[strstart + bestLen] && window[cur + bestLen - 1] == window[strstart + bestLen - 1]
         && window[cur] == window[strstart] && window[cur + 1] == window[strstart + 1] {
        SkipThird(cfg, w, head, prev[..], input, base, ins, strstart, lookahead, cur);
        var len := MatchLength(window, strstart, cur);
        if len > bestLen {
          start, bestLen := cur, len;
          going := len < nice;
        }
        ExtentLimits(w, cur, strstart, len, bestLen);
        ExtentBound(w, cur, strstart, len);
      } else {
        Differs(w, cur, strstart, bestLen);
      }
      NoneLongerMore(w, visited, strstart, bestOld, cur, bestLen);
      visited := visited + [cur];
      if going {
        NextCandidate(cfg, w, head, prev[..], input, base, ins, strstart, lookahead, cur, limit);
        cur := prev[cur % cfg.wsize];
        chain := chain - 1;
        going := cur > limit && chain != 0;
        WalkMore(prev[..], cfg.wsize, limit, visited, cur);
      }
    }
    length := if bestLen <= lookahead then bestLen else lookahead;
    best := bestLen;
    if best > prevLength {
      CandidateSizes(cfg, input, base, ins, strstart, start);
      Found(cfg, w, head, prev[..], input, base, ins, strstart, lookahead, start, best, length);
    }
  }

  lemma SearchSizes(cfg: Config, w: seq<nat>, head: seq<nat>, prev: seq<nat>, input: seq<nat>, base: nat, ins: set<nat>,
                    strstart: nat, lookahead: nat)
    requires Searchable(cfg, w, head, prev, input, base, ins, strstart, lookahead)
    ensures cfg.Ok() && |prev| == cfg.wsize && |w| == 2 * cfg.wsize && 3 <= lookahead && strstart + MIN_LOOKAHEAD <= |w|
  {
  }

  lemma CandidateSizes(cfg: Config, input: seq<nat>, base: nat, ins: set<nat>, strstart: nat, cur: nat)
    requires Candidate(cfg, input, base, ins, strstart, cur)
    ensures 0 < cur < strstart && strstart - cur <= cfg.wsize - MIN_LOOKAHEAD
  {
  }

  lemma NothingVisited(w: seq<nat>, prev: seq<nat>, wsize: nat, limit: nat, cur: nat, strstart: nat, best: nat)
    requires 0 < wsize == |prev|
    ensures NoneLonger(w, [], strstart, best) && Walk(prev, wsize, limit, [] + [cur])
  {
  }

  lemma WalkMore(prev: seq<nat>, wsize: nat, limit: nat, visited: seq<nat>, cur: nat)
    requires Walk(prev, wsize, limit, visited) && cur == prev[visited[|visited| - 1] % wsize]
    ensures cur > limit ==> Walk(prev, wsize, limit, visited + [cur])
  {
    if cur > limit {
      var more := visited + [cur];
      forall i | 1 <= i < |more| ensures StepOf(prev, wsize, limit, more, i) {
        if i < |visited| { assert StepOf(prev, wsize, limit, visited, i); }
      }
    }
  }

  lemma Differs(w: seq<nat>, cur: nat, strstart: nat, best: nat)
    requires 1 <= best && cur < strstart && strstart + best < |w| && strstart + 1 < |w|
    requires || w[cur + best] != w[strstart + best] || w[cur + best - 1] != w[strstart + best - 1]
             || w[cur] != w[strstart] || w[cur + 1] != w[strstart + 1]
    ensures NoLonger(w, cur, strstart, best)
  {
    assert EqualAt(w, cur, strstart, best) <==> w[cur + best] == w[strstart + best];
    assert EqualAt(w, cur, strstart, best - 1) <==> w[cur + best - 1] == w[strstart + best - 1];
    assert EqualAt(w, cur, strstart, 0) <==> w[cur] == w[strstart];
    assert EqualAt(w, cur, strstart, 1) <==> w[cur + 1] == w[strstart + 1];
  }

  lemma ExtentBound(w: seq<nat>, p: nat, q: nat, n: nat)
    requires Extent(w, p, q, n)
    ensures n <= MAX_MATCH && Agree(w, p, q, n)
  {
  }

  lemma Found(cfg: Config, w: seq<nat>, head: seq<nat>, prev: seq<nat>, input: seq<nat>, base: nat, ins: set<nat>,
              strstart: nat, lookahead: nat, start: nat, best: nat, n: nat)
    requires Searchable(cfg, w, head, prev, input, base, ins, strstart, lookahead)
    requires start < strstart && Extent(w, start, strstart, best) && n <= best && n <= lookahead
    ensures Agree(input, base + start, base + strstart, n)
  {
    MatchInInput(cfg, w, input, base, strstart, lookahead, start, best, n);
  }
}
