/**
  The dictionary of deps/zlib/deflate.c: hash chains over the strings of three
  bytes in the window.  `head` gives the latest position for a hash, `prev` the
  position before; positions are offsets into the window, zero stands for none.
  Behind them stand absolute positions in the stream: `base` is that of
  window[0], `ins` those of the strings that were inserted.
 */
module HashChains {
  import opened Bits

  const MIN_MATCH: nat := 3
  const MAX_MATCH: nat := 258
  const MIN_LOOKAHEAD: nat := 262     // MAX_MATCH + MIN_MATCH + 1

  /** What deflateInit2_ fixes: the sizes of window and hash table. */
  datatype Config = Config(wsize: nat, hashBits: nat, hashShift: nat) {
    /** wsize is 2^9 .. 2^15; memLevel 1..9 gives 8..16 bits of hash. */
    predicate Ok() {
      && 512 <= wsize <= 0x8000
      && 8 <= hashBits <= 16 && hashShift == (hashBits + MIN_MATCH - 1) / MIN_MATCH
    }

    function HashSize(): nat {
      Pow2(hashBits)
    }

    /** Distances are limited to this instead of wsize. */
    function MaxDist(): nat
      requires Ok()
    {
      wsize - MIN_LOOKAHEAD
    }
  }

  // ----- the running hash -----------------------------------------------------------------

  /** UPDATE_HASH */
  function Update(cfg: Config, h: nat, c: nat): nat {
    Low(Xor(Shl(h, cfg.hashShift), c), cfg.hashBits)
  }

  /** The hash of three bytes. */
  function Hash3(cfg: Config, a: nat, b: nat, c: nat): nat {
    Update(cfg, Update(cfg, Update(cfg, 0, a), b), c)
  }

  lemma UpdateBound(cfg: Config, h: nat, c: nat)
    ensures Update(cfg, h, c) < cfg.HashSize()
  {
    LowBound(Xor(Shl(h, cfg.hashShift), c), cfg.hashBits);
  }

  lemma {:induction false} ShlXor(a: nat, b: nat, n: nat)
    ensures Shl(Xor(a, b), n) == Xor(Shl(a, n), Shl(b, n))
  {
    if n > 0 {
      ShlXor(a, b, n - 1);
      var x, y := Shl(a, n - 1), Shl(b, n - 1);
      XorDouble(x, y);
    }
  }

  lemma XorDouble(x: nat, y: nat)
    ensures Xor(2 * x, 2 * y) == 2 * Xor(x, y)
  {
    XorStep(2 * x, 2 * y);
    assert (2 * x) / 2 == x && (2 * y) / 2 == y;
  }

  /** Bits above n do not show among the low n. */
  lemma {:induction false} LowAbove(hi: nat, k: nat, y: nat, n: nat)
    requires n <= k
    ensures Low(Shl(hi, k) + y, n) == Low(y, n)
    decreases n
  {
    if n > 0 {
      LowAbove(hi, k - 1, y / 2, n - 1);
      assert (Shl(hi, k) + y) / 2 == Shl(hi, k - 1) + y / 2;
    }
  }

  lemma LowShl(x: nat, s: nat, n: nat)
    ensures Low(Shl(Low(x, n), s), n) == Low(Shl(x, s), n)
  {
    hide Low, Shl, Shr;
    Split(x, n);
    ShlAdd(Shl(Shr(x, n), n), Low(x, n), s);
    ShlShl(Shr(x, n), n, s);
    LowAbove(Shr(x, n), n + s, Shl(Low(x, n), s), n);
  }

  /** A hash value with the bits above hashBits kept, shifted by s. */
  lemma UpdateWide(cfg: Config, h: nat, c: nat, s: nat)
    ensures Low(Shl(Update(cfg, h, c), s), cfg.hashBits)
         == Xor(Low(Shl(h, cfg.hashShift + s), cfg.hashBits), Low(Shl(c, s), cfg.hashBits))
  {
    hide Low, Shl, Xor;
    var x := Shl(h, cfg.hashShift);
    LowShl(Xor(x, c), s, cfg.hashBits);
    ShlXor(x, c, s);
    ShlShl(h, cfg.hashShift, s);
    XorParts(Shl(x, s), Shl(c, s), cfg.hashBits);
  }

  lemma UpdateParts(cfg: Config, h: nat, c: nat)
    ensures Update(cfg, h, c) == Xor(Low(Shl(h, cfg.hashShift), cfg.hashBits), Low(c, cfg.hashBits))
  {
    XorParts(Shl(h, cfg.hashShift), c, cfg.hashBits);
  }

  /** After three updates what was before is shifted out. */
  lemma ThreeUpdates(cfg: Config, g: nat, a: nat, b: nat, c: nat)
    requires cfg.Ok()
    ensures Update(cfg, Update(cfg, Update(cfg, g, a), b), c) == Hash3(cfg, a, b, c)
  {
    hide Low, Shl, Xor, Update;
    TwoUpdates(cfg, g, a, b);
    TwoUpdates(cfg, 0, a, b);
    UpdateParts(cfg, Update(cfg, Update(cfg, g, a), b), c);
    UpdateParts(cfg, Update(cfg, Update(cfg, 0, a), b), c);
  }

  lemma TwoUpdates(cfg: Config, g: nat, a: nat, b: nat)
    requires cfg.Ok()
    ensures Low(Shl(Update(cfg, Update(cfg, g, a), b), cfg.hashShift), cfg.hashBits)
         == Xor(Xor(0, Low(Shl(a, 2 * cfg.hashShift), cfg.hashBits)), Low(Shl(b, cfg.hashShift), cfg.hashBits))
  {
    hide Low, Shl, Xor, Update;
    var s := cfg.hashShift;
    UpdateWide(cfg, Update(cfg, g, a), b, s);
    UpdateWide(cfg, g, a, s + s);
    LowShlZero(g, s + (s + s), cfg.hashBits);
  }

  lemma {:induction false} LowShlZero(x: nat, s: nat, n: nat)
    requires n <= s
    ensures Low(Shl(x, s), n) == 0
    decreases n
  {
    if n > 0 { LowShlZero(x, s - 1, n - 1); }
  }

  /** Equal hashes and equal first two bytes make the third bytes equal. */
  lemma ThirdByte(cfg: Config, a: nat, b: nat, c: nat, d: nat)
    requires cfg.Ok() && c < 256 && d < 256 && Hash3(cfg, a, b, c) == Hash3(cfg, a, b, d)
    ensures c == d
  {
    hide Low, Shl, Xor, Update;
    var h := Update(cfg, Update(cfg, 0, a), b);
    var x := Low(Shl(h, cfg.hashShift), cfg.hashBits);
    UpdateParts(cfg, h, c);
    UpdateParts(cfg, h, d);
    Pow2Mono(8, cfg.hashBits);
    Pow2Bytes();
    LowSmall(c, cfg.hashBits);
    LowSmall(d, cfg.hashBits);
    XorComm(x, c);
    XorComm(x, d);
    XorCancel(c, x);
    XorCancel(d, x);
  }

  /** The hash is ready for the string that starts with a and b. */
  ghost predicate Primed(cfg: Config, h: nat, a: nat, b: nat) {
    forall c: nat :: c < 256 ==> Update(cfg, h, c) == Hash3(cfg, a, b, c)
  }

  lemma PrimedStart(cfg: Config, a: nat, b: nat)
    requires cfg.Ok() && a < 256
    ensures Primed(cfg, Update(cfg, a, b), a, b)
  {
    hide Low, Shl, Xor;
    assert Update(cfg, 0, a) == a by {
      ShlOne(cfg.hashShift);
      XorZero(a);
      Pow2Mono(8, cfg.hashBits);
      Pow2Bytes();
      LowSmall(a, cfg.hashBits);
    }
  }

  lemma PrimedStep(cfg: Config, h: nat, a: nat, b: nat, c: nat)
    requires cfg.Ok() && Primed(cfg, h, a, b) && c < 256
    ensures Update(cfg, h, c) == Hash3(cfg, a, b, c) && Primed(cfg, Update(cfg, h, c), b, c)
  {
    hide Update;
    forall d: nat | d < 256 ensures Update(cfg, Update(cfg, h, c), d) == Hash3(cfg, b, c, d) {
      ThreeUpdates(cfg, Update(cfg, 0, a), b, c, d);
    }
  }

  // ----- the dictionary ---------------------------------------------------------------------

  ghost predicate Bytes(s: seq<nat>) {
    forall i :: 0 <= i < |s| ==> s[i] < 256
  }

  /** The hash of the string at an absolute position. */
  function HashAt(cfg: Config, input: seq<nat>, p: nat): nat {
    if p + 3 <= |input| then Hash3(cfg, input[p], input[p + 1], input[p + 2]) else 0
  }

  /** The head of a chain is a string with that hash. */
  ghost predicate HeadOk(cfg: Config, head: seq<nat>, input: seq<nat>, base: nat, ins: set<nat>, h: nat)
    requires h < |head|
  {
    head[h] == 0 || (base + head[h] in ins && HashAt(cfg, input, base + head[h]) == h)
  }

  /** The string before p in its chain is earlier and has the same hash. */
  ghost predicate LinkOk(cfg: Config, prev: seq<nat>, input: seq<nat>, base: nat, ins: set<nat>, p: nat)
    requires 0 < cfg.wsize == |prev| && base <= p
  {
    var v := prev[(p - base) % cfg.wsize];
    v == 0 || (v < p - base && base + v in ins && HashAt(cfg, input, base + v) == HashAt(cfg, input, p))
  }

  /**
    Chains lead from strings to earlier strings with the same hash.  A link is
    kept as long as its string is less than wsize before `now`.
   */
  ghost predicate Chains(cfg: Config, head: seq<nat>, prev: seq<nat>, input: seq<nat>, base: nat, ins: set<nat>, now: nat) {
    && cfg.Ok() && |head| == cfg.HashSize() && |prev| == cfg.wsize
    && (forall h :: 0 <= h < |head| ==> HeadOk(cfg, head, input, base, ins, h))
    && (forall p :: p in ins ==> p + 3 <= |input|)
    && (forall p :: p in ins && base <= p && now < p + cfg.wsize ==> LinkOk(cfg, prev, input, base, ins, p))
  }

  /** No string of the dictionary with the hash h is between v and end; the first of the window does not count. */
  ghost predicate NoneBetween(cfg: Config, input: seq<nat>, base: nat, ins: set<nat>, h: nat, v: nat, end: nat) {
    forall q :: q in ins && v < q < end && base < q ==> HashAt(cfg, input, q) != h
  }

  /** Chains leave out no string. */
  ghost predicate NoneSkipped(cfg: Config, head: seq<nat>, prev: seq<nat>, input: seq<nat>, base: nat, ins: set<nat>, now: nat)
    requires 0 < cfg.wsize == |prev|
  {
    && (forall h :: 0 <= h < |head| ==> NoneBetween(cfg, input, base, ins, h, base + head[h], |input|))
    && (forall p :: p in ins && base <= p && now < p + cfg.wsize ==>
          NoneBetween(cfg, input, base, ins, HashAt(cfg, input, p), base + prev[(p - base) % cfg.wsize], p))
  }

  /** The dictionary. */
  ghost predicate Dict(cfg: Config, head: seq<nat>, prev: seq<nat>, input: seq<nat>, base: nat, ins: set<nat>, now: nat) {
    Chains(cfg, head, prev, input, base, ins, now) && NoneSkipped(cfg, head, prev, input, base, ins, now)
  }

  /** All strings inserted are before n. */
  ghost predicate Below(ins: set<nat>, n: int) {
    forall p :: p in ins ==> p < n
  }

  lemma SlotApart(cfg: Config, base: nat, p: nat, s: nat)
    requires cfg.Ok() && base <= p < s < p + cfg.wsize
    ensures (p - base) % cfg.wsize != (s - base) % cfg.wsize
  {
    var a, b, w := p - base, s - base, cfg.wsize;
    if a % w == b % w {
      assert b - a == w * (b / w - a / w);
      SmallMultiple(w, b / w - a / w);
    }
  }

  lemma InsertChains(cfg: Config, head: seq<nat>, prev: seq<nat>, input: seq<nat>, base: nat, ins: set<nat>, now: nat,
                    s: nat, h: nat, head1: seq<nat>, prev1: seq<nat>)
    requires Chains(cfg, head, prev, input, base, ins, now) && Below(ins, s) && base <= s <= now && s + 3 <= |input|
    requires h == HashAt(cfg, input, s) && h < |head|
    requires head1 == head[h := s - base] && prev1 == prev[(s - base) % cfg.wsize := head[h]]
    ensures Chains(cfg, head1, prev1, input, base, ins + {s}, now) && Below(ins + {s}, s + 1)
  {
    hide HashAt;
    var more := ins + {s};
    forall k | 0 <= k < |head1| ensures HeadOk(cfg, head1, input, base, more, k) {
      assert HeadOk(cfg, head, input, base, ins, k);
    }
    forall p | p in more && base <= p && now < p + cfg.wsize ensures LinkOk(cfg, prev1, input, base, more, p) {
      if p == s {
        assert HeadOk(cfg, head, input, base, ins, h);
      } else {
        assert LinkOk(cfg, prev, input, base, ins, p);
        SlotApart(cfg, base, p, s);
      }
    }
  }

  /** The new string is the latest one; for others nothing changes. */
  lemma InsertNone(cfg: Config, input: seq<nat>, base: nat, ins: set<nat>, s: nat, h: nat, v: nat, end: nat)
    requires NoneBetween(cfg, input, base, ins, h, v, end) && (end <= s || HashAt(cfg, input, s) != h)
    ensures NoneBetween(cfg, input, base, ins + {s}, h, v, end)
  {
  }

  lemma InsertLatest(cfg: Config, input: seq<nat>, base: nat, ins: set<nat>, s: nat, h: nat, end: nat)
    requires Below(ins, s)
    ensures NoneBetween(cfg, input, base, ins + {s}, h, s, end)
  {
  }

  lemma InsertSkips(cfg: Config, head: seq<nat>, prev: seq<nat>, input: seq<nat>, base: nat, ins: set<nat>, now: nat,
                    s: nat, h: nat, head1: seq<nat>, prev1: seq<nat>)
    requires cfg.Ok() && |prev| == cfg.wsize && NoneSkipped(cfg, head, prev, input, base, ins, now)
    requires Below(ins, s) && base <= s <= now && s + 3 <= |input| && h == HashAt(cfg, input, s) && h < |head|
    requires head1 == head[h := s - base] && prev1 == prev[(s - base) % cfg.wsize := head[h]]
    ensures NoneSkipped(cfg, head1, prev1, input, base, ins + {s}, now)
  {
    hide HashAt, NoneBetween;
    var more := ins + {s};
    forall k | 0 <= k < |head1| ensures NoneBetween(cfg, input, base, more, k, base + head1[k], |input|) {
      if k == h { InsertLatest(cfg, input, base, ins, s, k, |input|); } else { InsertNone(cfg, input, base, ins, s, k, base + head[k], |input|); }
    }
    forall p | p in more && base <= p && now < p + cfg.wsize
      ensures NoneBetween(cfg, input, base, more, HashAt(cfg, input, p), base + prev1[(p - base) % cfg.wsize], p)
    {
      if p == s {
        NoneShorter(cfg, input, base, ins, h, base + head[h], |input|, s);
        InsertNone(cfg, input, base, ins, s, h, base + head[h], s);
      } else {
        SlotApart(cfg, base, p, s);
        InsertNone(cfg, input, base, ins, s, HashAt(cfg, input, p), base + prev[(p - base) % cfg.wsize], p);
      }
    }
  }

  lemma NoneShorter(cfg: Config, input: seq<nat>, base: nat, ins: set<nat>, h: nat, v: nat, end: nat, end1: nat)
    requires NoneBetween(cfg, input, base, ins, h, v, end) && end1 <= end
    ensures NoneBetween(cfg, input, base, ins, h, v, end1)
  {
  }

  /** INSERT_STRING keeps the dictionary and adds the string. */
  lemma InsertKeeps(cfg: Config, head: seq<nat>, prev: seq<nat>, input: seq<nat>, base: nat, ins: set<nat>, now: nat,
                    s: nat, h: nat, head1: seq<nat>, prev1: seq<nat>)
    requires Dict(cfg, head, prev, input, base, ins, now) && Below(ins, s) && base <= s <= now && s + 3 <= |input|
    requires h == HashAt(cfg, input, s) && h < |head|
    requires head1 == head[h := s - base] && prev1 == prev[(s - base) % cfg.wsize := head[h]]
    ensures Dict(cfg, head1, prev1, input, base, ins + {s}, now) && Below(ins + {s}, s + 1)
  {
    hide Chains, NoneSkipped;
    ChainsOk(cfg, head, prev, input, base, ins, now);
    InsertChains(cfg, head, prev, input, base, ins, now, s, h, head1, prev1);
    InsertSkips(cfg, head, prev, input, base, ins, now, s, h, head1, prev1);
  }

  lemma ChainsOk(cfg: Config, head: seq<nat>, prev: seq<nat>, input: seq<nat>, base: nat, ins: set<nat>, now: nat)
    requires Chains(cfg, head, prev, input, base, ins, now)
    ensures cfg.Ok() && |head| == cfg.HashSize() && |prev| == cfg.wsize
  {
  }

  /** As time goes on fewer links are kept. */
  lemma LaterKeeps(cfg: Config, head: seq<nat>, prev: seq<nat>, input: seq<nat>, base: nat, ins: set<nat>, now: nat, later: nat)
    requires Dict(cfg, head, prev, input, base, ins, now) && now <= later
    ensures Dict(cfg, head, prev, input, base, ins, later)
  {
  }

  lemma MoreChains(cfg: Config, head: seq<nat>, prev: seq<nat>, input: seq<nat>, base: nat, ins: set<nat>, now: nat, more: seq<nat>)
    requires Chains(cfg, head, prev, input, base, ins, now)
    ensures Chains(cfg, head, prev, input + more, base, ins, now)
  {
    var all := input + more;
    forall p | p in ins ensures HashAt(cfg, all, p) == HashAt(cfg, input, p) { }
    forall h | 0 <= h < |head| ensures HeadOk(cfg, head, all, base, ins, h) {
      assert HeadOk(cfg, head, input, base, ins, h);
    }
    forall p | p in ins && base <= p && now < p + cfg.wsize ensures LinkOk(cfg, prev, all, base, ins, p) {
      assert LinkOk(cfg, prev, input, base, ins, p);
    }
  }

  lemma MoreNone(cfg: Config, input: seq<nat>, base: nat, ins: set<nat>, h: nat, v: nat, end: nat, more: seq<nat>, end1: nat)
    requires NoneBetween(cfg, input, base, ins, h, v, end) && (forall p :: p in ins ==> p + 3 <= |input|)
    requires end1 <= end || end >= |input|
    ensures NoneBetween(cfg, input + more, base, ins, h, v, end1)
  {
    forall q | q in ins ensures HashAt(cfg, input + more, q) == HashAt(cfg, input, q) { }
  }

  lemma MoreKeeps(cfg: Config, head: seq<nat>, prev: seq<nat>, input: seq<nat>, base: nat, ins: set<nat>, now: nat, more: seq<nat>)
    requires Dict(cfg, head, prev, input, base, ins, now)
    ensures Dict(cfg, head, prev, input + more, base, ins, now)
  {
    hide HashAt, NoneBetween, HeadOk, LinkOk;
    var all := input + more;
    MoreChains(cfg, head, prev, input, base, ins, now, more);
    forall h | 0 <= h < |head| ensures NoneBetween(cfg, all, base, ins, h, base + head[h], |all|) {
      MoreNone(cfg, input, base, ins, h, base + head[h], |input|, more, |all|);
    }
    forall p | p in ins && base <= p && now < p + cfg.wsize
      ensures NoneBetween(cfg, all, base, ins, HashAt(cfg, all, p), base + prev[(p - base) % cfg.wsize], p)
    {
      SameHash(cfg, input, p, more);
      MoreNone(cfg, input, base, ins, HashAt(cfg, input, p), base + prev[(p - base) % cfg.wsize], p, more, p);
    }
  }

  lemma SameHash(cfg: Config, input: seq<nat>, p: nat, more: seq<nat>)
    requires p + 3 <= |input|
    ensures HashAt(cfg, input + more, p) == HashAt(cfg, input, p)
  {
  }

  /** An entry of head or prev when the window slides down by wsize. */
  function Slid(v: nat, wsize: nat): nat {
    if v >= wsize then v - wsize else 0
  }

  lemma SlideChains(cfg: Config, head: seq<nat>, prev: seq<nat>, input: seq<nat>, base: nat, ins: set<nat>, now: nat,
                   head1: seq<nat>, prev1: seq<nat>)
    requires Chains(cfg, head, prev, input, base, ins, now)
    requires |head1| == |head| && forall i :: 0 <= i < |head| ==> head1[i] == Slid(head[i], cfg.wsize)
    requires |prev1| == |prev| && forall i :: 0 <= i < |prev| ==> prev1[i] == Slid(prev[i], cfg.wsize)
    ensures Chains(cfg, head1, prev1, input, base + cfg.wsize, ins, now)
  {
    hide HashAt;
    var base1 := base + cfg.wsize;
    forall h | 0 <= h < |head1| ensures HeadOk(cfg, head1, input, base1, ins, h) {
      assert HeadOk(cfg, head, input, base, ins, h);
    }
    forall p | p in ins && base1 <= p && now < p + cfg.wsize ensures LinkOk(cfg, prev1, input, base1, ins, p) {
      assert LinkOk(cfg, prev, input, base, ins, p);
      SlotSlides(cfg, p - base);
    }
  }

  lemma SlideNone(cfg: Config, input: seq<nat>, base: nat, ins: set<nat>, h: nat, v: nat, end: nat)
    requires NoneBetween(cfg, input, base, ins, h, base + v, end)
    ensures NoneBetween(cfg, input, base + cfg.wsize, ins, h, base + cfg.wsize + Slid(v, cfg.wsize), end)
  {
  }

  lemma SlideKeeps(cfg: Config, head: seq<nat>, prev: seq<nat>, input: seq<nat>, base: nat, ins: set<nat>, now: nat,
                   head1: seq<nat>, prev1: seq<nat>)
    requires Dict(cfg, head, prev, input, base, ins, now)
    requires |head1| == |head| && forall i :: 0 <= i < |head| ==> head1[i] == Slid(head[i], cfg.wsize)
    requires |prev1| == |prev| && forall i :: 0 <= i < |prev| ==> prev1[i] == Slid(prev[i], cfg.wsize)
    ensures Dict(cfg, head1, prev1, input, base + cfg.wsize, ins, now)
  {
    hide HashAt, NoneBetween, HeadOk, LinkOk, Slid;
    SlideChains(cfg, head, prev, input, base, ins, now, head1, prev1);
    var base1 := base + cfg.wsize;
    forall h | 0 <= h < |head1| ensures NoneBetween(cfg, input, base1, ins, h, base1 + head1[h], |input|) {
      SlideNone(cfg, input, base, ins, h, head[h], |input|);
    }
    forall p | p in ins && base1 <= p && now < p + cfg.wsize
      ensures NoneBetween(cfg, input, base1, ins, HashAt(cfg, input, p), base1 + prev1[(p - base1) % cfg.wsize], p)
    {
      SlotSlides(cfg, p - base);
      SlideNone(cfg, input, base, ins, HashAt(cfg, input, p), prev[(p - base) % cfg.wsize], p);
    }
  }

  lemma SlotSlides(cfg: Config, x: nat)
    requires cfg.Ok() && cfg.wsize <= x
    ensures (x - cfg.wsize) % cfg.wsize == x % cfg.wsize
  {
    BackBy(x, cfg.wsize);
  }

  /** CLEAR_HASH: nothing is known, wherever the window starts. */
  lemma ClearKeeps(cfg: Config, head: seq<nat>, prev: seq<nat>, input: seq<nat>, base: nat, now: nat)
    requires cfg.Ok() && |head| == cfg.HashSize() && |prev| == cfg.wsize && forall h :: 0 <= h < |head| ==> head[h] == 0
    ensures Dict(cfg, head, prev, input, base, {}, now)
  {
  }

  /** What a walk along a chain can rely on at the window offset cur. */
  ghost predicate OnChain(cfg: Config, input: seq<nat>, base: nat, ins: set<nat>, cur: nat, h: nat) {
    base + cur in ins && HashAt(cfg, input, base + cur) == h
  }

  lemma WalkOn(cfg: Config, head: seq<nat>, prev: seq<nat>, input: seq<nat>, base: nat, ins: set<nat>, now: nat, cur: nat, h: nat)
    requires Dict(cfg, head, prev, input, base, ins, now) && OnChain(cfg, input, base, ins, cur, h) && now < base + cur + cfg.wsize
    ensures var next := prev[cur % cfg.wsize];
            next == 0 || (next < cur && OnChain(cfg, input, base, ins, next, h))
    ensures NoneBetween(cfg, input, base, ins, h, base + prev[cur % cfg.wsize], base + cur)
  {
    hide HashAt, NoneBetween;
    assert LinkOk(cfg, prev, input, base, ins, base + cur);
    assert (base + cur - base) % cfg.wsize == cur % cfg.wsize;
  }
}
