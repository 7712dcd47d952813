/**
  The compressor of deps/zlib/deflate.c up to the tokens it tallies: the sliding
  window, the hash chains, and the greedy and the lazy choice of matches.
 */
module Deflate {
  import opened Bits
  import opened HashChains
  import opened Lz77
  import opened LongestMatch
  import opened DeflateState
  import opened Matching
  import opened EqualBytes

  datatype Flush = NoFlush | PartialFlush | SyncFlush | FullFlush | Finish | Block

  /** One turn of deflate_fast or deflate_slow: more input is needed, there is no more of it, or a string was passed. */
  datatype Turn = Waiting | Ended | Passing

  datatype BlockState = NeedMore | BlockDone | FinishStarted | FinishDone

  /** slide_hash for one of the two tables. */
  method SlideTable(a: array<nat>, wsize: nat)
    modifies a
    ensures forall i :: 0 <= i < a.Length ==> a[i] == Slid(old(a[i]), wsize)
  {
    var n := a.Length;
    while n > 0
      invariant 0 <= n <= a.Length
      invariant forall i :: n <= i < a.Length ==> a[i] == Slid(old(a[i]), wsize)
      invariant forall i :: 0 <= i < n ==> a[i] == old(a[i])
    {
      n := n - 1;
      var m := a[n];
      a[n] := if m >= wsize then m - wsize else 0;
    }
  }

  class Deflater {
    const cfg: Config
    const tuning: Tuning
    const filtered: bool                 // strategy is Z_FILTERED
    const window: array<nat>
    const head: array<nat>
    const prev: array<nat>
    var insH: nat
    var strstart: nat
    var lookahead: nat
    var insert: nat
    var matchStart: nat
    var matchLength: nat
    var prevMatch: nat
    var prevLength: nat
    var matchAvailable: bool
    var source: seq<nat>                 // next_in, avail_in
    var tokens: seq<Token>               // all literals and matches tallied so far
    ghost var input: seq<nat>            // all bytes read so far
    ghost var base: nat                  // position of window[0] in the input
    ghost var ins: set<nat>              // positions of the strings in the dictionary
    ghost var since: nat                 // all complete strings from here on were entered
    ghost var events: Events             // flushes, and where strings were not entered
    ghost var why: seq<Reason>           // one for each token
    ghost var heldLook: Probe            // the look at the byte held back

    /** Window and dictionary, with strings known before pos. */
    ghost predicate Knows(pos: nat, end: nat, now: nat)
      reads this, window, head, prev
    {
      Core(cfg, window[..], head[..], prev[..], insH, input, base, ins, pos, end, now)
    }

    ghost predicate Apart() {
      window != head && window != prev && head != prev && cfg.Ok() && tuning.Ok()
    }

    /** Between steps. */
    ghost predicate Valid()
      reads this, window, head, prev
    {
      && Apart() && Bytes(source) && matchStart < WORD
      && Knows(strstart, strstart + lookahead, base + strstart)
      && insert <= strstart && (insert == 0 || lookahead + insert < MIN_MATCH)
      && Below(ins, base + strstart - insert)
    }

    /** The position in the input of the current string. */
    ghost function Now(): nat
      reads this
    {
      base + strstart
    }

    /** All complete strings since `since` are in the dictionary. */
    ghost predicate Knowing()
      reads this
    {
      Entered(cfg, input, base, strstart, ins, since, events)
    }

    /** Strings left over are the last ones, or there is no more input to complete them now. */
    ghost predicate Tidy()
      reads this
    {
      Knowing() && (Settled() || source == [])
    }

    ghost predicate Settled()
      reads this
    {
      Gapless(base, strstart, insert, ins, since)
    }

    /** There are enough bytes ahead, or no more because of a flush. */
    ghost predicate Ample()
      reads this
    {
      lookahead >= MIN_LOOKAHEAD || (source == [] && |input| in events.stops)
    }

    /** The same when the lookahead already is that behind a match. */
    ghost predicate AmpleBehind(length: nat)
      reads this
    {
      lookahead + length >= MIN_LOOKAHEAD || (source == [] && |input| in events.stops)
    }

    ghost function Level(lazy: bool): Setup {
      Setup(cfg, tuning, filtered, lazy)
    }

    /** There is a reason for every token tallied. */
    ghost predicate Reasoned(lazy: bool, held: nat)
      reads this
    {
      held <= Now() && Account(Level(lazy), input, events, tokens, why, Now() - held)
    }

    /** deflateInit2_ and lm_init */
    constructor (cfg: Config, tuning: Tuning, filtered: bool)
      requires cfg.Ok() && tuning.Ok()
      ensures Valid() && fresh(window) && fresh(head) && fresh(prev)
      ensures this.cfg == cfg && this.tuning == tuning && this.filtered == filtered && Settled()
      ensures input == [] && source == [] && tokens == [] && Now() == 0
      ensures events == Events({}, {}, {}) && Tidy() && why == []
      ensures matchLength == prevLength == MIN_MATCH - 1 && !matchAvailable
    {
      this.cfg, this.tuning, this.filtered := cfg, tuning, filtered;
      window := new nat[2 * cfg.wsize];
      head := new nat[cfg.HashSize()](_ => 0);
      prev := new nat[cfg.wsize];
      insH, strstart, lookahead, insert := 0, 0, 0, 0;
      matchStart, matchLength, prevMatch, prevLength, matchAvailable := 0, MIN_MATCH - 1, 0, MIN_MATCH - 1, false;
      source, tokens := [], [];
      input, base, ins := [], 0, {};
      since, events, why := 0, Events({}, {}, {}), [];
      new;
      hide Dict;
      ClearKeeps(cfg, head[..], prev[..], [], 0, 0);
    }

    /** INSERT_STRING */
    method InsertString(str: nat, ghost end: nat, ghost now: nat) returns (hashHead: nat)
      requires Apart() && Knows(str, end, now) && str + MIN_MATCH <= end && base + str <= now
      modifies this`insH, this`ins, head, prev
      ensures Knows(str + 1, end, now) && ins == old(ins) + {base + str}
      ensures hashHead == 0 ||
                (hashHead < str && OnChain(cfg, input, base, ins, hashHead, HashAt(cfg, input, base + str)))
      ensures NoneBetween(cfg, input, base, ins, HashAt(cfg, input, base + str), base + hashHead, base + str)
    {
      hide Core, OnChain, HashAt, Update, NoneBetween;
      ghost var w, h0, p0, i0, n0 := window[..], head[..], prev[..], insH, ins;
      CoreSizes(cfg, w, h0, p0, insH, input, base, ins, str, end, now);
      insH := Update(cfg, insH, window[str + (MIN_MATCH - 1)]);
      hashHead := head[insH];
      prev[str % cfg.wsize] := hashHead;
      head[insH] := str;
      ins := ins + {base + str};
      CoreInsert(cfg, w, h0, p0, i0, input, base, n0, str, end, now, insH, head[..], prev[..]);
    }
  
    /** slide_hash */
    method SlideHash()
      requires head != prev
      modifies head, prev
      ensures forall i :: 0 <= i < head.Length ==> head[..][i] == Slid(old(head[..])[i], cfg.wsize)
      ensures forall i :: 0 <= i < prev.Length ==> prev[..][i] == Slid(old(prev[..])[i], cfg.wsize)
    {
      SlideTable(head, cfg.wsize);
      SlideTable(prev, cfg.wsize);
    }

    /** fill_window: the first n bytes of the upper half of the window become those of the lower one. */
    method CopyDown(n: nat)
      requires window.Length == 2 * cfg.wsize && n <= cfg.wsize
      modifies window
      ensures forall i :: 0 <= i < n ==> window[..][i] == old(window[..])[cfg.wsize + i]
    {
      forall i | 0 <= i < n { window[i] := window[cfg.wsize + i]; }
    }

    /** fill_window: move the upper half of the window to the lower one. */
    method Slide(more0: nat) returns (more: nat)
      requires Valid() && strstart >= cfg.wsize + cfg.MaxDist()
      requires more0 == 2 * cfg.wsize - lookahead - strstart
      modifies this`matchStart, this`strstart, this`insert, this`base, window, head, prev
      ensures Valid() && more == 2 * cfg.wsize - lookahead - strstart
      ensures base == old(base) + cfg.wsize && strstart == old(strstart) - cfg.wsize
      ensures matchStart == Sub32(old(matchStart), cfg.wsize) && strstart > 0 && Before() == old(Before())
      ensures insert == old(insert) && strstart >= cfg.MaxDist()
    {
      hide Core, Bytes;
      ghost var w, h0, p0, s0, b0 := window[..], head[..], prev[..], strstart, base;
      CoreSizes(cfg, w, h0, p0, insH, input, base, ins, strstart, strstart + lookahead, base + strstart);
      CopyDown(cfg.wsize - more0);
      SlideKeepsDistance(strstart - 1, matchStart, cfg.wsize);
      matchStart := Sub32(matchStart, cfg.wsize);
      strstart := strstart - cfg.wsize;
      insert := Min(insert, strstart);
      SlideHash();
      base := base + cfg.wsize;
      more := more0 + cfg.wsize;
      CoreSlide(cfg, w, h0, p0, insH, input, b0, ins, s0, s0 + lookahead, b0 + s0, window[..], head[..], prev[..]);
    }

    /** read_buf */
    method ReadBuf(at: nat, size: nat) returns (n: nat)
      requires Apart() && at + size <= window.Length
      modifies window, this`source, this`input
      ensures n <= size && n <= |old(source)| && (n < size ==> source == [])
      ensures input == old(input) + old(source)[..n] && source == old(source)[n..]
      ensures forall i :: 0 <= i < at ==> window[i] == old(window[i])
      ensures forall i :: 0 <= i < n ==> window[at + i] == old(source)[i]
    {
      n := if |source| > size then size else |source|;
      forall i | at <= i < at + n { window[i] := source[i - at]; }
      input := input + source[..n];
      source := source[n..];
    }

    /** fill_window: insert the strings that were left over, as far as they are complete now. */
    method InsertPending(ghost end: nat)
      requires Apart() && insert <= strstart && end == strstart + lookahead
      requires Knows(strstart - insert, end, Now()) && lookahead + insert >= MIN_MATCH
      modifies this`insH, this`ins, this`insert, head, prev
      ensures insert <= strstart && Knows(strstart - insert, end, Now()) && (insert == 0 || lookahead + insert < MIN_MATCH)
      ensures old(Gapless(base, strstart, insert, ins, since)) ==> Gapless(base, strstart, insert, ins, since)
    {
      hide Core;
      var str := strstart - insert;
      while insert != 0
        invariant insert <= strstart && str == strstart - insert && lookahead + insert >= MIN_MATCH
        invariant Knows(str, end, base + strstart)
        invariant old(Gapless(base, strstart, insert, ins, since)) ==> Gapless(base, strstart, insert, ins, since)
        decreases insert
      {
        var _ := InsertString(str, end, base + strstart);
        str := str + 1;
        insert := insert - 1;
        if lookahead + insert < MIN_MATCH { break; }
      }
    }

    /** fill_window: start the hash again, and insert what was left over because it was not complete. */
    method InsertLeft()
      requires Apart() && Bytes(source) && matchStart < WORD && insert <= strstart
      requires Below(ins, base + strstart - insert) && strstart + 1 < window.Length
      requires Dict(cfg, head[..], prev[..], input, base, ins, Now()) && Bytes(input)
      requires window.Length == 2 * cfg.wsize && WindowOk(window[..], input, base, strstart + lookahead)
      modifies this`insH, this`ins, this`insert, head, prev
      ensures Valid()
      ensures old(Gapless(base, strstart, insert, ins, since)) ==> Gapless(base, strstart, insert, ins, since)
    {
      hide Core, Dict, Gapless;
      ghost var end, now := strstart + lookahead, base + strstart;
      if lookahead + insert >= MIN_MATCH {
        var str := strstart - insert;
        CoreFresh(cfg, window[..], head[..], prev[..], input, base, ins, str, end, now);
        insH := Update(cfg, window[str], window[str + 1]);
        InsertPending(end);
        LeftIsKnown(cfg, window[..], head[..], prev[..], insH, input, base, ins, strstart - insert, end, now, strstart);
      } else {
        CoreShort(cfg, window[..], head[..], prev[..], insH, input, base, ins, strstart, end, now);
      }
    }

    /**
      fill_window: read as long as there is input and less than MIN_LOOKAHEAD
      ahead.  The current position in the input and the distance to the match
      that is being considered stay the same.
     */
    method FillWindow()
      requires Valid() && lookahead < MIN_LOOKAHEAD && Tidy()
      modifies this`matchStart, this`strstart, this`insert, this`base, this`lookahead, this`source, this`input,
               this`insH, this`ins, window, head, prev
      ensures Valid() && Tidy() && Now() == old(Now()) && strstart + MIN_LOOKAHEAD <= window.Length
      ensures old(Settled()) ==> Settled()
      ensures input + source == old(input + source) && old(input) <= input
      ensures lookahead < MIN_LOOKAHEAD ==> source == []
      ensures old(strstart) > 0 ==> strstart > 0
      ensures old(strstart) > 0 ==> Before() == old(Before())
    {
      hide Core, Dict, Bytes, Below, WindowOk, Entered, Gapless;
      ghost var all, in0, dist0, now0, s0 := input + source, input, Before(), Now(), strstart;
      ValidSizes();
      var going := true;
      while going
        invariant Valid() && Tidy() && Now() == now0 && (going ==> lookahead < MIN_LOOKAHEAD)
        invariant input + source == all && in0 <= input && (s0 > 0 ==> strstart > 0)
        invariant strstart + lookahead <= window.Length == 2 * cfg.wsize < WORD
        invariant !going ==> strstart + MIN_LOOKAHEAD <= window.Length && (lookahead < MIN_LOOKAHEAD ==> source == [])
        invariant Before() == dist0 || s0 == 0
        invariant old(Settled()) ==> Settled()
        decreases going, |source|
      {
        var more := 2 * cfg.wsize - lookahead - strstart;
        if strstart >= cfg.wsize + cfg.MaxDist() {
          ghost var b0, str0 := base, strstart;
          more := Slide(more);
          EnteredSlide(cfg, input, b0, str0, insert, ins, since, events, base, strstart);
        }
        if source == [] { going := false; break; }
        Refill(more);
        ValidSizes();
        going := lookahead < MIN_LOOKAHEAD && source != [];
      }
    }

    /** The distance from the string before the current one to match_start. */
    ghost function Before(): nat
      reads this
    {
      if 0 < strstart < WORD && matchStart < WORD then Sub32(strstart - 1, matchStart) else 0
    }

    lemma ValidSizes()
      requires Valid()
      ensures strstart + lookahead <= window.Length == 2 * cfg.wsize < WORD && prev.Length == cfg.wsize
      ensures |input| == base + strstart + lookahead
    {
      CoreSizes(cfg, window[..], head[..], prev[..], insH, input, base, ins, strstart, strstart + lookahead, base + strstart);
    }

    /** Read what fits and insert what could not be inserted before. */
    method Refill(more: nat)
      requires Valid() && Tidy() && more == 2 * cfg.wsize - lookahead - strstart && more >= 2 && source != [] && lookahead < MIN_LOOKAHEAD
      requires strstart + MIN_LOOKAHEAD <= window.Length == 2 * cfg.wsize
      modifies this`insert, this`lookahead, this`source, this`input, this`insH, this`ins, window, head, prev
      ensures Valid() && Tidy() && Settled() && input + source == old(input + source) && old(input) <= input && |source| < |old(source)|
    {
      hide Core, Dict, WindowOk, Gapless, Entered;
      ghost var w, in0, src, end := window[..], input, source, strstart + lookahead;
      ghost var h0, p0 := head[..], prev[..];
      ValidSizes();
      var n := ReadBuf(strstart + lookahead, more);
      CoreRead(cfg, w, h0, p0, insH, in0, base, ins, strstart, end, base + strstart, src[..n], window[..]);
      lookahead := lookahead + n;
      EnteredBounds(cfg, in0, base, strstart, ins, since, events);
      InsertLeft();
      ValidSizes();
      GaplessEntered(cfg, input, base, strstart, lookahead, insert, ins, since, events);
    }
  
    // ----- deflate_fast ------------------------------------------------------------------------

    /** The tokens stand for the input up to the current string, but for the last `held` bytes. */
    ghost predicate Tells(held: nat)
      reads this
    {
      held <= strstart && Told(cfg, tokens, input, Now() - held)
    }

    /** deflate_fast between steps. */
    ghost predicate Fast()
      reads this, window, head, prev
    {
      && Valid() && Tells(0) && matchLength < MIN_MATCH && prevLength == MIN_MATCH - 1 && !matchAvailable
      && Tidy() && Reasoned(false, 0)
    }

    /** The current string was looked at: it is in the dictionary if it is complete. */
    ghost predicate Looked()
      reads this, window, head, prev
    {
      && Apart() && Bytes(source) && matchStart < WORD && 0 < lookahead
      && Knows(strstart + 1, strstart + lookahead, base + strstart)
      && insert <= strstart && (insert == 0 || lookahead + insert < MIN_MATCH)
      && Below(ins, base + strstart + 1 - insert)
    }

    /** Insert the current string if it is complete. */
    method Look() returns (hashHead: nat)
      requires Valid() && 0 < lookahead
      modifies this`insH, this`ins, head, prev
      ensures Looked()
      ensures hashHead == 0 ||
                (lookahead >= MIN_MATCH && hashHead < strstart
                 && OnChain(cfg, input, base, ins, hashHead, HashAt(cfg, input, base + strstart)))
      ensures ins == if lookahead >= MIN_MATCH then old(ins) + {Now()} else old(ins)
      ensures lookahead >= MIN_MATCH ==> NoneBetween(cfg, input, base, ins, HashAt(cfg, input, Now()), base + hashHead, Now())
    {
      hide Core, OnChain, HashAt, NoneBetween;
      hashHead := 0;
      if lookahead >= MIN_MATCH {
        hashHead := InsertString(strstart, strstart + lookahead, base + strstart);
      } else {
        CoreSkip(cfg, window[..], head[..], prev[..], insH, input, base, ins, strstart, strstart + lookahead, base + strstart);
      }
    }

    /** The search for a match of the current string. */
    method Search(hashHead: nat, ghost lazy: bool) returns (length: nat, ghost visited: seq<nat>)
      requires Looked() && hashHead != 0 && hashHead < strstart && lookahead >= MIN_MATCH
      requires OnChain(cfg, input, base, ins, hashHead, HashAt(cfg, input, base + strstart))
      requires NoneBetween(cfg, input, base, ins, HashAt(cfg, input, Now()), base + hashHead, Now())
      requires strstart - hashHead <= cfg.MaxDist() && 2 <= prevLength < MAX_MATCH
      requires strstart + MIN_LOOKAHEAD <= window.Length
      modifies this`matchStart
      ensures matchStart < WORD && length <= lookahead && Min(prevLength, lookahead) <= length <= MAX_MATCH
      ensures length > prevLength && length >= MIN_MATCH ==>
                matchStart < strstart && IsMatch(cfg, input, Now(), strstart - matchStart, length)
      ensures Walked(Level(lazy), input, ProbeOf(base, since, ins, strstart, lookahead, prevLength, visited, length, matchStart))
    {
      hide Core, OnChain, HashAt, Dict, Extent, Agree, NoneLonger, Walk, Bytes, WindowOk, NoneBetween, Walked;
      ghost var end, now := strstart + lookahead, base + strstart;
      CoreSizes(cfg, window[..], head[..], prev[..], insH, input, base, ins, strstart + 1, end, now);
      CoreSearch(cfg, window[..], head[..], prev[..], insH, input, base, ins, strstart, lookahead);
      ghost var best;
      length, matchStart, best, visited :=
        LongestMatch.LongestMatch(cfg, tuning, window, prev, strstart, lookahead, prevLength, matchStart, hashHead, head[..], input, base, ins);
      if best > prevLength { ExtentBound(window[..], matchStart, strstart, best); }
      WalkedIs(Level(lazy), window[..], head[..], prev[..], input, base, since, ins, strstart, lookahead, prevLength, visited, best, length, matchStart);
    }

    /** Tally a literal and go on. */
    method TallyLiteral(ghost a: Probe)
      requires Looked() && Tells(0) && Reasoned(false, 0) && Knowing() && Ample() && (lookahead >= MIN_MATCH ==> Now() in ins)
      requires ProbeOk(Level(false), input, events, a) && a.p == Now() && a.pending == 2
      requires Length(Level(false), a) < MIN_MATCH
      modifies this`tokens, this`why, this`strstart, this`lookahead
      ensures Valid() && Tells(0) && Now() == old(Now()) + 1 && Reasoned(false, 0) && Tidy()
      ensures lookahead + 1 == old(lookahead)
    {
      hide Core, Told, Account, ProbeOk, Entered, Gapless, Length, Chosen;
      ghost var now := base + strstart;
      CoreSizes(cfg, window[..], head[..], prev[..], insH, input, base, ins, strstart + 1, strstart + lookahead, now);
      CurrentByte(cfg, window[..], head[..], prev[..], insH, input, base, ins, strstart + 1, strstart + lookahead, now, strstart);
      ToldLiteral(cfg, tokens, input, now);
      ChosenFast(Level(false), input, events, Literal(window[strstart]), a);
      AccountMore(Level(false), input, events, tokens, why, now, Literal(window[strstart]), Reason(a, []));
      tokens, why := tokens + [Literal(window[strstart])], why + [Reason(a, [])];
      CoreLater(cfg, window[..], head[..], prev[..], insH, input, base, ins, strstart + 1, strstart + lookahead, now, now + 1);
      EnteredStep(cfg, input, base, strstart, ins, since, events, strstart + 1, ins);
      lookahead := lookahead - 1;
      strstart := strstart + 1;
    }

    /** Go to the end of a match, inserting its strings. */
    method InsertMatch(ghost end: nat)
      requires Apart() && Knows(strstart + 1, end, Now()) && matchLength >= 1 && strstart + matchLength + MIN_MATCH <= end
      modifies this`strstart, this`matchLength, this`insH, this`ins, head, prev
      ensures Knows(strstart, end, Now()) && strstart == old(strstart + matchLength) && matchLength == 0
      ensures old(ins) <= ins && forall q :: old(Now()) < q < Now() ==> q in ins
    {
      hide Core;
      ghost var stop, now := strstart + matchLength, Now();
      matchLength := matchLength - 1;
      while matchLength != 0
        invariant Knows(strstart + 1, end, base + strstart) && strstart + 1 + matchLength == stop
        invariant old(ins) <= ins && forall q :: now < q <= base + strstart ==> q in ins
        decreases matchLength
      {
        CoreLater(cfg, window[..], head[..], prev[..], insH, input, base, ins, strstart + 1, end, base + strstart, base + strstart + 1);
        strstart := strstart + 1;
        var _ := InsertString(strstart, end, base + strstart);
        matchLength := matchLength - 1;
      }
      CoreLater(cfg, window[..], head[..], prev[..], insH, input, base, ins, strstart + 1, end, base + strstart, base + strstart + 1);
      strstart := strstart + 1;
    }

    /** Go to the end of a match without inserting its strings. */
    method SkipMatch(ghost end: nat)
      requires Apart() && Knows(strstart + 1, end, Now()) && 1 <= matchLength <= MAX_MATCH && strstart + MIN_LOOKAHEAD <= window.Length
      modifies this`strstart, this`matchLength, this`insH
      ensures Knows(strstart, end, Now()) && strstart == old(strstart + matchLength) && matchLength == 0
    {
      hide Core, Update;
      ghost var now, stop := base + strstart, strstart + matchLength;
      CoreJump(cfg, window[..], head[..], prev[..], insH, input, base, ins, strstart + 1, end, now, stop);
      strstart := strstart + matchLength;
      matchLength := 0;
      insH := Update(cfg, window[strstart], window[strstart + 1]);
      CoreLater(cfg, window[..], head[..], prev[..], insH, input, base, ins, stop, end, now, base + stop);
    }

    /** Tally a match. */
    method TallyMatch(ghost a: Probe)
      requires Looked() && Tells(0) && Reasoned(false, 0) && matchStart < strstart && matchLength <= lookahead
      requires IsMatch(cfg, input, Now(), strstart - matchStart, matchLength)
      requires ProbeOk(Level(false), input, events, a) && a.p == Now() && a.pending == 2 && a.end == |input|
      requires Length(Level(false), a) == matchLength && a.distance == strstart - matchStart
      modifies this`tokens, this`why, this`lookahead
      ensures Told(cfg, tokens, input, Now() + matchLength) && lookahead == old(lookahead) - matchLength
      ensures Account(Level(false), input, events, tokens, why, Now() + matchLength)
      ensures tokens == old(tokens) + [Copy(strstart - matchStart, matchLength)] && why == old(why) + [Reason(a, [])]
    {
      hide Core, Told, IsMatch, Account, ProbeOk, Length, Chosen;
      ghost var now, d := base + strstart, strstart - matchStart;
      MatchRange(cfg, input, now, d, matchLength);
      ToldCopy(cfg, tokens, input, now, d, matchLength);
      ChosenFast(Level(false), input, events, Copy(d, matchLength), a);
      AccountMore(Level(false), input, events, tokens, why, now, Copy(d, matchLength), Reason(a, []));
      tokens, why := tokens + [Copy(strstart - matchStart, matchLength)], why + [Reason(a, [])];
      lookahead := lookahead - matchLength;
    }

    /** Go to the end of the match just tallied, inserting its strings if it is short. */
    method PassMatch(ghost a: Probe)
      requires Apart() && strstart + MIN_LOOKAHEAD <= window.Length && 1 <= matchLength <= MAX_MATCH
      requires Knows(strstart + 1, strstart + matchLength + lookahead, Now()) && Knowing() && AmpleBehind(matchLength) && Now() in ins
      requires Account(Level(false), input, events, tokens, why, Now() + matchLength)
      requires tokens != [] && why != [] && why[|why| - 1].look == a && a.p == Now() && a.end == |input|
      requires tokens[|tokens| - 1].Copy? && tokens[|tokens| - 1].length == matchLength
      modifies this`strstart, this`matchLength, this`insH, this`ins, this`since, this`events, head, prev
      ensures Knows(strstart, strstart + lookahead, Now()) && Now() == old(Now() + matchLength) && matchLength == 0
      ensures Tidy() && Account(Level(false), input, events, tokens, why, Now()) && SameBut(old(events), events, {})
    {
      hide Core, Account, Entered, Gapless;
      ghost var now, str, end, known := base + strstart, strstart, strstart + matchLength + lookahead, ins;
      CoreKnown(cfg, window[..], head[..], prev[..], insH, input, base, ins, strstart + 1, end, now);
      if matchLength <= tuning.lazy && lookahead >= MIN_MATCH {
        InsertMatch(end);
        EnteredStep(cfg, input, base, str, known, since, events, strstart, ins);
      } else {
        ghost var e := now + matchLength;
        AccountSizes(Level(false), input, events, tokens, why, e);
        assert SkipAt(Level(false), tokens, why, |tokens| - 1, e);
        SkipMatch(end);
        AccountSkip(Level(false), input, events, tokens, why, e);
        EnteredBounds(cfg, input, base, str, ins, since, events);
        since, events := e, Skipped(events, e);
        EnteredAfresh(cfg, input, base, strstart, insert, ins, events);
      }
    }

    /** Tally a match and go to its end. */
    method TallyFast(ghost a: Probe)
      requires Looked() && Tells(0) && insert == 0 && matchStart < strstart && strstart + MIN_LOOKAHEAD <= window.Length
      requires IsMatch(cfg, input, Now(), strstart - matchStart, matchLength) && matchLength <= lookahead
      requires Reasoned(false, 0) && Knowing() && Ample() && Now() in ins
      requires ProbeOk(Level(false), input, events, a) && a.p == Now() && a.pending == 2 && a.end == |input|
      requires Length(Level(false), a) == matchLength && a.distance == strstart - matchStart
      modifies this`tokens, this`why, this`strstart, this`lookahead, this`matchLength, this`insH, this`ins, this`since, this`events, head, prev
      ensures Valid() && Tells(0) && matchLength == 0 && Now() > old(Now()) && Reasoned(false, 0) && Tidy()
      ensures SameBut(old(events), events, {})
      ensures lookahead + MAX_MATCH >= old(lookahead)
    {
      hide Core, Told, IsMatch, Account, ProbeOk, Entered, Gapless, Length;
      MatchRange(cfg, input, base + strstart, strstart - matchStart, matchLength);
      TallyMatch(a);
      PassMatch(a);
      CoreBelow(cfg, window[..], head[..], prev[..], insH, input, base, ins, strstart, strstart + lookahead, base + strstart);
    }

    /** The search of deflate_fast. */
    method SearchFast(hashHead: nat) returns (ghost a: Probe)
      requires Looked() && Knowing() && Ample() && strstart + MIN_LOOKAHEAD <= window.Length
      requires prevLength == MIN_MATCH - 1 && matchLength < MIN_MATCH
      requires hashHead == 0 || (lookahead >= MIN_MATCH && hashHead < strstart
                                 && OnChain(cfg, input, base, ins, hashHead, HashAt(cfg, input, Now())))
      requires lookahead >= MIN_MATCH ==> NoneBetween(cfg, input, base, ins, HashAt(cfg, input, Now()), base + hashHead, Now())
      modifies this`matchLength, this`matchStart
      ensures matchStart < WORD
      ensures matchLength >= MIN_MATCH ==>
                && matchStart < strstart && IsMatch(cfg, input, Now(), strstart - matchStart, matchLength)
                && a.distance == strstart - matchStart && matchLength <= lookahead && lookahead >= MIN_MATCH
      ensures ProbeOk(Level(false), input, events, a) && a.p == Now() && a.pending == 2 && a.end == |input|
      ensures Length(Level(false), a) == if matchLength >= MIN_MATCH then matchLength else 2
    {
      hide Core, IsMatch, OnChain, HashAt, NoneBetween, Walked, Entered, Scene, Result;
      CoreSizes(cfg, window[..], head[..], prev[..], insH, input, base, ins, strstart + 1, strstart + lookahead, base + strstart);
      CoreKnown(cfg, window[..], head[..], prev[..], insH, input, base, ins, strstart + 1, strstart + lookahead, base + strstart);
      if hashHead != 0 && strstart - hashHead <= cfg.MaxDist() {
        ghost var visited;
        matchLength, visited := Search(hashHead, false);
        a := ProbeOf(base, since, ins, strstart, lookahead, prevLength, visited, matchLength, matchStart);
        WasSearched(Level(false), input, a);
        SceneIs(Level(false), input, events, base, since, ins, strstart, lookahead, prevLength, visited, matchLength, matchStart);
      } else {
        a := NoSearch(base, since, ins, strstart, lookahead, prevLength);
        NotSearched(Level(false), input, base, since, ins, strstart, lookahead, prevLength, hashHead);
        SceneIs(Level(false), input, events, base, since, ins, strstart, lookahead, prevLength, [], 2, strstart);
      }
    }

    /** Tally the match that was found, or a literal. */
    method TallyFound(ghost a: Probe)
      requires Looked() && Tells(0) && Reasoned(false, 0) && Knowing() && Ample() && (lookahead >= MIN_MATCH ==> Now() in ins)
      requires strstart + MIN_LOOKAHEAD <= window.Length && prevLength == MIN_MATCH - 1 && !matchAvailable
      requires ProbeOk(Level(false), input, events, a) && a.p == Now() && a.pending == 2 && a.end == |input|
      requires Length(Level(false), a) == if matchLength >= MIN_MATCH then matchLength else 2
      requires matchLength >= MIN_MATCH ==>
                 && matchStart < strstart && IsMatch(cfg, input, Now(), strstart - matchStart, matchLength)
                 && a.distance == strstart - matchStart && matchLength <= lookahead
      modifies this`tokens, this`why, this`strstart, this`lookahead, this`matchLength, this`insH, this`ins, this`since, this`events, head, prev
      ensures Fast() && Now() > old(Now()) && lookahead + MAX_MATCH >= old(lookahead) && SameBut(old(events), events, {})
    {
      hide Core, Told, IsMatch, Entered, Gapless, ProbeOk, Length, Account, Below, Bytes;
      if matchLength >= MIN_MATCH {
        TallyFast(a);
      } else {
        TallyLiteral(a);
      }
    }

    /** One turn of deflate_fast after the window was filled. */
    method FastStep()
      requires Fast() && Ample() && 0 < lookahead && strstart + MIN_LOOKAHEAD <= window.Length
      modifies this`tokens, this`why, this`strstart, this`lookahead, this`matchLength, this`matchStart, this`insH, this`ins,
               this`since, this`events, head, prev
      ensures Fast() && Now() > old(Now()) && lookahead + MAX_MATCH >= old(lookahead) && SameBut(old(events), events, {})
    {
      hide Core, Told, IsMatch, OnChain, HashAt, NoneBetween, Entered, Gapless, ProbeOk, Length, Account, Below, Bytes;
      ghost var known := ins;
      var hashHead := Look();
      EnteredStep(cfg, input, base, strstart, known, since, events, strstart, ins);
      ghost var a := SearchFast(hashHead);
      TallyFound(a);
    }

    /** A refill changes nothing about the tokens. */
    lemma RefillTells(held: nat, in0: seq<nat>, n: nat, lazy: bool)
      requires Valid() && held <= strstart && Told(cfg, tokens, in0, n) && in0 <= input && n + held == Now()
      requires Account(Level(lazy), in0, events, tokens, why, n)
      ensures Tells(held) && Reasoned(lazy, held)
    {
      hide Core, Account;
      ToldMore(cfg, tokens, in0, n, input[|in0|..]);
      AccountLater(Level(lazy), in0, input[|in0|..], events, events, tokens, why, n);
      assert in0 + input[|in0|..] == input;
    }

    /** Fill the window in deflate_fast. */
    method FillFast()
      requires Fast() && lookahead < MIN_LOOKAHEAD
      modifies this`matchStart, this`strstart, this`insert, this`base, this`lookahead, this`source, this`input,
               this`insH, this`ins, window, head, prev
      ensures Fast() && Now() == old(Now()) && strstart + MIN_LOOKAHEAD <= window.Length
      ensures input + source == old(input + source) && (lookahead < MIN_LOOKAHEAD ==> source == [])
      ensures old(Settled()) ==> Settled()
    {
      hide Core, Told, Account, Entered, Gapless, Bytes, Below;
      ghost var in0, now := input, Now();
      FillWindow();
      RefillTells(0, in0, now, false);
    }

    /** The output is full: strings that were incomplete when they were passed stay out of the dictionary. */
    ghost method LeaveOut(lazy: bool, held: nat)
      requires Valid() && Tidy() && Reasoned(lazy, held)
      modifies this`since, this`events
      ensures Tidy() && Settled() && Reasoned(lazy, held) && Valid()
      ensures events == if old(Settled()) then old(events) else Lost(old(events), Now())
    {
      hide Core, Account, Entered, Gapless;
      if !Settled() {
        EnteredBounds(cfg, input, base, strstart, ins, since, events);
        AccountLater(Level(lazy), input, [], events, Lost(events, Now()), tokens, why, Now() - held);
        assert input + [] == input;
        since, events := Now(), Lost(events, Now());
        EnteredAfresh(cfg, input, base, strstart, insert, ins, events);
      }
    }

    /** Two bytes ahead are enough to complete every string before. */
    lemma SettledAhead()
      requires Valid() && Knowing() && 2 <= lookahead
      ensures Settled()
    {
      hide Core, Entered, Gapless;
      ValidSizes();
      EnteredStep(cfg, input, base, strstart, ins, since, events, strstart, ins);
    }

    /** One turn of deflate_fast. */
    method FastTurn(flush: Flush) returns (turn: Turn)
      requires Fast() && (flush != NoFlush ==> |input + source| in events.stops) && (flush == NoFlush ==> Settled())
      modifies this, window, head, prev
      ensures Fast() && input + source == old(input + source) && (flush == NoFlush ==> Settled())
      ensures SameBut(old(events), events, {})
      ensures turn == Waiting ==> source == [] && flush == NoFlush
      ensures turn == Ended ==> lookahead == 0 && source == [] && flush != NoFlush
      ensures turn == Passing ==> Now() > old(Now())
    {
      hide Core, Told, IsMatch, Account, ProbeOk, Unbeaten, Length, Entered, Gapless, Bytes, Below;
      ValidSizes();
      if lookahead < MIN_LOOKAHEAD {
        FillFast();
        ValidSizes();
        if lookahead < MIN_LOOKAHEAD && flush == NoFlush { return Waiting; }
        if lookahead == 0 { return Ended; }
      }
      FastStep();
      ValidSizes();
      if flush == NoFlush { SettledAhead(); }
      turn := Passing;
    }

    /**
      deflate_fast: whatever the flush mode and however much output space there
      is, the tokens stand for the input up to the current string; unless the
      output was full, the whole input was read, and tallied too if it had to be.
      The output never gets full if it is `ample`, and may get full at any block
      otherwise.
     */
    method DeflateFast(flush: Flush, ample: bool) returns (state: BlockState, stalled: bool)
      requires Fast() && Settled() && (flush != NoFlush ==> |input + source| in events.stops)
      modifies this, window, head, prev
      ensures Fast() && Settled() && input + source == old(input + source)
      ensures (!stalled ==> source == []) && (ample ==> !stalled)
      ensures !stalled && flush != NoFlush ==> lookahead == 0
      ensures state == NeedMore && !stalled ==> flush == NoFlush
      ensures state == FinishDone || state == BlockDone ==> lookahead == 0 && source == [] && flush != NoFlush
      ensures SameBut(old(events), events, if stalled && flush != NoFlush then {Now()} else {})
    {
      hide Core, Told, Account, Entered, Gapless, Bytes, Below;
      ghost var all := input + source;
      while true
        invariant Fast() && input + source == all
        invariant SameBut(old(events), events, {}) && (flush == NoFlush ==> Settled())
        decreases |all| - Now()
      {
        var turn := FastTurn(flush);
        if turn == Waiting { return NeedMore, false; }
        if turn == Ended { break; }
        ValidSizes();
        var full: bool := *;
        if full && !ample {                                 // the block is full, and so is the output
          LeaveOut(false, 0);
          return NeedMore, true;
        }
      }
      state, stalled := EndBlock(flush, ample);
    }

    /** What both variants do when there is no more input. */
    method EndBlock(flush: Flush, ample: bool) returns (state: BlockState, stalled: bool)
      requires Valid() && Knowing() && lookahead == 0 && flush != NoFlush
      modifies this`insert
      ensures Valid() && Tidy() && Settled()
      ensures (state == NeedMore ==> stalled) && (ample ==> !stalled)
      ensures state == FinishDone || state == FinishStarted <==> flush == Finish
    {
      hide Core, Entered, Gapless;
      ValidSizes();
      CoreEnd(cfg, window[..], head[..], prev[..], insH, input, base, ins, strstart, strstart + lookahead, base + strstart);
      insert := Min(strstart, MIN_MATCH - 1);
      GaplessEnd(cfg, input, base, strstart, ins, since, events, insert);
      var full: bool := *;
      stalled := full && !ample;
      if flush == Finish {
        state := if stalled then FinishStarted else FinishDone;
      } else {
        state := if stalled then NeedMore else BlockDone;
      }
    }

    // ----- deflate_slow -------------------------------------------------------------------------

    ghost function Held(): nat
      reads this
    {
      if matchAvailable then 1 else 0
    }

    /** deflate_slow between steps: a match that may still be bettered starts at the byte held back. */
    ghost predicate Slow()
      reads this, window, head, prev
    {
      && Valid() && Tells(Held()) && MIN_MATCH - 1 <= matchLength <= MAX_MATCH
      && (matchLength >= MIN_MATCH ==> matchAvailable && IsMatch(cfg, input, Now() - 1, Before(), matchLength))
      && Tidy() && Reasoned(true, Held()) && HeldOk()
    }

    /** The look at the byte held back, and the match found there. */
    ghost predicate HeldOk()
      reads this
    {
      if matchAvailable then HeldLook(matchLength) && (matchLength >= MIN_MATCH ==> heldLook.distance == Before())
      else matchLength == MIN_MATCH - 1
    }

    ghost predicate HeldLook(length: nat)
      reads this
    {
      && ProbeOk(Level(true), input, events, heldLook) && Unbeaten(Level(true), heldLook)
      && heldLook.p + 1 == Now() && Length(Level(true), heldLook) == length
    }

    /** The look at the current string, with the match at the byte held back pending. */
    ghost predicate NextLook(a: Probe)
      reads this
    {
      ProbeOk(Level(true), input, events, a) && a.p == Now() && a.pending == prevLength
    }

    /** The byte before the current string is tallied as a literal: no match there, or a longer one here. */
    method TallyHeld(ghost a: Probe)
      requires Looked() && Tells(1) && Reasoned(true, 1) && HeldLook(prevLength) && NextLook(a)
      requires prevLength < MIN_MATCH || Length(Level(true), a) > prevLength
      modifies this`tokens, this`why
      ensures Tells(0) && Reasoned(true, 0)
    {
      hide Core, Told, Account, ProbeOk, Unbeaten, Length, Chosen;
      ghost var now := base + strstart;
      CoreSizes(cfg, window[..], head[..], prev[..], insH, input, base, ins, strstart + 1, strstart + lookahead, now);
      CurrentByte(cfg, window[..], head[..], prev[..], insH, input, base, ins, strstart + 1, strstart + lookahead, now, strstart - 1);
      ToldLiteral(cfg, tokens, input, now - 1);
      ghost var token, reason := Literal(window[strstart - 1]), Reason(heldLook, [a]);
      ChosenSlow(Level(true), input, events, token, heldLook, a);
      AccountMore(Level(true), input, events, tokens, why, now - 1, token, reason);
      tokens, why := tokens + [Literal(window[strstart - 1])], why + [reason];
    }

    /** Go to the next string and hold the current byte back. */
    method Advance()
      requires Looked() && Tells(0) && Reasoned(true, 0) && Knowing() && Ample() && (lookahead >= MIN_MATCH ==> Now() in ins)
      modifies this`strstart, this`lookahead
      ensures Valid() && Tells(1) && strstart == old(strstart) + 1 && Reasoned(true, 1) && Tidy() && lookahead + 1 == old(lookahead)
    {
      hide Core, Told, Account, Entered, Gapless;
      ghost var now := base + strstart;
      CoreLater(cfg, window[..], head[..], prev[..], insH, input, base, ins, strstart + 1, strstart + lookahead, now, now + 1);
      CoreKnown(cfg, window[..], head[..], prev[..], insH, input, base, ins, strstart + 1, strstart + lookahead, now);
      EnteredStep(cfg, input, base, strstart, ins, since, events, strstart + 1, ins);
      strstart := strstart + 1;
      lookahead := lookahead - 1;
    }

    /** Insert in the hash table all strings up to the end of the match, as far as they are complete. */
    method InsertLazy(maxInsert: nat, ghost end: nat)
      requires Apart() && Knows(strstart + 1, end, Now()) && prevLength >= 1 && maxInsert + MIN_MATCH == end
      modifies this`strstart, this`prevLength, this`insH, this`ins, head, prev
      ensures Knows(strstart, end, Now()) && strstart == old(strstart + prevLength) + 1 && prevLength == 0
      ensures old(ins) <= ins && forall q :: old(Now()) < q < Now() && q + MIN_MATCH <= base + end ==> q in ins
    {
      hide Core;
      ghost var stop, now := strstart + prevLength, Now();
      while prevLength != 0
        invariant Knows(strstart + 1, end, base + strstart) && strstart + prevLength == stop
        invariant old(ins) <= ins && forall q :: now < q <= base + strstart && q + MIN_MATCH <= base + end ==> q in ins
        decreases prevLength
      {
        CoreLater(cfg, window[..], head[..], prev[..], insH, input, base, ins, strstart + 1, end, base + strstart, base + strstart + 1);
        strstart := strstart + 1;
        if strstart <= maxInsert {
          var _ := InsertString(strstart, end, base + strstart);
        } else {
          CoreSkip(cfg, window[..], head[..], prev[..], insH, input, base, ins, strstart, end, base + strstart);
        }
        prevLength := prevLength - 1;
      }
      CoreLater(cfg, window[..], head[..], prev[..], insH, input, base, ins, strstart + 1, end, base + strstart, base + strstart + 1);
      strstart := strstart + 1;
    }

    /** Output the previous match: the current one is not better. */
    method TallyPrevious(ghost a: Probe)
      requires Looked() && Tells(1) && strstart < WORD && prevMatch < WORD
      requires IsMatch(cfg, input, Now() - 1, Sub32(strstart - 1, prevMatch), prevLength)
      requires Reasoned(true, 1) && HeldLook(prevLength) && heldLook.distance == Sub32(strstart - 1, prevMatch)
      requires NextLook(a) && Length(Level(true), a) <= prevLength
      modifies this`tokens, this`why
      ensures Told(cfg, tokens, input, Now() - 1 + prevLength)
      ensures Account(Level(true), input, events, tokens, why, Now() - 1 + prevLength)
    {
      hide Core, Told, IsMatch, Account, ProbeOk, Unbeaten, Length, Chosen;
      ghost var now := base + strstart;
      var distance := Sub32(strstart - 1, prevMatch);
      MatchRange(cfg, input, now - 1, distance, prevLength);
      ToldCopy(cfg, tokens, input, now - 1, distance, prevLength);
      ghost var token, reason := Copy(distance, prevLength), Reason(heldLook, [a]);
      ChosenSlow(Level(true), input, events, token, heldLook, a);
      AccountMore(Level(true), input, events, tokens, why, now - 1, token, reason);
      tokens, why := tokens + [Copy(distance, prevLength)], why + [reason];
    }

    /** Go to the end of the previous match, inserting its strings as far as they are complete. */
    method PassPrevious()
      requires Looked() && Knowing() && Ample() && (lookahead >= MIN_MATCH ==> Now() in ins)
      requires MIN_MATCH <= prevLength <= MAX_MATCH && prevLength - 1 <= lookahead && 1 <= strstart
      modifies this`strstart, this`lookahead, this`matchLength, this`matchAvailable, this`prevLength, this`insH, this`ins, head, prev
      ensures Valid() && Tidy() && Now() == old(Now() - 1 + prevLength)
      ensures !matchAvailable && matchLength == MIN_MATCH - 1 && lookahead + MAX_MATCH >= old(lookahead)
    {
      hide Core, Entered, Gapless;
      ghost var str, end, known, now := strstart, strstart + lookahead, ins, base + strstart;
      CoreSizes(cfg, window[..], head[..], prev[..], insH, input, base, ins, strstart + 1, end, now);
      CoreKnown(cfg, window[..], head[..], prev[..], insH, input, base, ins, strstart + 1, end, now);
      var maxInsert := strstart + lookahead - MIN_MATCH;
      lookahead := lookahead - (prevLength - 1);
      prevLength := prevLength - 2;
      InsertLazy(maxInsert, end);
      matchAvailable, matchLength := false, MIN_MATCH - 1;
      CoreBelow(cfg, window[..], head[..], prev[..], insH, input, base, ins, strstart, end, base + strstart);
      EnteredStep(cfg, input, base, str, known, since, events, strstart, ins);
    }

    /** Look for a match longer than the previous one, and drop a poor one. */
    method SearchLazy(hashHead: nat) returns (ghost a: Probe)
      requires Looked() && Knowing() && Ample() && strstart + MIN_LOOKAHEAD <= window.Length
      requires 2 <= prevLength <= MAX_MATCH && matchLength == MIN_MATCH - 1
      requires hashHead == 0 || (lookahead >= MIN_MATCH && hashHead < strstart
                                 && OnChain(cfg, input, base, ins, hashHead, HashAt(cfg, input, Now())))
      requires lookahead >= MIN_MATCH ==> NoneBetween(cfg, input, base, ins, HashAt(cfg, input, Now()), base + hashHead, Now())
      modifies this`matchLength, this`matchStart
      ensures matchStart < WORD && MIN_MATCH - 1 <= matchLength <= MAX_MATCH
      ensures matchLength > prevLength ==>
                matchStart < strstart && IsMatch(cfg, input, Now(), strstart - matchStart, matchLength) && a.distance == strstart - matchStart
      ensures ProbeOk(Level(true), input, events, a) && a.p == Now() && a.pending == prevLength
      ensures Length(Level(true), a) == if matchLength > prevLength then matchLength else 2
    {
      hide Core, IsMatch, OnChain, HashAt, NoneBetween, Walked, Entered, Scene, Result;
      CoreSizes(cfg, window[..], head[..], prev[..], insH, input, base, ins, strstart + 1, strstart + lookahead, base + strstart);
      CoreKnown(cfg, window[..], head[..], prev[..], insH, input, base, ins, strstart + 1, strstart + lookahead, base + strstart);
      if hashHead != 0 && prevLength < tuning.lazy && strstart - hashHead <= cfg.MaxDist() {
        ghost var visited;
        matchLength, visited := Search(hashHead, true);
        a := ProbeOf(base, since, ins, strstart, lookahead, prevLength, visited, matchLength, matchStart);
        WasSearched(Level(true), input, a);
        SceneIs(Level(true), input, events, base, since, ins, strstart, lookahead, prevLength, visited, matchLength, matchStart);
        if matchLength <= 5 && (filtered || (matchLength == MIN_MATCH && Sub32(strstart, matchStart) > TOO_FAR)) {
          matchLength := MIN_MATCH - 1;
        }
      } else {
        a := NoSearch(base, since, ins, strstart, lookahead, prevLength);
        NotSearched(Level(true), input, base, since, ins, strstart, lookahead, prevLength, hashHead);
        SceneIs(Level(true), input, events, base, since, ins, strstart, lookahead, prevLength, [], 2, strstart);
      }
    }

    /** Remember the previous match and look for a longer one at the current string. */
    method SearchBetter() returns (ghost a: Probe)
      requires Valid() && Knowing() && Ample()
      requires 0 < lookahead && strstart + MIN_LOOKAHEAD <= window.Length && MIN_MATCH - 1 <= matchLength <= MAX_MATCH
      modifies this`matchLength, this`matchStart, this`prevLength, this`prevMatch, this`insH, this`ins, head, prev
      ensures Looked() && Knowing() && prevLength == old(matchLength) && prevMatch == old(matchStart)
      ensures ins == if lookahead >= MIN_MATCH then old(ins) + {Now()} else old(ins)
      ensures MIN_MATCH - 1 <= matchLength <= MAX_MATCH
      ensures matchLength > prevLength ==>
                matchStart < strstart && IsMatch(cfg, input, Now(), strstart - matchStart, matchLength) && a.distance == strstart - matchStart
      ensures ProbeOk(Level(true), input, events, a) && a.p == Now() && a.pending == prevLength
      ensures Length(Level(true), a) == if matchLength > prevLength then matchLength else 2
    {
      hide Core, Told, IsMatch, OnChain, HashAt, NoneBetween, Entered, ProbeOk, Length, Below, Bytes;
      ghost var known := ins;
      var hashHead := Look();
      EnteredStep(cfg, input, base, strstart, known, since, events, strstart, ins);
      prevLength, prevMatch := matchLength, matchStart;
      matchLength := MIN_MATCH - 1;
      a := SearchLazy(hashHead);
    }

    /** Output the previous match and go to its end. */
    method TakePrevious(ghost a: Probe)
      requires Looked() && Tells(1) && strstart < WORD && prevMatch < WORD
      requires IsMatch(cfg, input, Now() - 1, Sub32(strstart - 1, prevMatch), prevLength)
      requires Reasoned(true, 1) && HeldLook(prevLength) && heldLook.distance == Sub32(strstart - 1, prevMatch)
      requires NextLook(a) && Length(Level(true), a) <= prevLength
      requires Knowing() && Ample() && (lookahead >= MIN_MATCH ==> Now() in ins)
      modifies this`tokens, this`why, this`strstart, this`lookahead, this`matchLength, this`matchAvailable, this`prevLength,
               this`insH, this`ins, head, prev
      ensures Slow() && Now() > old(Now()) && lookahead + MAX_MATCH >= old(lookahead)
    {
      hide Core, Told, IsMatch, Account, ProbeOk, Unbeaten, Length, Entered, Gapless, Below, Bytes;
      CoreKnown(cfg, window[..], head[..], prev[..], insH, input, base, ins, strstart + 1, strstart + lookahead, base + strstart);
      MatchRange(cfg, input, Now() - 1, Sub32(strstart - 1, prevMatch), prevLength);
      TallyPrevious(a);
      PassPrevious();
    }

    /** Hold the current byte back, with the match that was found at it. */
    method HoldBack(ghost a: Probe)
      requires Looked() && Tells(0) && Reasoned(true, 0) && Knowing() && Ample() && (lookahead >= MIN_MATCH ==> Now() in ins)
      requires NextLook(a) && MIN_MATCH - 1 <= matchLength <= MAX_MATCH
      requires prevLength == MIN_MATCH - 1 || matchLength > prevLength >= MIN_MATCH
      requires Length(Level(true), a) == if matchLength > prevLength then matchLength else 2
      requires matchLength > prevLength ==>
                 matchStart < strstart && IsMatch(cfg, input, Now(), strstart - matchStart, matchLength) && a.distance == strstart - matchStart
      modifies this`strstart, this`lookahead, this`matchAvailable, this`heldLook
      ensures Slow() && Now() == old(Now()) + 1 && lookahead + 1 == old(lookahead)
    {
      hide Core, Told, IsMatch, Account, ProbeOk, Length, Entered, Gapless, Below, Bytes;
      heldLook := a;
      matchAvailable := true;
      Advance();
      ValidSizes();
    }

    /** One turn of deflate_slow after the window was filled. */
    method SlowStep()
      requires Slow() && Ample() && 0 < lookahead && strstart + MIN_LOOKAHEAD <= window.Length
      modifies this`tokens, this`why, this`heldLook, this`strstart, this`lookahead, this`matchLength, this`matchStart,
               this`matchAvailable, this`prevLength, this`prevMatch, this`insH, this`ins, head, prev
      ensures Slow() && Now() > old(Now()) && lookahead + MAX_MATCH >= old(lookahead)
    {
      hide Core, Told, IsMatch, Account, ProbeOk, Unbeaten, Length, Entered, Gapless, Below, Bytes;
      ValidSizes();
      ghost var a := SearchBetter();
      if prevLength >= MIN_MATCH && matchLength <= prevLength {
        TakePrevious(a);
      } else {
        if matchAvailable { TallyHeld(a); }
        HoldBack(a);
      }
    }

    lemma RefillMatch(in0: seq<nat>, n: nat, d: nat)
      requires IsMatch(cfg, in0, n, d, matchLength) && in0 <= input
      ensures IsMatch(cfg, input, n, d, matchLength)
    {
      MatchMore(cfg, in0, n, d, matchLength, input[|in0|..]);
      assert in0 + input[|in0|..] == input;
    }

    lemma RefillLook(in0: seq<nat>, events0: Events)
      requires ProbeOk(Level(true), in0, events0, heldLook) && in0 <= input && Within(events0, events)
      ensures ProbeOk(Level(true), input, events, heldLook)
    {
      hide ProbeOk;
      ProbeMore(Level(true), in0, input[|in0|..], events0, events, heldLook);
      assert in0 + input[|in0|..] == input;
    }

    /** Fill the window in deflate_slow. */
    method FillSlow()
      requires Slow() && lookahead < MIN_LOOKAHEAD
      modifies this`matchStart, this`strstart, this`insert, this`base, this`lookahead, this`source, this`input,
               this`insH, this`ins, window, head, prev
      ensures Slow() && Now() == old(Now()) && strstart + MIN_LOOKAHEAD <= window.Length
      ensures input + source == old(input + source) && (lookahead < MIN_LOOKAHEAD ==> source == [])
      ensures old(Settled()) ==> Settled()
    {
      hide Core, Told, IsMatch, Account, ProbeOk, Unbeaten, Length, Entered, Gapless, Bytes, Below;
      ghost var in0, now, d := input, Now(), Before();
      FillWindow();
      RefillTells(Held(), in0, now - Held(), true);
      if matchAvailable { RefillLook(in0, events); }
      if matchLength >= MIN_MATCH { RefillMatch(in0, now - 1, d); }
    }

    /** Leave strings out in deflate_slow. */
    ghost method LeaveOutSlow()
      requires Slow()
      modifies this`since, this`events
      ensures Slow() && Settled()
      ensures events == if old(Settled()) then old(events) else Lost(old(events), Now())
    {
      hide Core, Told, IsMatch, Account, ProbeOk, Unbeaten, Length, Entered, Gapless, Bytes, Below;
      ghost var events0 := events;
      LeaveOut(true, Held());
      if matchAvailable { RefillLook(input, events0); }
    }

    /** One turn of deflate_slow. */
    method SlowTurn(flush: Flush) returns (turn: Turn)
      requires Slow() && (flush != NoFlush ==> |input + source| in events.stops) && (flush == NoFlush ==> Settled())
      modifies this, window, head, prev
      ensures Slow() && input + source == old(input + source) && (flush == NoFlush ==> Settled())
      ensures events == old(events)
      ensures turn == Waiting ==> source == [] && flush == NoFlush
      ensures turn == Ended ==> lookahead == 0 && source == [] && flush != NoFlush
      ensures turn == Passing ==> Now() > old(Now())
    {
      hide Core, Told, IsMatch, Account, ProbeOk, Unbeaten, Length, Entered, Gapless, Bytes, Below;
      ValidSizes();
      if lookahead < MIN_LOOKAHEAD {
        FillSlow();
        ValidSizes();
        if lookahead < MIN_LOOKAHEAD && flush == NoFlush { return Waiting; }
        if lookahead == 0 { return Ended; }
      }
      SlowStep();
      ValidSizes();
      if flush == NoFlush { SettledAhead(); }
      turn := Passing;
    }

    /**
      deflate_slow: the tokens stand for the input up to the current string, less
      the byte held back while a better match is looked for.
     */
    method DeflateSlow(flush: Flush, ample: bool) returns (state: BlockState, stalled: bool)
      requires Slow() && Settled() && (flush != NoFlush ==> |input + source| in events.stops)
      modifies this, window, head, prev
      ensures Slow() && Settled() && input + source == old(input + source)
      ensures (!stalled ==> source == []) && (ample ==> !stalled)
      ensures !stalled && flush != NoFlush ==> lookahead == 0 && !matchAvailable
      ensures state == NeedMore && !stalled ==> flush == NoFlush
      ensures state == FinishDone || state == BlockDone ==>
                lookahead == 0 && source == [] && !matchAvailable && flush != NoFlush
      ensures events.skips == old(events).skips && SameBut(old(events), events, if stalled && flush != NoFlush then {Now()} else {})
    {
      hide Core, Told, IsMatch, Account, ProbeOk, Unbeaten, Length, Entered, Gapless, Bytes, Below;
      ghost var all := input + source;
      while true
        invariant Slow() && input + source == all
        invariant events == old(events) && (flush == NoFlush ==> Settled())
        decreases |all| - Now()
      {
        var turn := SlowTurn(flush);
        if turn == Waiting { return NeedMore, false; }
        if turn == Ended { break; }
        ValidSizes();
        var full: bool := *;
        if full && !ample {
          LeaveOutSlow();
          return NeedMore, true;
        }
      }
      LastHeld();
      state, stalled := EndBlock(flush, ample);
    }

    /** At the end of the input the byte held back becomes a literal. */
    method LastHeld()
      requires Slow() && lookahead == 0
      modifies this`tokens, this`why, this`matchAvailable
      ensures Slow() && !matchAvailable
    {
      hide Core, Told, Account, ProbeOk, Unbeaten, Length, Entered, Gapless, Chosen, Bytes, Below;
      ValidSizes();
      if matchAvailable {
        ghost var now := base + strstart;
        CurrentByte(cfg, window[..], head[..], prev[..], insH, input, base, ins, strstart, strstart + lookahead, now, strstart - 1);
        ToldLiteral(cfg, tokens, input, now - 1);
        ChosenLast(Level(true), input, events, Literal(window[strstart - 1]), heldLook);
        AccountMore(Level(true), input, events, tokens, why, now - 1, Literal(window[strstart - 1]), Reason(heldLook, []));
        tokens, why := tokens + [Literal(window[strstart - 1])], why + [Reason(heldLook, [])];
        matchAvailable := false;
      }
    }

    // ----- deflate --------------------------------------------------------------------------------

    /** CLEAR_HASH */
    method ClearHash()
      modifies head
      ensures |head[..]| == head.Length && forall h :: 0 <= h < head.Length ==> head[..][h] == 0
    {
      forall i | 0 <= i < head.Length { head[i] := 0; }
    }

    /** Z_FULL_FLUSH: forget history, and start at the beginning of the window if it is empty. */
    method Forget(ghost lazy: bool)
      requires Valid() && Tells(0) && Reasoned(lazy, 0) && Knowing()
      modifies this`strstart, this`insert, this`base, this`ins, this`since, this`events, head
      ensures Valid() && Tells(0) && Now() == old(Now()) && Reasoned(lazy, 0) && Tidy() && Settled()
      ensures events == Lost(old(events), Now())
    {
      hide Core, Told, Account, Entered, Gapless, Bytes;
      ghost var w, h0, p0, end, now := window[..], head[..], prev[..], strstart + lookahead, base + strstart;
      ValidSizes();
      ClearHash();
      CoreClear(cfg, w, h0, p0, insH, input, base, ins, strstart, end, now, head[..]);
      EnteredBounds(cfg, input, base, strstart, ins, since, events);
      ins := {};
      StartAfresh(lazy);
      if lookahead == 0 { StartOver(lazy); }
    }

    /** Nothing is promised of the strings so far. */
    ghost method StartAfresh(lazy: bool)
      requires Reasoned(lazy, 0) && (base == 0 || cfg.wsize <= strstart + MIN_LOOKAHEAD || base in events.lost)
      modifies this`since, this`events
      ensures Reasoned(lazy, 0) && Tidy() && Settled() && since == Now() && events == Lost(old(events), Now())
    {
      hide Account, Entered, Gapless;
      AccountLater(Level(lazy), input, [], events, Lost(events, Now()), tokens, why, Now());
      assert input + [] == input;
      since, events := Now(), Lost(events, Now());
      EnteredAfresh(cfg, input, base, strstart, insert, ins, events);
    }

    /** An empty window may start anywhere. */
    method StartOver(ghost lazy: bool)
      requires Valid() && Tells(0) && Reasoned(lazy, 0) && lookahead == 0 && ins == {} && since == Now() && Now() in events.lost
      requires Core(cfg, window[..], head[..], prev[..], insH, input, |input|, {}, 0, 0, |input|)
      modifies this`strstart, this`insert, this`base
      ensures Valid() && Tells(0) && Now() == old(Now()) && Reasoned(lazy, 0) && Tidy() && Settled()
    {
      hide Core, Told, Account, Entered, Gapless, Bytes;
      ValidSizes();
      strstart, insert := 0, 0;
      base := |input|;
      EnteredAfresh(cfg, input, base, strstart, insert, ins, events);
    }

    lemma AllTold()
      requires Valid() && Tells(0) && lookahead == 0
      ensures Expand(tokens) == input && Now() == |input|
    {
      hide Core;
      ValidSizes();
    }

    /** What the tokens and their reasons are about, counting what is still to be read. */
    lemma Accounted(lazy: bool)
      requires Ready(lazy)
      ensures Account(Level(lazy), input + source, events, tokens, why, |Expand(tokens)|)
      ensures Expand(tokens) <= input && (lazy ==> events.skips == {})
      ensures InReach(tokens, cfg.wsize) && forall i :: 0 <= i < |tokens| ==> GoodToken(cfg, tokens[i])
    {
      hide Core, IsMatch, Account, ProbeOk, Unbeaten, Length, Entered, Gapless, Bytes, Below;
      AccountLater(Level(lazy), input, source, events, events, tokens, why, Now() - if lazy then Held() else 0);
    }

    /** deflate_slow or deflate_fast between calls, by the level. */
    ghost predicate Ready(lazy: bool)
      reads this, window, head, prev
    {
      Settled() && if lazy then Slow() && events.skips == {} else Fast()
    }

    /** A full flush between two steps. */
    method Restart(ghost lazy: bool)
      requires Ready(lazy) && !matchAvailable
      modifies this`strstart, this`insert, this`base, this`ins, this`since, this`events, head
      ensures Ready(lazy) && Now() == old(Now()) && events == Lost(old(events), Now())
    {
      hide Core, IsMatch, Told, Account, ProbeOk, Unbeaten, Length, Entered, Gapless, Bytes, Below;
      Forget(lazy);
    }

    /** New input. */
    method Accept(lazy: bool, chunk: seq<nat>)
      requires Ready(lazy) && HashChains.Bytes(chunk)
      modifies this`source
      ensures Ready(lazy) && input + source == old(input + source) + chunk
    {
      hide Core, IsMatch, Told, Account, ProbeOk, Unbeaten, Length, Entered, Gapless, Below;
      source := source + chunk;
    }

    /** Take note of a flush and of how much input there is. */
    ghost method Note(lazy: bool, e: nat)
      requires Ready(lazy)
      modifies this`events
      ensures Ready(lazy) && events == old(events).(stops := old(events).stops + {e})
    {
      hide Core, IsMatch, Told, Account, ProbeOk, Unbeaten, Length, Entered, Gapless, Bytes, Below;
      var events0 := events;
      events := events.(stops := events.stops + {e});
      AccountLater(Level(lazy), input, [], events0, events, tokens, why, Now() - Held());
      EnteredMore(cfg, input, base, strstart, ins, since, events0, events);
      assert input + [] == input;
      if lazy && matchAvailable { RefillLook(input, events0); }
    }

    /** The function of the level. */
    method RunLevel(lazy: bool, flush: Flush, ample: bool) returns (state: BlockState, stalled: bool)
      requires Ready(lazy) && (flush != NoFlush ==> |input + source| in events.stops)
      modifies this, window, head, prev
      ensures Ready(lazy) && input + source == old(input + source) && (!stalled ==> source == []) && (ample ==> !stalled)
      ensures !stalled && flush != NoFlush ==> Expand(tokens) == input && Now() == |input|
      ensures state == BlockDone ==> !matchAvailable
      ensures SameBut(old(events), events, if stalled && flush != NoFlush then {Now()} else {})
    {
      hide Core, IsMatch, Told, Account, ProbeOk, Unbeaten, Length, Entered, Gapless, Bytes, Below, SameBut;
      if lazy {
        state, stalled := DeflateSlow(flush, ample);
      } else {
        state, stalled := DeflateFast(flush, ample);
      }
      if !stalled && flush != NoFlush { AllTold(); }
    }

    /** One call of deflate with new input: the tokens stay a true account of the input, and each has its reason. */
    method Deflate(lazy: bool, chunk: seq<nat>, flush: Flush, ample: bool) returns (stalled: bool)
      requires Ready(lazy) && HashChains.Bytes(chunk)
      modifies this, window, head, prev
      ensures Ready(lazy) && input + source == old(input + source) + chunk
      ensures (!stalled ==> source == []) && (ample ==> !stalled)
      ensures !stalled && flush != NoFlush ==> Expand(tokens) == input && Now() == |input|
      ensures events.stops == old(events).stops + if flush != NoFlush then {|input + source|} else {}
      ensures old(events).lost <= events.lost <= old(events).lost + {Now()}
      ensures flush == NoFlush || (!stalled && flush != FullFlush) ==> events.lost == old(events).lost
    {
      hide Core, IsMatch, Told, Account, ProbeOk, Unbeaten, Length, Entered, Gapless, Bytes, Below;
      Accept(lazy, chunk);
      ValidSizes();
      stalled := false;
      if flush != NoFlush { Note(lazy, |input + source|); }
      if source != [] || lookahead != 0 || flush != NoFlush {
        var state;
        state, stalled := RunLevel(lazy, flush, ample);
        if state == BlockDone && flush == FullFlush {
          Restart(lazy);
        }
      }
    }
  }

  /** A flush was asked for with call i, when there were e bytes of input. */
  ghost predicate StopAt(chunks: seq<seq<nat>>, flushes: seq<Flush>, i: nat, e: nat)
    requires i < |chunks| == |flushes|
  {
    flushes[i] != NoFlush && e == |Concat(chunks[..i + 1])|
  }

  /** Calls that take all strings to the dictionary and leave it there. */
  predicate Orderly(flushes: seq<Flush>, ample: seq<bool>, n: nat)
    requires n <= |flushes| == |ample|
  {
    forall i :: 0 <= i < n ==> flushes[i] == NoFlush || (ample[i] && flushes[i] != FullFlush)
  }

  /** All calls but the last are without a flush, and the last one has room for its output. */
  predicate OneFlush(flushes: seq<Flush>, ample: seq<bool>)
    requires |flushes| == |ample|
  {
    && |flushes| > 0 && flushes[|flushes| - 1] != NoFlush && ample[|flushes| - 1]
    && forall i :: 0 <= i < |flushes| - 1 ==> flushes[i] == NoFlush
  }

  /** The events of the first n calls. */
  ghost predicate EventsOf(chunks: seq<seq<nat>>, flushes: seq<Flush>, ample: seq<bool>, n: nat, events: Events)
    requires n <= |chunks| == |flushes| == |ample|
  {
    && (forall e :: e in events.stops ==> exists i :: 0 <= i < n && StopAt(chunks, flushes, i, e))
    && (Orderly(flushes, ample, n) ==> events.lost == {})
    && (OneFlush(flushes, ample) ==> events.lost <= if n < |chunks| then {} else {|Concat(chunks)|})
  }

  lemma EventsMore(chunks: seq<seq<nat>>, flushes: seq<Flush>, ample: seq<bool>, n: nat, a: Events, b: Events, stalled: bool, now: nat)
    requires n < |chunks| == |flushes| == |ample| && EventsOf(chunks, flushes, ample, n, a)
    requires b.stops == a.stops + if flushes[n] != NoFlush then {|Concat(chunks[..n + 1])|} else {}
    requires a.lost <= b.lost <= a.lost + {now}
    requires flushes[n] == NoFlush || (!stalled && flushes[n] != FullFlush) ==> b.lost == a.lost
    requires (ample[n] ==> !stalled) && (!stalled && flushes[n] != NoFlush ==> now == |Concat(chunks[..n + 1])|)
    ensures EventsOf(chunks, flushes, ample, n + 1, b)
  {
    hide Concat;
    forall e | e in b.stops ensures exists i :: 0 <= i < n + 1 && StopAt(chunks, flushes, i, e) {
      if e in a.stops {
        var i :| 0 <= i < n && StopAt(chunks, flushes, i, e);
        assert StopAt(chunks, flushes, i, e);
      } else {
        assert StopAt(chunks, flushes, n, e);
      }
    }
    if n + 1 == |chunks| { assert chunks[..n + 1] == chunks; }
  }

  /** With one flush, at the end, everything happens at the end. */
  lemma EventsAtEnd(chunks: seq<seq<nat>>, flushes: seq<Flush>, ample: seq<bool>, events: Events)
    requires |chunks| == |flushes| == |ample| && EventsOf(chunks, flushes, ample, |chunks|, events) && OneFlush(flushes, ample)
    ensures OnlyAtEnd(|Concat(chunks)|, events)
  {
    hide Concat;
    forall e | e in events.stops ensures e == |Concat(chunks)| {
      var i :| 0 <= i < |chunks| && StopAt(chunks, flushes, i, e);
      assert chunks[..|chunks|] == chunks;
    }
  }

  /** Equal bytes come to few tokens. */
  lemma FewTokens(s: Setup, chunks: seq<seq<nat>>, flushes: seq<Flush>, ample: seq<bool>, events: Events, tokens: seq<Token>, why: seq<Reason>)
    requires |chunks| == |flushes| == |ample| && EventsOf(chunks, flushes, ample, |chunks|, events) && (s.lazy ==> events.skips == {})
    requires Account(s, Concat(chunks), events, tokens, why, |Expand(tokens)|) && s.tuning.Ok()
    ensures Same(Concat(chunks)) && OneFlush(flushes, ample) && Expand(tokens) == Concat(chunks) ==>
              |tokens| <= if s.lazy then |Concat(chunks)| / 258 + 8 else 2 * (|Concat(chunks)| / 258) + 9
  {
    hide Concat, Expand, Account, EventsOf, OneFlush, Same;
    if Same(Concat(chunks)) && OneFlush(flushes, ample) && Expand(tokens) == Concat(chunks) {
      EventsAtEnd(chunks, flushes, ample, events);
      if s.lazy {
        LazyRun(s, Concat(chunks), events, tokens, why);
      } else {
        GreedyRun(s, Concat(chunks), events, tokens, why);
      }
    }
  }

  lemma NoEvents(chunks: seq<seq<nat>>, flushes: seq<Flush>, ample: seq<bool>)
    requires |chunks| == |flushes| == |ample|
    ensures EventsOf(chunks, flushes, ample, 0, Events({}, {}, {}))
  {
  }

  /** A compressor before its first call. */
  method Begin(cfg: Config, tuning: Tuning, filtered: bool, lazy: bool) returns (d: Deflater)
    requires cfg.Ok() && tuning.Ok()
    ensures fresh(d) && fresh(d.window) && fresh(d.head) && fresh(d.prev)
    ensures d.cfg == cfg && d.tuning == tuning && d.filtered == filtered
    ensures d.Ready(lazy) && d.input == d.source == [] && d.tokens == [] && d.events == Events({}, {}, {})
  {
    hide Core, IsMatch, Expand, Account, Entered, Gapless, Bytes, Below;
    d := new Deflater(cfg, tuning, filtered);
    NothingTold(cfg);
    NoAccount(d.Level(lazy), []);
  }

  lemma NothingTold(cfg: Config)
    ensures Told(cfg, [], [], 0) && Expand([]) == []
  {
  }

  /**
    A whole run: for every division of the input into chunks and every flush
    mode of each call, the tokens stand for a prefix of the input, and for all of
    it when the last call was to flush and was not stopped by a full output, as it
    never is when that output is ample.  Every token has its reason, and equal bytes,
    however divided, come to few tokens.
   */
  method Compress(cfg: Config, tuning: Tuning, filtered: bool, lazy: bool, chunks: seq<seq<nat>>, flushes: seq<Flush>, ample: seq<bool>)
    returns (tokens: seq<Token>, done: bool, ghost why: seq<Reason>, ghost events: Events)
    requires cfg.Ok() && tuning.Ok() && |flushes| == |ample| == |chunks|
    requires forall i :: 0 <= i < |chunks| ==> HashChains.Bytes(chunks[i])
    ensures Expand(tokens) <= Concat(chunks)
    ensures done ==> Expand(tokens) == Concat(chunks)
    ensures |chunks| > 0 && ample[|chunks| - 1] && flushes[|chunks| - 1] != NoFlush ==> done
    ensures InReach(tokens, cfg.wsize) && forall i :: 0 <= i < |tokens| ==> GoodToken(cfg, tokens[i])
    ensures Account(Setup(cfg, tuning, filtered, lazy), Concat(chunks), events, tokens, why, |Expand(tokens)|)
    ensures EventsOf(chunks, flushes, ample, |chunks|, events) && (lazy ==> events.skips == {})
    ensures Same(Concat(chunks)) && OneFlush(flushes, ample) ==>
              |tokens| <= if lazy then |Concat(chunks)| / 258 + 8 else 2 * (|Concat(chunks)| / 258) + 9
  {
    hide Core, IsMatch, Expand, GoodToken, InReach, Account, ProbeOk, Unbeaten, Length, Entered, Gapless, Below, EventsOf;
    var d := Begin(cfg, tuning, filtered, lazy);
    NoEvents(chunks, flushes, ample);
    NothingTold(cfg);
    done := true;
    var i := 0;
    while i < |chunks|
      invariant 0 <= i <= |chunks| && d.cfg == cfg && d.tuning == tuning && d.filtered == filtered
      invariant fresh(d) && fresh(d.window) && fresh(d.head) && fresh(d.prev)
      invariant d.Ready(lazy) && d.input + d.source == Concat(chunks[..i])
      invariant done ==> Expand(d.tokens) == d.input && d.source == []
      invariant i > 0 && ample[i - 1] && flushes[i - 1] != NoFlush ==> done
      invariant EventsOf(chunks, flushes, ample, i, d.events)
    {
      ghost var before := d.events;
      var stalled := d.Deflate(lazy, chunks[i], flushes[i], ample[i]);
      done := !stalled && flushes[i] != NoFlush;
      assert chunks[..i + 1][..i] == chunks[..i];
      EventsMore(chunks, flushes, ample, i, before, d.events, stalled, d.Now());
      i := i + 1;
    }
    assert chunks[..i] == chunks;
    d.Accounted(lazy);
    tokens, why, events := d.tokens, d.why, d.events;
    FewTokens(d.Level(lazy), chunks, flushes, ample, events, tokens, why);
  }
}
