/**
  Why deflate_fast and deflate_slow of deps/zlib/deflate.c tally what they tally.  A
  probe is one look at a string: what the dictionary held, which strings
  longest_match visited and what came of it.  A reason is the probe at the start of a
  token, and with lazy matching the one at the byte behind it.
 */
module Matching {
  import opened Bits
  import opened HashChains
  import opened Lz77
  import opened LongestMatch

  const TOO_FAR: nat := 4096

  /** What the level fixes. */
  datatype Setup = Setup(cfg: Config, tuning: Tuning, filtered: bool, lazy: bool)

  /**
    A look at the string at position p when `end` bytes were read: the dictionary holds
    `known`, and every complete string from `since` on; strings up to `low` are not
    used.  `pending` is the length of the match at p - 1, `found` the length that
    longest_match gives, or 2 without a search.
   */
  datatype Probe = Probe(p: nat, end: nat, low: nat, since: nat, known: set<nat>, pending: nat,
                         visited: seq<nat>, found: nat, distance: nat)

  datatype Reason = Reason(look: Probe, next: seq<Probe>)

  /**
    What happened during a run: how much input there was when a flush was asked for,
    where strings were lost to the dictionary because it was cleared or the output was
    full, and where matches end whose strings deflate_fast did not enter.
   */
  datatype Events = Events(stops: set<nat>, lost: set<nat>, skips: set<nat>)

  /** Where the dictionary may start afresh. */
  function Starts(events: Events): set<nat> {
    events.lost + events.skips
  }

  ghost predicate Within(a: Events, b: Events) {
    a.stops <= b.stops && a.lost <= b.lost && a.skips <= b.skips
  }

  function Skipped(events: Events, e: nat): Events {
    events.(skips := events.skips + {e})
  }

  function Lost(events: Events, e: nat): Events {
    events.(lost := events.lost + {e})
  }

  /** The events are the same, apart from skips, and strings lost at some of the positions given. */
  ghost predicate SameBut(a: Events, b: Events, where: set<nat>) {
    b.stops == a.stops && a.lost <= b.lost <= a.lost + where
  }

  // ----- one probe ------------------------------------------------------------------------------

  /** A string that the search may use: earlier, in the dictionary, in reach, with the same hash. */
  ghost predicate Usable(cfg: Config, input: seq<nat>, a: Probe, q: nat) {
    && q in a.known && a.low < q < a.p && a.p - q <= cfg.wsize - MIN_LOOKAHEAD
    && HashAt(cfg, input, q) == HashAt(cfg, input, a.p)
  }

  /** The strings at q and p agree for n bytes of what was read. */
  ghost predicate AgreesFor(input: seq<nat>, a: Probe, q: nat, n: nat) {
    n <= MAX_MATCH && a.p + n <= a.end && Agree(input, q, a.p, n)
  }

  ghost predicate NotLonger(input: seq<nat>, a: Probe, q: nat) {
    forall n: nat :: AgreesFor(input, a, q, n) ==> n <= a.found
  }

  function ChainLimit(tuning: Tuning, pending: nat): nat {
    if pending >= tuning.good then tuning.chain / 4 else tuning.chain
  }

  /** The search may stop early: the match is nice, or reaches to the end of what was read, or the chain is too long. */
  ghost predicate MayStop(tuning: Tuning, a: Probe) {
    a.found >= tuning.nice || a.found == a.end - a.p || |a.visited| == ChainLimit(tuning, a.pending)
  }

  /**
    A string not visited is before all those visited, and the search stopped early; or it
    is at the largest distance of all, where only the first string of a chain is used.
   */
  ghost predicate Passed(s: Setup, a: Probe, q: nat)
    requires a.visited != []
  {
    q in a.visited || a.p == q + (s.cfg.wsize - MIN_LOOKAHEAD) || (q < a.visited[|a.visited| - 1] && MayStop(s.tuning, a))
  }

  ghost predicate VisitOk(cfg: Config, input: seq<nat>, a: Probe, i: nat)
    requires i < |a.visited|
  {
    && Usable(cfg, input, a, a.visited[i]) && NotLonger(input, a, a.visited[i])
    && (i > 0 ==> a.visited[i] < a.visited[i - 1])
  }

  /** The search: the longest of the latest strings with the hash, if it is longer than the pending match. */
  ghost predicate Walked(s: Setup, input: seq<nat>, a: Probe) {
    && 0 < |a.visited| <= ChainLimit(s.tuning, a.pending)
    && (forall i :: 0 <= i < |a.visited| ==> VisitOk(s.cfg, input, a, i))
    && (forall q :: Usable(s.cfg, input, a, q) ==> q <= a.visited[0] && Passed(s, a, q))
    && 2 <= a.found <= MAX_MATCH && a.p + a.found <= a.end
    && (a.found > a.pending ==>
          1 <= a.distance <= a.p && a.p - a.distance in a.visited && AgreesFor(input, a, a.p - a.distance, a.found))
  }

  /** A match is too poor: of the filtered strategy, or of three bytes from far away. */
  predicate Dropped(s: Setup, found: nat, distance: nat) {
    s.lazy && found <= 5 && (s.filtered || (found == MIN_MATCH && distance > TOO_FAR))
  }

  /** The length of the match to go on with: a longer one than the pending one, or none. */
  function Length(s: Setup, a: Probe): nat {
    if a.found <= a.pending || Dropped(s, a.found, a.distance) then 2 else a.found
  }

  /** Whether there is a search at all. */
  ghost predicate Searches(s: Setup, input: seq<nat>, a: Probe) {
    a.p + 3 <= a.end && a.pending < s.tuning.lazy && exists q :: Usable(s.cfg, input, a, q)
  }

  /** What was read and what the dictionary holds at a probe. */
  ghost predicate Scene(s: Setup, input: seq<nat>, events: Events, a: Probe) {
    && s.cfg.Ok() && a.low <= a.p < a.end <= |input| && 2 <= a.pending <= MAX_MATCH
    && (a.p + MIN_LOOKAHEAD <= a.end || a.end in events.stops)
    && (forall q :: q in a.known ==> q + 3 <= a.end)
    && (forall q :: a.since <= q < a.p && q + 3 <= a.end ==> q in a.known)
    && a.since <= a.p && (a.since == 0 || a.since in Starts(events))
    && (a.low == 0 || a.low + (s.cfg.wsize - MIN_LOOKAHEAD) <= a.p || a.low in events.lost)
  }

  ghost predicate Result(s: Setup, input: seq<nat>, a: Probe) {
    if Searches(s, input, a) then Walked(s, input, a) else a.found == 2
  }

  ghost predicate ProbeOk(s: Setup, input: seq<nat>, events: Events, a: Probe) {
    Scene(s, input, events, a) && Result(s, input, a)
  }

  // ----- why a token was tallied ------------------------------------------------------------------

  function Size(token: Token): nat {
    match token
    case Literal(_) => 1
    case Copy(_, length) => length
  }

  /** The pending match did not win over the one that starts here. */
  predicate Unbeaten(s: Setup, a: Probe) {
    a.pending < MIN_MATCH || Length(s, a) > a.pending
  }

  /** With lazy matching the next string is looked at too, with the match here pending. */
  ghost predicate NextOk(s: Setup, input: seq<nat>, events: Events, a: Probe, next: Probe) {
    ProbeOk(s, input, events, next) && next.p == a.p + 1 && next.pending == Length(s, a)
  }

  /**
    A literal is tallied when no match was found at it, or a longer one at the next byte;
    a match when it was found and, with lazy matching, there is none longer at the next byte.
   */
  ghost predicate Chosen(s: Setup, input: seq<nat>, events: Events, token: Token, why: Reason) {
    && ProbeOk(s, input, events, why.look) && Unbeaten(s, why.look)
    && |why.next| <= 1 && (why.next != [] ==> NextOk(s, input, events, why.look, why.next[0]))
    && match token
       case Literal(_) =>
         Length(s, why.look) < MIN_MATCH || (why.next != [] && Length(s, why.next[0]) > Length(s, why.look))
       case Copy(distance, length) =>
         && length >= MIN_MATCH && Length(s, why.look) == length && why.look.distance == distance
         && (s.lazy ==> why.next != [] && Length(s, why.next[0]) <= length)
  }

  ghost predicate ChosenAt(s: Setup, input: seq<nat>, events: Events, tokens: seq<Token>, why: seq<Reason>, i: nat)
    requires i < |tokens| == |why|
  {
    && Chosen(s, input, events, tokens[i], why[i])
    && why[i].look.p == End(tokens, why, i)
  }

  /** Where the first i tokens end. */
  function End(tokens: seq<Token>, why: seq<Reason>, i: nat): nat
    requires i <= |tokens| == |why|
  {
    if i == 0 then 0 else why[i - 1].look.p + Size(tokens[i - 1])
  }

  /** Every one of the tokens, which end at n, was tallied for its reason. */
  ghost predicate Explained(s: Setup, input: seq<nat>, events: Events, tokens: seq<Token>, why: seq<Reason>, n: nat) {
    |why| == |tokens| && End(tokens, why, |tokens|) == n
    && forall i :: 0 <= i < |tokens| ==> ChosenAt(s, input, events, tokens, why, i)
  }

  lemma ExplainedMore(s: Setup, input: seq<nat>, events: Events, tokens: seq<Token>, why: seq<Reason>, n: nat,
                      token: Token, reason: Reason)
    requires Explained(s, input, events, tokens, why, n) && Chosen(s, input, events, token, reason) && reason.look.p == n
    ensures Explained(s, input, events, tokens + [token], why + [reason], n + Size(token))
  {
    hide Chosen;
    var more, whys := tokens + [token], why + [reason];
    forall i | 0 <= i < |more| ensures ChosenAt(s, input, events, more, whys, i) {
      if i < |tokens| { assert ChosenAt(s, input, events, tokens, why, i); }
    }
  }

  // ----- more input, more events ---------------------------------------------------------------------

  lemma AgreesMore(input: seq<nat>, more: seq<nat>, a: Probe, q: nat, n: nat)
    requires a.end <= |input| && q <= a.p
    ensures AgreesFor(input + more, a, q, n) <==> AgreesFor(input, a, q, n)
  {
    var all := input + more;
    if a.p + n <= a.end {
      forall k | 0 <= k < n ensures EqualAt(all, q, a.p, k) <==> EqualAt(input, q, a.p, k) { }
    }
  }

  lemma UsableMore(cfg: Config, input: seq<nat>, more: seq<nat>, a: Probe, q: nat)
    requires a.end <= |input| && a.p + 3 <= a.end && (q in a.known ==> q + 3 <= a.end)
    ensures Usable(cfg, input + more, a, q) <==> Usable(cfg, input, a, q)
  {
    SameHash(cfg, input, a.p, more);
    if q in a.known { SameHash(cfg, input, q, more); }
  }

  lemma NotLongerMore(input: seq<nat>, more: seq<nat>, a: Probe, q: nat)
    requires a.end <= |input| && q <= a.p && NotLonger(input, a, q)
    ensures NotLonger(input + more, a, q)
  {
    forall n: nat | AgreesFor(input + more, a, q, n) ensures n <= a.found { AgreesMore(input, more, a, q, n); }
  }

  lemma VisitMore(cfg: Config, input: seq<nat>, more: seq<nat>, a: Probe, i: nat)
    requires i < |a.visited| && VisitOk(cfg, input, a, i)
    requires a.end <= |input| && a.p + 3 <= a.end && forall q :: q in a.known ==> q + 3 <= a.end
    ensures VisitOk(cfg, input + more, a, i)
  {
    hide NotLonger;
    UsableMore(cfg, input, more, a, a.visited[i]);
    NotLongerMore(input, more, a, a.visited[i]);
  }

  lemma WalkedMore(s: Setup, input: seq<nat>, more: seq<nat>, a: Probe)
    requires Walked(s, input, a)
    requires a.end <= |input| && a.p + 3 <= a.end && forall q :: q in a.known ==> q + 3 <= a.end
    ensures Walked(s, input + more, a)
  {
    hide VisitOk, Usable, AgreesFor, Passed;
    forall i | 0 <= i < |a.visited| ensures VisitOk(s.cfg, input + more, a, i) { VisitMore(s.cfg, input, more, a, i); }
    forall q | Usable(s.cfg, input + more, a, q) ensures q <= a.visited[0] && Passed(s, a, q) { UsableMore(s.cfg, input, more, a, q); }
    if a.found > a.pending { AgreesMore(input, more, a, a.p - a.distance, a.found); }
  }

  lemma SearchesMore(s: Setup, input: seq<nat>, more: seq<nat>, a: Probe)
    requires a.end <= |input| && forall q :: q in a.known ==> q + 3 <= a.end
    ensures Searches(s, input + more, a) <==> Searches(s, input, a)
  {
    hide Usable;
    if a.p + 3 <= a.end {
      forall q ensures Usable(s.cfg, input + more, a, q) <==> Usable(s.cfg, input, a, q) { UsableMore(s.cfg, input, more, a, q); }
    }
  }

  lemma ProbeMore(s: Setup, input: seq<nat>, more: seq<nat>, events: Events, events1: Events, a: Probe)
    requires ProbeOk(s, input, events, a) && Within(events, events1)
    ensures ProbeOk(s, input + more, events1, a)
  {
    hide Usable, Walked, Searches;
    SearchesMore(s, input, more, a);
    if Searches(s, input, a) {
      SearchCondition(s, input, a);
      WalkedMore(s, input, more, a);
    }
  }

  lemma SearchCondition(s: Setup, input: seq<nat>, a: Probe)
    requires Searches(s, input, a)
    ensures a.p + 3 <= a.end && a.pending < s.tuning.lazy
  {
  }

  /** Reasons stay good as input is read and events are added. */
  lemma ExplainedLater(s: Setup, input: seq<nat>, more: seq<nat>, events: Events, events1: Events,
                       tokens: seq<Token>, why: seq<Reason>, n: nat)
    requires Explained(s, input, events, tokens, why, n) && Within(events, events1)
    ensures Explained(s, input + more, events1, tokens, why, n)
  {
    hide ProbeOk, Unbeaten;
    forall i | 0 <= i < |tokens| ensures ChosenAt(s, input + more, events1, tokens, why, i) {
      assert ChosenAt(s, input, events, tokens, why, i);
      ProbeMore(s, input, more, events, events1, why[i].look);
      if why[i].next != [] { ProbeMore(s, input, more, events, events1, why[i].next[0]); }
    }
  }

  // ----- from the walk of longest_match to the search of a probe ------------------------------------------

  /** The limit of longest_match. */
  function Limit(cfg: Config, strstart: nat): nat {
    if cfg.wsize < MIN_LOOKAHEAD || strstart <= cfg.wsize - MIN_LOOKAHEAD then 0 else strstart - (cfg.wsize - MIN_LOOKAHEAD)
  }

  /** All strings visited are candidates, from later to earlier ones. */
  lemma {:induction false} VisitedAreCandidates(cfg: Config, w: seq<nat>, head: seq<nat>, prev: seq<nat>, input: seq<nat>, base: nat,
                                                ins: set<nat>, strstart: nat, lookahead: nat, visited: seq<nat>, i: nat)
    requires Searchable(cfg, w, head, prev, input, base, ins, strstart, lookahead)
    requires Walk(prev, cfg.wsize, Limit(cfg, strstart), visited)
    requires Candidate(cfg, input, base, ins, strstart, visited[0]) && i < |visited|
    ensures Candidate(cfg, input, base, ins, strstart, visited[i]) && (i > 0 ==> visited[i] < visited[i - 1])
    decreases i
  {
    hide Searchable, Candidate;
    if i > 0 {
      VisitedAreCandidates(cfg, w, head, prev, input, base, ins, strstart, lookahead, visited, i - 1);
      SearchSizes(cfg, w, head, prev, input, base, ins, strstart, lookahead);
      NextCandidate(cfg, w, head, prev, input, base, ins, strstart, lookahead, visited[i - 1], Limit(cfg, strstart));
      assert StepOf(prev, cfg.wsize, Limit(cfg, strstart), visited, i);
    }
  }

  /** The next string of the chain is the latest one before with the same hash. */
  lemma NoneSkippedAt(cfg: Config, w: seq<nat>, head: seq<nat>, prev: seq<nat>, input: seq<nat>, base: nat,
                      ins: set<nat>, strstart: nat, lookahead: nat, cur: nat)
    requires Searchable(cfg, w, head, prev, input, base, ins, strstart, lookahead)
    requires Candidate(cfg, input, base, ins, strstart, cur)
    ensures |prev| == cfg.wsize > 0
    ensures NoneBetween(cfg, input, base, ins, HashAt(cfg, input, base + strstart), base + prev[cur % cfg.wsize], base + cur)
  {
    hide Dict, HashAt;
    DictOk(cfg, head, prev, input, base, ins, base + strstart);
    WalkOn(cfg, head, prev, input, base, ins, base + strstart, cur, HashAt(cfg, input, base + strstart));
  }

  /** Down to the string visited as number i none is left out. */
  lemma {:induction false} NoneLeftOut(cfg: Config, w: seq<nat>, head: seq<nat>, prev: seq<nat>, input: seq<nat>, base: nat,
                                       ins: set<nat>, strstart: nat, lookahead: nat, visited: seq<nat>, i: nat, q: nat)
    requires Searchable(cfg, w, head, prev, input, base, ins, strstart, lookahead)
    requires Walk(prev, cfg.wsize, Limit(cfg, strstart), visited)
    requires Candidate(cfg, input, base, ins, strstart, visited[0]) && i < |visited|
    requires NoneBetween(cfg, input, base, ins, HashAt(cfg, input, base + strstart), base + visited[0], base + strstart)
    requires q in ins && base + visited[i] <= q < base + strstart && HashAt(cfg, input, q) == HashAt(cfg, input, base + strstart)
    ensures q - base in visited
    decreases i
  {
    hide Searchable, Candidate, HashAt;
    VisitedAreCandidates(cfg, w, head, prev, input, base, ins, strstart, lookahead, visited, i);
    CandidateSizes(cfg, input, base, ins, strstart, visited[i]);
    if q == base + visited[i] {
    } else if i == 0 {
      assert false;
    } else if q < base + visited[i - 1] {
      VisitedAreCandidates(cfg, w, head, prev, input, base, ins, strstart, lookahead, visited, i - 1);
      assert StepOf(prev, cfg.wsize, Limit(cfg, strstart), visited, i);
      NoneSkippedAt(cfg, w, head, prev, input, base, ins, strstart, lookahead, visited[i - 1]);
      assert false;
    } else {
      NoneLeftOut(cfg, w, head, prev, input, base, ins, strstart, lookahead, visited, i - 1, q);
    }
  }

  lemma EqualInWindow(w: seq<nat>, input: seq<nat>, base: nat, end: nat, cur: nat, strstart: nat, k: nat)
    requires WindowOk(w, input, base, end) && cur + k < end && strstart + k < end
    ensures EqualAt(w, cur, strstart, k) <==> EqualAt(input, base + cur, base + strstart, k)
  {
    assert w[cur + k] == input[base + (cur + k)] && w[strstart + k] == input[base + (strstart + k)];
  }

  /** What is known of the window bounds how far strings of the input agree. */
  lemma WindowBound(w: seq<nat>, input: seq<nat>, base: nat, strstart: nat, lookahead: nat, cur: nat, best: nat, n: nat)
    requires WindowOk(w, input, base, strstart + lookahead) && cur < strstart && NoLonger(w, cur, strstart, best)
    requires n <= MAX_MATCH && n <= lookahead && Agree(input, base + cur, base + strstart, n)
    ensures n <= best
  {
    if best < n {
      var k :| 0 <= k <= best && cur + k < |w| && strstart + k < |w| && !EqualAt(w, cur, strstart, k);
      assert EqualAt(input, base + cur, base + strstart, k);
      EqualInWindow(w, input, base, strstart + lookahead, cur, strstart, k);
    }
  }

  /** The probe that a search makes. */
  function ProbeOf(base: nat, since: nat, ins: set<nat>, strstart: nat, lookahead: nat, pending: nat, visited: seq<nat>,
                   found: nat, start: nat): Probe
  {
    Probe(base + strstart, base + strstart + lookahead, base, since, ins, pending, seq(|visited|, i requires 0 <= i < |visited| => base + visited[i]),
          found, if start < strstart then strstart - start else 0)
  }

  lemma VisitIs(cfg: Config, w: seq<nat>, input: seq<nat>, base: nat, since: nat, ins: set<nat>, strstart: nat, lookahead: nat,
                pending: nat, visited: seq<nat>, best: nat, found: nat, start: nat, i: nat)
    requires WindowOk(w, input, base, strstart + lookahead) && i < |visited| && NoLonger(w, visited[i], strstart, best)
    requires Candidate(cfg, input, base, ins, strstart, visited[i]) && (i > 0 ==> visited[i] < visited[i - 1])
    requires found == if best <= lookahead then best else lookahead
    ensures VisitOk(cfg, input, ProbeOf(base, since, ins, strstart, lookahead, pending, visited, found, start), i)
  {
    hide HashAt, NoLonger;
    var a := ProbeOf(base, since, ins, strstart, lookahead, pending, visited, found, start);
    forall n: nat | AgreesFor(input, a, a.visited[i], n) ensures n <= found {
      WindowBound(w, input, base, strstart, lookahead, visited[i], best, n);
    }
  }

  /** The strings not visited. */
  lemma PassedIs(s: Setup, w: seq<nat>, head: seq<nat>, prev: seq<nat>, input: seq<nat>, base: nat, since: nat, ins: set<nat>,
                 strstart: nat, lookahead: nat, pending: nat, visited: seq<nat>, found: nat, start: nat, q: nat)
    requires Searchable(s.cfg, w, head, prev, input, base, ins, strstart, lookahead)
    requires Walk(prev, s.cfg.wsize, Limit(s.cfg, strstart), visited)
    requires Candidate(s.cfg, input, base, ins, strstart, visited[0])
    requires NoneBetween(s.cfg, input, base, ins, HashAt(s.cfg, input, base + strstart), base + visited[0], base + strstart)
    requires var a := ProbeOf(base, since, ins, strstart, lookahead, pending, visited, found, start);
             Usable(s.cfg, input, a, q) && (MayStop(s.tuning, a) || prev[visited[|visited| - 1] % s.cfg.wsize] <= Limit(s.cfg, strstart))
    ensures var a := ProbeOf(base, since, ins, strstart, lookahead, pending, visited, found, start);
            q <= a.visited[0] && Passed(s, a, q)
  {
    hide Searchable, HashAt, MayStop;
    var a := ProbeOf(base, since, ins, strstart, lookahead, pending, visited, found, start);
    var last := |visited| - 1;
    if base + visited[last] <= q {
      NoneLeftOut(s.cfg, w, head, prev, input, base, ins, strstart, lookahead, visited, last, q);
      var i :| 0 <= i <= last && visited[i] == q - base;
      assert a.visited[i] == q;
    } else if !MayStop(s.tuning, a) {
      VisitedAreCandidates(s.cfg, w, head, prev, input, base, ins, strstart, lookahead, visited, last);
      NoneSkippedAt(s.cfg, w, head, prev, input, base, ins, strstart, lookahead, visited[last]);
    }
  }

  /** What longest_match ensures makes a search of a probe. */
  lemma WalkedIs(s: Setup, w: seq<nat>, head: seq<nat>, prev: seq<nat>, input: seq<nat>, base: nat, since: nat, ins: set<nat>,
                 strstart: nat, lookahead: nat, pending: nat, visited: seq<nat>, best: nat, found: nat, start: nat)
    requires Searchable(s.cfg, w, head, prev, input, base, ins, strstart, lookahead)
    requires 0 < |visited| <= ChainLimit(s.tuning, pending) && Candidate(s.cfg, input, base, ins, strstart, visited[0])
    requires NoneBetween(s.cfg, input, base, ins, HashAt(s.cfg, input, base + strstart), base + visited[0], base + strstart)
    requires Walk(prev, s.cfg.wsize, Limit(s.cfg, strstart), visited) && NoneLonger(w, visited, strstart, best)
    requires || best >= s.tuning.nice || best >= lookahead || |visited| == ChainLimit(s.tuning, pending)
             || prev[visited[|visited| - 1] % s.cfg.wsize] <= Limit(s.cfg, strstart)
    requires 2 <= pending <= best <= MAX_MATCH && found == (if best <= lookahead then best else lookahead)
    requires best > pending ==> start < strstart && start in visited && Agree(input, base + start, base + strstart, found)
    ensures Walked(s, input, ProbeOf(base, since, ins, strstart, lookahead, pending, visited, found, start))
  {
    hide Dict, HashAt, NoLonger, Walk, WindowOk, Agree, NoneBetween, VisitOk, Usable, Passed, Candidate, Bytes;
    var a := ProbeOf(base, since, ins, strstart, lookahead, pending, visited, found, start);
    forall i | 0 <= i < |visited| ensures VisitOk(s.cfg, input, a, i) {
      VisitedAreCandidates(s.cfg, w, head, prev, input, base, ins, strstart, lookahead, visited, i);
      VisitIs(s.cfg, w, input, base, since, ins, strstart, lookahead, pending, visited, best, found, start, i);
    }
    forall q | Usable(s.cfg, input, a, q) ensures q <= a.visited[0] && Passed(s, a, q) {
      PassedIs(s, w, head, prev, input, base, since, ins, strstart, lookahead, pending, visited, found, start, q);
    }
    if best > pending {
      var i :| 0 <= i < |visited| && visited[i] == start;
      assert a.visited[i] == base + start;
    }
  }

  // ----- what the compressor keeps about its dictionary and its reasons -------------------------------------

  /** Every complete string since `since` was entered, and nothing in reach lies before the window. */
  ghost predicate Entered(cfg: Config, input: seq<nat>, base: nat, strstart: nat, ins: set<nat>, since: nat, events: Events) {
    && since <= base + strstart && (since == 0 || since in Starts(events)) && (since >= base || strstart >= 2)
    && (base == 0 || cfg.wsize <= strstart + MIN_LOOKAHEAD || base in events.lost)
    && forall q :: since <= q < base + strstart && q + 3 <= |input| ==> q in ins
  }

  /** What was not entered since then is among the last `insert` strings. */
  ghost predicate Gapless(base: nat, strstart: nat, insert: nat, ins: set<nat>, since: nat) {
    forall q :: since <= q && q + insert < base + strstart ==> q in ins
  }

  /** A position where a match ends whose strings deflate_fast did not enter: it was long, or near the end of what was read. */
  ghost predicate SkipAt(s: Setup, tokens: seq<Token>, why: seq<Reason>, i: nat, e: nat)
    requires i < |tokens| == |why|
  {
    && !s.lazy && tokens[i].Copy? && e == why[i].look.p + tokens[i].length
    && (tokens[i].length > s.tuning.lazy || why[i].look.end < e + 3)
  }

  ghost predicate Skips(s: Setup, tokens: seq<Token>, why: seq<Reason>, skips: set<nat>) {
    |tokens| == |why| && forall e :: e in skips ==> exists i :: 0 <= i < |tokens| && SkipAt(s, tokens, why, i, e)
  }

  /** The account of all tokens, up to position n; the dictionary started afresh where strings were lost or skipped. */
  ghost predicate Account(s: Setup, input: seq<nat>, events: Events,
                          tokens: seq<Token>, why: seq<Reason>, n: nat) {
    Explained(s, input, events, tokens, why, n) && Skips(s, tokens, why, events.skips)
  }

  lemma NoAccount(s: Setup, input: seq<nat>)
    ensures Account(s, input, Events({}, {}, {}), [], [], 0)
  {
  }

  lemma AccountMore(s: Setup, input: seq<nat>, events: Events, tokens: seq<Token>, why: seq<Reason>,
                    n: nat, token: Token, reason: Reason)
    requires Account(s, input, events, tokens, why, n)
    requires Chosen(s, input, events, token, reason) && reason.look.p == n
    ensures Account(s, input, events, tokens + [token], why + [reason], n + Size(token))
  {
    hide Chosen, SkipAt;
    ExplainedMore(s, input, events, tokens, why, n, token, reason);
    var more, whys := tokens + [token], why + [reason];
    forall e | e in events.skips ensures exists i :: 0 <= i < |more| && SkipAt(s, more, whys, i, e) {
      var i :| 0 <= i < |tokens| && SkipAt(s, tokens, why, i, e);
      SkipKept(s, tokens, why, i, e, token, reason);
    }
  }

  lemma SkipKept(s: Setup, tokens: seq<Token>, why: seq<Reason>, i: nat, e: nat, token: Token, reason: Reason)
    requires i < |tokens| == |why| && SkipAt(s, tokens, why, i, e)
    ensures SkipAt(s, tokens + [token], why + [reason], i, e)
  {
  }

  lemma AccountLater(s: Setup, input: seq<nat>, more: seq<nat>, events: Events, events1: Events, tokens: seq<Token>, why: seq<Reason>, n: nat)
    requires Account(s, input, events, tokens, why, n) && Within(events, events1) && events.skips == events1.skips
    ensures Account(s, input + more, events1, tokens, why, n)
  {
    hide Explained, Skips;
    ExplainedLater(s, input, more, events, events1, tokens, why, n);
  }

  /** The strings of the last match were not entered. */
  lemma AccountSkip(s: Setup, input: seq<nat>, events: Events, tokens: seq<Token>, why: seq<Reason>, n: nat)
    requires Account(s, input, events, tokens, why, n) && tokens != [] && SkipAt(s, tokens, why, |tokens| - 1, n)
    ensures Account(s, input, Skipped(events, n), tokens, why, n)
  {
    hide Explained, SkipAt;
    assert input + [] == input;
    ExplainedLater(s, input, [], events, Skipped(events, n), tokens, why, n);
  }

  // ----- the dictionary from step to step ----------------------------------------------------------------

  /** With nothing left over, or no complete string left over, gapless means entered. */
  lemma GaplessEntered(cfg: Config, input: seq<nat>, base: nat, strstart: nat, lookahead: nat, insert: nat, ins: set<nat>,
                       since: nat, events: Events)
    requires Gapless(base, strstart, insert, ins, since) && |input| == base + strstart + lookahead
    requires insert == 0 || lookahead + insert < 3
    requires since <= base + strstart && (since == 0 || since in Starts(events)) && (since >= base || strstart >= 2)
    requires base == 0 || cfg.wsize <= strstart + MIN_LOOKAHEAD || base in events.lost
    ensures Entered(cfg, input, base, strstart, ins, since, events)
  {
  }

  /** A step to a later string, entering all strings before it that are complete. */
  lemma EnteredStep(cfg: Config, input: seq<nat>, base: nat, strstart: nat, ins: set<nat>, since: nat, events: Events,
                    later: nat, ins1: set<nat>)
    requires Entered(cfg, input, base, strstart, ins, since, events) && strstart <= later && ins <= ins1
    requires forall q :: base + strstart <= q < base + later && q + 3 <= |input| ==> q in ins1
    ensures Entered(cfg, input, base, later, ins1, since, events)
    ensures base + later + 2 <= |input| ==> forall insert :: Gapless(base, later, insert, ins1, since)
  {
  }

  /** The same strings seen from another start of the window. */
  lemma EnteredSlide(cfg: Config, input: seq<nat>, base: nat, strstart: nat, insert: nat, ins: set<nat>, since: nat, events: Events,
                     base1: nat, strstart1: nat)
    requires base1 + strstart1 == base + strstart && cfg.wsize <= strstart1 + MIN_LOOKAHEAD && strstart1 >= 2
    ensures Entered(cfg, input, base, strstart, ins, since, events) ==> Entered(cfg, input, base1, strstart1, ins, since, events)
    ensures Gapless(base, strstart, insert, ins, since) ==> Gapless(base1, strstart1, insert, ins, since)
  {
  }

  lemma EnteredBounds(cfg: Config, input: seq<nat>, base: nat, strstart: nat, ins: set<nat>, since: nat, events: Events)
    requires Entered(cfg, input, base, strstart, ins, since, events)
    ensures since <= base + strstart && (since == 0 || since in Starts(events)) && (since >= base || strstart >= 2)
    ensures base == 0 || cfg.wsize <= strstart + MIN_LOOKAHEAD || base in events.lost
  {
  }

  // ----- the probe of a step ------------------------------------------------------------------------------

  lemma SceneIs(s: Setup, input: seq<nat>, events: Events, base: nat, since: nat, ins: set<nat>, strstart: nat,
                lookahead: nat, pending: nat, visited: seq<nat>, found: nat, start: nat)
    requires Entered(s.cfg, input, base, strstart, ins, since, events) && s.cfg.Ok() && 2 <= pending <= MAX_MATCH
    requires |input| == base + strstart + lookahead && 0 < lookahead && (lookahead >= MIN_LOOKAHEAD || |input| in events.stops)
    requires forall q :: q in ins ==> q + 3 <= |input|
    ensures Scene(s, input, events, ProbeOf(base, since, ins, strstart, lookahead, pending, visited, found, start))
  {
  }

  /** The probe without a search. */
  function NoSearch(base: nat, since: nat, ins: set<nat>, strstart: nat, lookahead: nat, pending: nat): Probe {
    ProbeOf(base, since, ins, strstart, lookahead, pending, [], 2, strstart)
  }

  /** There is no search for an incomplete string, behind a long match, or where the latest string of the chain is out of reach. */
  lemma NotSearched(s: Setup, input: seq<nat>, base: nat, since: nat, ins: set<nat>, strstart: nat, lookahead: nat, pending: nat, hashHead: nat)
    requires s.cfg.Ok()
    requires lookahead >= 3 ==>
               NoneBetween(s.cfg, input, base, ins, HashAt(s.cfg, input, base + strstart), base + hashHead, base + strstart)
    requires lookahead < 3 || hashHead == 0 || strstart > hashHead + s.cfg.MaxDist() || pending >= s.tuning.lazy
    ensures Result(s, input, NoSearch(base, since, ins, strstart, lookahead, pending))
  {
    hide HashAt;
  }

  lemma WasSearched(s: Setup, input: seq<nat>, a: Probe)
    requires Walked(s, input, a) && a.p + 3 <= a.end && a.pending < s.tuning.lazy
    ensures Result(s, input, a)
  {
    hide Usable, NotLonger, Passed, AgreesFor;
    assert VisitOk(s.cfg, input, a, 0);
    assert Usable(s.cfg, input, a, a.visited[0]);
  }

  /** Nothing is promised of strings before the current one. */
  lemma EnteredAfresh(cfg: Config, input: seq<nat>, base: nat, strstart: nat, insert: nat, ins: set<nat>, events: Events)
    requires base + strstart in Starts(events) && (base == 0 || cfg.wsize <= strstart + MIN_LOOKAHEAD || base in events.lost)
    ensures Entered(cfg, input, base, strstart, ins, base + strstart, events)
    ensures Gapless(base, strstart, insert, ins, base + strstart)
  {
  }

  lemma EnteredMore(cfg: Config, input: seq<nat>, base: nat, strstart: nat, ins: set<nat>, since: nat, events: Events, events1: Events)
    requires Entered(cfg, input, base, strstart, ins, since, events) && Within(events, events1)
    ensures Entered(cfg, input, base, strstart, ins, since, events1)
  {
  }

  /** At the end of the input the last two strings are left over. */
  lemma GaplessEnd(cfg: Config, input: seq<nat>, base: nat, strstart: nat, ins: set<nat>, since: nat, events: Events, insert: nat)
    requires Entered(cfg, input, base, strstart, ins, since, events) && |input| == base + strstart
    requires insert == if strstart > 2 then 2 else strstart
    ensures Gapless(base, strstart, insert, ins, since)
  {
  }

  // ----- reasons of a single token ------------------------------------------------------------------------

  lemma ChosenFast(s: Setup, input: seq<nat>, events: Events, token: Token, a: Probe)
    requires !s.lazy && ProbeOk(s, input, events, a) && a.pending == 2
    requires if token.Copy? then Length(s, a) >= MIN_MATCH && token == Copy(a.distance, Length(s, a)) else Length(s, a) < MIN_MATCH
    ensures Chosen(s, input, events, token, Reason(a, []))
  {
    hide ProbeOk, Length;
  }

  lemma ChosenSlow(s: Setup, input: seq<nat>, events: Events, token: Token, a: Probe, next: Probe)
    requires s.lazy && ProbeOk(s, input, events, a) && ProbeOk(s, input, events, next) && Unbeaten(s, a)
    requires next.p == a.p + 1 && next.pending == Length(s, a)
    requires if token.Copy? then Length(s, a) >= MIN_MATCH && token == Copy(a.distance, Length(s, a)) && Length(s, next) <= Length(s, a)
             else Length(s, a) < MIN_MATCH || Length(s, next) > Length(s, a)
    ensures Chosen(s, input, events, token, Reason(a, [next]))
  {
    hide ProbeOk, Length, Unbeaten;
  }

  lemma ChosenLast(s: Setup, input: seq<nat>, events: Events, token: Token, a: Probe)
    requires ProbeOk(s, input, events, a) && Unbeaten(s, a) && token.Literal? && Length(s, a) < MIN_MATCH
    ensures Chosen(s, input, events, token, Reason(a, []))
  {
    hide ProbeOk, Length, Unbeaten;
  }

  lemma AccountSizes(s: Setup, input: seq<nat>, events: Events, tokens: seq<Token>, why: seq<Reason>, n: nat)
    requires Account(s, input, events, tokens, why, n)
    ensures |why| == |tokens|
  {
  }

  // ----- what the reasons mean --------------------------------------------------------------------------------

  /** A string in reach at an earlier position, which agrees with the string at p for n bytes, three at least. */
  ghost predicate Rival(s: Setup, input: seq<nat>, a: Probe, q: nat, n: nat) {
    && q in a.known && a.low < q < a.p && a.p < q + (s.cfg.wsize - MIN_LOOKAHEAD)
    && MIN_MATCH <= n && AgreesFor(input, a, q, n)
  }

  /** It is older than all strings visited, and the search stopped before it. */
  ghost predicate NotReached(s: Setup, a: Probe, q: nat) {
    a.visited != [] && q < a.visited[|a.visited| - 1] && MayStop(s.tuning, a)
  }

  lemma RivalUsable(s: Setup, input: seq<nat>, events: Events, a: Probe, q: nat, n: nat)
    requires Scene(s, input, events, a) && Rival(s, input, a, q, n)
    ensures Usable(s.cfg, input, a, q) && a.p + 3 <= a.end
  {
    hide Hash3;
    assert EqualAt(input, q, a.p, 0) && EqualAt(input, q, a.p, 1) && EqualAt(input, q, a.p, 2);
  }

  /** A search finds no less than what a rival offers, unless it stops before. */
  lemma RivalFound(s: Setup, input: seq<nat>, events: Events, a: Probe, q: nat, n: nat)
    requires ProbeOk(s, input, events, a) && Rival(s, input, a, q, n) && a.pending < s.tuning.lazy
    ensures n <= a.found || NotReached(s, a, q)
  {
    hide Scene, HashAt, AgreesFor, MayStop;
    RivalUsable(s, input, events, a, q, n);
    if q in a.visited {
      var i :| 0 <= i < |a.visited| && a.visited[i] == q;
      assert VisitOk(s.cfg, input, a, i);
      assert NotLonger(input, a, q);
    }
  }

  /** Behind a match as long as `lazy` there is no search. */
  lemma NoneBehindLong(s: Setup, input: seq<nat>, events: Events, a: Probe)
    requires ProbeOk(s, input, events, a) && s.tuning.Ok() && Unbeaten(s, a)
    ensures a.pending < s.tuning.lazy
  {
    hide Scene, Walked, Usable;
  }

  /**
    A literal is tallied only if no earlier string that can be found agrees for three
    bytes, the match found is poor, or a longer one starts at the next byte.
   */
  lemma LiteralMeans(s: Setup, input: seq<nat>, events: Events, token: Token, why: Reason, q: nat, n: nat)
    requires Chosen(s, input, events, token, why) && s.tuning.Ok() && token.Literal?
    requires Rival(s, input, why.look, q, n)
    ensures || NotReached(s, why.look, q) || Dropped(s, why.look.found, why.look.distance)
            || (why.next != [] && Length(s, why.next[0]) > Length(s, why.look) >= n)
  {
    hide ProbeOk, Rival, NotReached, Dropped;
    NoneBehindLong(s, input, events, why.look);
    RivalFound(s, input, events, why.look, q, n);
    RivalLong(s, input, why.look, q, n);
  }

  lemma RivalLong(s: Setup, input: seq<nat>, a: Probe, q: nat, n: nat)
    requires Rival(s, input, a, q, n)
    ensures n >= 3
  {
  }

  /**
    A match is the longest that can be found at its place; with lazy matching none that
    can be found at the next byte is longer, unless it is poor or the match is so long
    that nothing was searched.
   */
  lemma CopyMeans(s: Setup, input: seq<nat>, events: Events, token: Token, why: Reason, q: nat, n: nat)
    requires Chosen(s, input, events, token, why) && s.tuning.Ok() && token.Copy?
    ensures Rival(s, input, why.look, q, n) ==> n <= token.length || NotReached(s, why.look, q)
    ensures s.lazy ==>
              && why.next != [] && why.next[0].p == why.look.p + 1
              && (Rival(s, input, why.next[0], q, n) ==>
                    || n <= token.length || token.length >= s.tuning.lazy || NotReached(s, why.next[0], q)
                    || Dropped(s, why.next[0].found, why.next[0].distance))
  {
    hide ProbeOk, Rival, NotReached, Dropped;
    NoneBehindLong(s, input, events, why.look);
    if Rival(s, input, why.look, q, n) { RivalFound(s, input, events, why.look, q, n); }
    if s.lazy && token.length < s.tuning.lazy && Rival(s, input, why.next[0], q, n) {
      RivalFound(s, input, events, why.next[0], q, n);
    }
  }

  /** As long as no strings were lost or skipped, every complete string in reach but the first of all can be found. */
  lemma EverythingKnown(s: Setup, input: seq<nat>, events: Events, a: Probe, q: nat)
    requires ProbeOk(s, input, events, a) && events.lost == events.skips == {}
    requires 0 < q < a.p < q + (s.cfg.wsize - MIN_LOOKAHEAD) && q + 3 <= a.end
    ensures q in a.known && a.low < q
  {
    hide Result;
  }
}
