/**
  What the reasons for tokens come to on an input of equal bytes: after the first two
  bytes everything is a match, as long as can be.
 */
module EqualBytes {
  import opened Bits
  import opened HashChains
  import opened Lz77
  import opened LongestMatch
  import opened Matching

  ghost predicate Same(input: seq<nat>) {
    forall i :: 0 <= i < |input| ==> input[i] == input[0]
  }

  /** The longest match there can be at p. */
  function Most(n: nat, p: nat): nat
    requires p <= n
  {
    if n - p < MAX_MATCH then n - p else MAX_MATCH
  }

  /** Strings were lost at the end only, and only there a flush was asked for. */
  ghost predicate OnlyAtEnd(n: nat, events: Events) {
    (forall e :: e in events.stops ==> e == n) && (forall e :: e in events.lost ==> e >= n)
  }

  lemma AllAgree(input: seq<nat>, a: Probe, q: nat, n: nat)
    requires Same(input) && q < a.p && n <= MAX_MATCH && a.p + n <= a.end <= |input|
    ensures AgreesFor(input, a, q, n)
  {
  }

  lemma SameHashes(cfg: Config, input: seq<nat>, p: nat, q: nat)
    requires Same(input) && p + 3 <= |input| && q + 3 <= |input|
    ensures HashAt(cfg, input, p) == HashAt(cfg, input, q)
  {
    hide Hash3;
    var x := input[0];
    assert input[p] == x && input[p + 1] == x && input[p + 2] == x;
    assert input[q] == x && input[q + 1] == x && input[q + 2] == x;
  }

  /** If the string before is in the dictionary, the search finds all there is. */
  lemma FindsAll(s: Setup, input: seq<nat>, events: Events, a: Probe)
    requires ProbeOk(s, input, events, a) && Same(input)
    requires 2 <= a.p && a.p + 3 <= a.end && a.pending < s.tuning.lazy && a.p - 1 in a.known && a.low < a.p - 1
    ensures a.found == Most(a.end, a.p)
  {
    hide HashAt, Passed, AgreesFor;
    var q := a.p - 1;
    SameHashes(s.cfg, input, a.p, q);
    assert Usable(s.cfg, input, a, q);
    assert VisitOk(s.cfg, input, a, 0);
    assert a.visited[0] == q;
    AllAgree(input, a, q, Most(a.end, a.p));
  }

  /** A match is as long as can be. */
  lemma MatchIsMost(s: Setup, input: seq<nat>, events: Events, a: Probe)
    requires ProbeOk(s, input, events, a) && Same(input) && a.found > 2
    ensures a.found == Most(a.end, a.p)
  {
    hide HashAt, Passed, AgreesFor;
    assert VisitOk(s.cfg, input, a, 0);
    AllAgree(input, a, a.visited[0], Most(a.end, a.p));
  }

  lemma FoundBound(s: Setup, input: seq<nat>, events: Events, a: Probe)
    requires ProbeOk(s, input, events, a)
    ensures a.found <= 2 || (a.found <= MAX_MATCH && a.p + a.found <= a.end)
    ensures Length(s, a) <= 2 || Length(s, a) == a.found
  {
    hide Usable, VisitOk, Passed, AgreesFor;
  }

  /** There is nothing to search at the first two bytes. */
  lemma FirstBytes(s: Setup, input: seq<nat>, events: Events, a: Probe)
    requires ProbeOk(s, input, events, a) && a.p < 2
    ensures Length(s, a) == 2
  {
    hide HashAt;
    forall q ensures !Usable(s.cfg, input, a, q) { }
  }

  /** In the middle, with the string before known, a token is the longest match there can be. */
  lemma MiddleToken(s: Setup, input: seq<nat>, events: Events, token: Token, why: Reason)
    requires Chosen(s, input, events, token, why) && Same(input) && s.tuning.Ok()
    requires 2 <= why.look.p && why.look.p + 6 <= |input| && (why.look.end == |input| || why.look.p + MIN_LOOKAHEAD <= why.look.end)
    requires why.look.p - 1 in why.look.known && why.look.low < why.look.p - 1
    ensures token.Copy? && token.length == Most(|input|, why.look.p)
  {
    hide ProbeOk;
    var a := why.look;
    ProbeScene(s, input, events, a);
    if a.pending < s.tuning.lazy {
      FindsAll(s, input, events, a);
      if why.next != [] {
        ProbeScene(s, input, events, why.next[0]);
        FoundBound(s, input, events, why.next[0]);
      }
    } else {
      TooLong(s, input, events, a);
    }
  }

  lemma MiddleMatch(s: Setup, input: seq<nat>, events: Events, token: Token, why: Reason)
    requires Chosen(s, input, events, token, why) && Same(input) && token.Copy?
    requires why.look.end == |input| || why.look.p + MIN_LOOKAHEAD <= why.look.end
    ensures why.look.p <= |input| && token.length == Most(|input|, why.look.p)
  {
    hide ProbeOk, Length;
    ProbeScene(s, input, events, why.look);
    FoundBound(s, input, events, why.look);
    MatchIsMost(s, input, events, why.look);
  }

  lemma ProbeScene(s: Setup, input: seq<nat>, events: Events, a: Probe)
    requires ProbeOk(s, input, events, a)
    ensures Scene(s, input, events, a)
  {
    hide Scene, Result;
  }

  lemma TooLong(s: Setup, input: seq<nat>, events: Events, a: Probe)
    requires ProbeOk(s, input, events, a) && a.pending >= s.tuning.lazy
    ensures Length(s, a) == 2
  {
    hide Walked, Usable, Scene;
  }

  /** The string before is known and may be used, if strings were entered from before it on. */
  lemma StringBefore(s: Setup, input: seq<nat>, events: Events, a: Probe)
    requires Scene(s, input, events, a) && 2 <= a.p && a.p + 2 <= a.end && a.since < a.p
    requires a.low == 0 || a.low !in events.lost
    ensures a.p - 1 in a.known && a.low < a.p - 1
  {
  }

  // ----- lazy matching ---------------------------------------------------------------------------

  /** How many tokens there may be up to position p. */
  function LazyCost(n: nat, p: nat): nat {
    (if p < 2 then p else 2) + (if p + 5 > n then p + 5 - n else 0) + p / 258 + (if p >= n then 1 else 0)
  }

  lemma LazyToken(s: Setup, input: seq<nat>, events: Events, tokens: seq<Token>, why: seq<Reason>, i: nat)
    requires |tokens| == |why| && i < |tokens| && ChosenAt(s, input, events, tokens, why, i)
    requires Same(input) && s.tuning.Ok() && OnlyAtEnd(|input|, events) && events.skips == {}
    ensures 1 + LazyCost(|input|, End(tokens, why, i)) <= LazyCost(|input|, End(tokens, why, i + 1))
  {
    hide ProbeOk;
    var a, n := why[i].look, |input|;
    ProbeScene(s, input, events, a);
    if 2 <= a.p && a.p + 6 <= n {
      StringBefore(s, input, events, a);
      MiddleToken(s, input, events, tokens[i], why[i]);
    }
  }

  lemma {:induction false} LazyCount(s: Setup, input: seq<nat>, events: Events, tokens: seq<Token>, why: seq<Reason>, i: nat)
    requires |tokens| == |why| && i <= |tokens|
    requires forall j :: 0 <= j < |tokens| ==> ChosenAt(s, input, events, tokens, why, j)
    requires Same(input) && s.tuning.Ok() && OnlyAtEnd(|input|, events) && events.skips == {}
    ensures i <= LazyCost(|input|, End(tokens, why, i))
    decreases i
  {
    hide ChosenAt, LazyCost, End;
    if i > 0 {
      LazyCount(s, input, events, tokens, why, i - 1);
      LazyToken(s, input, events, tokens, why, i - 1);
    }
  }

  /** deflate_slow: n equal bytes give no more than n / 258 + 8 tokens. */
  lemma LazyRun(s: Setup, input: seq<nat>, events: Events, tokens: seq<Token>, why: seq<Reason>)
    requires Account(s, input, events, tokens, why, |input|)
    requires Same(input) && s.tuning.Ok() && OnlyAtEnd(|input|, events) && events.skips == {}
    ensures |tokens| <= |input| / 258 + 8
  {
    hide ChosenAt;
    LazyCount(s, input, events, tokens, why, |tokens|);
  }

  // ----- greedy matching ---------------------------------------------------------------------------

  /** Tokens are not empty. */
  lemma SizePositive(s: Setup, input: seq<nat>, events: Events, tokens: seq<Token>, why: seq<Reason>, i: nat)
    requires |tokens| == |why| && i < |tokens| && ChosenAt(s, input, events, tokens, why, i)
    ensures End(tokens, why, i) < End(tokens, why, i + 1)
  {
    hide ProbeOk;
  }

  lemma {:induction false} EndsGrow(s: Setup, input: seq<nat>, events: Events, tokens: seq<Token>, why: seq<Reason>, i: nat, j: nat)
    requires |tokens| == |why| && i < j <= |tokens|
    requires forall k :: 0 <= k < |tokens| ==> ChosenAt(s, input, events, tokens, why, k)
    ensures End(tokens, why, i) < End(tokens, why, j)
    decreases j
  {
    hide ChosenAt, End;
    SizePositive(s, input, events, tokens, why, j - 1);
    if i < j - 1 { EndsGrow(s, input, events, tokens, why, i, j - 1); }
  }

  /** Where strings were not entered right before a token, the token before is a match. */
  lemma AfterSkip(s: Setup, input: seq<nat>, events: Events, tokens: seq<Token>, why: seq<Reason>, i: nat)
    requires |tokens| == |why| && i < |tokens| && Skips(s, tokens, why, events.skips)
    requires forall k :: 0 <= k < |tokens| ==> ChosenAt(s, input, events, tokens, why, k)
    requires End(tokens, why, i) in events.skips
    ensures i > 0 && tokens[i - 1].Copy?
  {
    hide ChosenAt;
    var p := End(tokens, why, i);
    var j :| 0 <= j < |tokens| && SkipAt(s, tokens, why, j, p);
    assert End(tokens, why, j + 1) == p;
    if j + 1 < i {
      EndsGrow(s, input, events, tokens, why, j + 1, i);
    } else if i < j + 1 {
      EndsGrow(s, input, events, tokens, why, i, j + 1);
    }
  }

  /** How many tokens there may be up to position p: two for each match. */
  function GreedyCost(n: nat, p: nat): nat {
    (if p < 2 then p else 2) + (if p + 5 > n then p + 5 - n else 0) + 2 * (p / 258) + (if p >= n then 2 else 0)
  }

  /** A match leaves room for one literal behind it. */
  function Slack(tokens: seq<Token>, i: nat): nat
    requires i <= |tokens|
  {
    if i > 0 && tokens[i - 1].Copy? then 1 else 0
  }

  lemma GreedyToken(s: Setup, input: seq<nat>, events: Events, tokens: seq<Token>, why: seq<Reason>, i: nat)
    requires |tokens| == |why| && i < |tokens| && Skips(s, tokens, why, events.skips)
    requires forall k :: 0 <= k < |tokens| ==> ChosenAt(s, input, events, tokens, why, k)
    requires Same(input) && s.tuning.Ok() && OnlyAtEnd(|input|, events)
    ensures 1 + Slack(tokens, i + 1) + GreedyCost(|input|, End(tokens, why, i))
         <= GreedyCost(|input|, End(tokens, why, i + 1)) + Slack(tokens, i)
  {
    hide ProbeOk, Skips, Length;
    assert ChosenAt(s, input, events, tokens, why, i);
    var a, n := why[i].look, |input|;
    ProbeScene(s, input, events, a);
    if a.p < 2 {
      FirstBytes(s, input, events, a);
    } else if a.p + 6 <= n {
      if a.since == a.p {
        AfterSkip(s, input, events, tokens, why, i);
        if tokens[i].Copy? { MiddleMatch(s, input, events, tokens[i], why[i]); }
      } else {
        StringBefore(s, input, events, a);
        MiddleToken(s, input, events, tokens[i], why[i]);
      }
    }
  }

  lemma {:induction false} GreedyCount(s: Setup, input: seq<nat>, events: Events, tokens: seq<Token>, why: seq<Reason>, i: nat)
    requires |tokens| == |why| && i <= |tokens| && Skips(s, tokens, why, events.skips)
    requires forall j :: 0 <= j < |tokens| ==> ChosenAt(s, input, events, tokens, why, j)
    requires Same(input) && s.tuning.Ok() && OnlyAtEnd(|input|, events)
    ensures i + Slack(tokens, i) <= GreedyCost(|input|, End(tokens, why, i))
    decreases i
  {
    hide ChosenAt, GreedyCost, End, Skips, Slack;
    if i > 0 {
      GreedyCount(s, input, events, tokens, why, i - 1);
      GreedyToken(s, input, events, tokens, why, i - 1);
    } else {
      NoTokens(tokens);
    }
  }

  lemma NoTokens(tokens: seq<Token>)
    ensures Slack(tokens, 0) == 0
  {
  }

  /** deflate_fast: n equal bytes give no more than 2 (n / 258) + 9 tokens. */
  lemma GreedyRun(s: Setup, input: seq<nat>, events: Events, tokens: seq<Token>, why: seq<Reason>)
    requires Account(s, input, events, tokens, why, |input|)
    requires Same(input) && s.tuning.Ok() && OnlyAtEnd(|input|, events)
    ensures |tokens| <= 2 * (|input| / 258) + 9
  {
    hide ChosenAt, Skips;
    GreedyCount(s, input, events, tokens, why, |tokens|);
  }
}
