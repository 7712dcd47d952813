/**
  Literals and pairs of a distance and a length, and what they stand for: the
  simple decoder of section 3.2.3 of RFC 1951 over an unbounded history.
 */
module Lz77 {

  datatype Token = Literal(byte: nat) | Copy(distance: nat, length: nat)

  /** Append `length` bytes, each the one `distance` back: the string may run into itself. */
  function CopyFrom(out: seq<nat>, distance: nat, length: nat): (r: seq<nat>)
    ensures 1 <= distance <= |out| ==> |r| == |out| + length && r[..|out|] == out
    decreases length
  {
    if length == 0 || !(1 <= distance <= |out|) then out
    else CopyFrom(out + [out[|out| - distance]], distance, length - 1)
  }

  function Append(out: seq<nat>, token: Token): seq<nat> {
    match token
    case Literal(byte) => out + [byte]
    case Copy(distance, length) => CopyFrom(out, distance, length)
  }

  /** A history continued by a list of tokens. */
  function Apply(history: seq<nat>, tokens: seq<Token>): seq<nat> {
    if tokens == [] then history else Append(Apply(history, tokens[..|tokens| - 1]), tokens[|tokens| - 1])
  }

  /** The bytes that a list of tokens stands for. */
  function Expand(tokens: seq<Token>): seq<nat> {
    Apply([], tokens)
  }

  lemma ApplyMore(history: seq<nat>, tokens: seq<Token>, token: Token)
    ensures Apply(history, tokens + [token]) == Append(Apply(history, tokens), token)
  {
    assert (tokens + [token])[..|tokens|] == tokens;
  }

  lemma ExpandMore(tokens: seq<Token>, token: Token)
    ensures Expand(tokens + [token]) == Append(Expand(tokens), token)
  {
    ApplyMore([], tokens, token);
  }

  /** The strings at p and q agree for n bytes. */
  ghost predicate Agree(s: seq<nat>, p: nat, q: nat, n: nat) {
    p + n <= |s| && q + n <= |s| && forall k :: 0 <= k < n ==> EqualAt(s, p, q, k)
  }

  ghost predicate EqualAt(s: seq<nat>, p: nat, q: nat, k: nat)
    requires p + k < |s| && q + k < |s|
  {
    s[p + k] == s[q + k]
  }

  /** A match: copying from a distance at which the strings agree continues the input. */
  lemma {:induction false} CopyIsMatch(input: seq<nat>, p: nat, distance: nat, n: nat)
    requires 1 <= distance <= p && Agree(input, p - distance, p, n)
    ensures CopyFrom(input[..p], distance, n) == input[..p + n]
    decreases n
  {
    if n > 0 {
      var out := input[..p];
      assert EqualAt(input, p - distance, p, 0);
      assert out + [out[p - distance]] == input[..p + 1];
      var a, b := p + 1 - distance, p + 1;
      forall k | 0 <= k < n - 1 ensures EqualAt(input, a, b, k) {
        assert EqualAt(input, p - distance, p, k + 1);
      }
      CopyIsMatch(input, p + 1, distance, n - 1);
    }
  }

  /** Bytes that come in chunks. */
  function Concat(chunks: seq<seq<nat>>): seq<nat> {
    if chunks == [] then [] else Concat(chunks[..|chunks| - 1]) + chunks[|chunks| - 1]
  }

  lemma {:induction false} ConcatSplit(chunks: seq<seq<nat>>, i: nat)
    requires i <= |chunks|
    ensures Concat(chunks) == Concat(chunks[..i]) + Concat(chunks[i..])
    decreases |chunks|
  {
    var k := |chunks| - 1;
    if i == |chunks| {
      assert chunks[..i] == chunks && chunks[i..] == [];
    } else {
      ConcatSplit(chunks[..k], i);
      assert chunks[..k][..i] == chunks[..i] && chunks[..k][i..] == chunks[i..][..k - i];
    }
  }

  /** No distance leaves the window or goes back before the first byte. */
  ghost predicate InReach(all: seq<Token>, wsize: nat) {
    forall i :: 0 <= i < |all| ==> ReachAt(all, wsize, i)
  }

  ghost predicate ReachAt(all: seq<Token>, wsize: nat, i: nat)
    requires i < |all|
  {
    all[i].Copy? ==> all[i].distance <= wsize && all[i].distance <= |Expand(all[..i])|
  }

  lemma InReachMore(all: seq<Token>, wsize: nat, token: Token)
    requires InReach(all, wsize)
    requires token.Copy? ==> token.distance <= wsize && token.distance <= |Expand(all)|
    ensures InReach(all + [token], wsize)
  {
    var more := all + [token];
    forall i | 0 <= i < |more| ensures ReachAt(more, wsize, i) {
      if i < |all| {
        assert more[..i] == all[..i];
        assert ReachAt(all, wsize, i);
      } else {
        assert more[..i] == all;
      }
    }
  }
}
