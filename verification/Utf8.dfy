/**
  deps/utf8cpp/utf8/core.h: UTF-8 (section 3 of RFC 3629) and its validation.
  Bits that the code ors together never overlap, so they are added here.
 */
module Utf8 {
  import opened Wrappers

  type Octet = x: nat | x < 0x100

  const CODE_POINT_MAX: nat := 0x10ffff
  const LEAD_SURROGATE_MIN: nat := 0xd800
  const TRAIL_SURROGATE_MAX: nat := 0xdfff

  datatype Error = NOT_ENOUGH_ROOM | INVALID_LEAD | INCOMPLETE_SEQUENCE | OVERLONG_SEQUENCE | INVALID_CODE_POINT

  predicate IsTrail(b: Octet) {
    b / 0x40 == 2
  }

  predicate IsCodePoint(cp: nat) {
    cp <= CODE_POINT_MAX && !(LEAD_SURROGATE_MIN <= cp <= TRAIL_SURROGATE_MAX)
  }

  predicate AllPoints(cps: seq<nat>) {
    forall i :: 0 <= i < |cps| ==> IsCodePoint(cps[i])
  }

  // ----- writing one code point -------------------------------------------------------------

  function Encode(cp: nat): (s: seq<Octet>)
    requires IsCodePoint(cp)
    ensures 1 <= |s| <= 4
  {
    if cp < 0x80 then [cp]
    else if cp < 0x800 then [0xc0 + cp / 0x40, 0x80 + cp % 0x40]
    else if cp < 0x1_0000 then [0xe0 + cp / 0x1000, 0x80 + cp / 0x40 % 0x40, 0x80 + cp % 0x40]
    else [0xf0 + cp / 0x4_0000, 0x80 + cp / 0x1000 % 0x40, 0x80 + cp / 0x40 % 0x40, 0x80 + cp % 0x40]
  }

  function EncodeAll(cps: seq<nat>): seq<Octet>
    requires AllPoints(cps)
  {
    if cps == [] then [] else Encode(cps[0]) + EncodeAll(cps[1..])
  }

  // ----- reading one code point ---------------------------------------------------------------

  function SequenceLength(lead: Octet): (n: nat)
    ensures n <= 4
  {
    if lead < 0x80 then 1
    else if lead / 0x20 == 0x6 then 2
    else if lead / 0x10 == 0xe then 3
    else if lead / 8 == 0x1e then 4
    else 0
  }

  predicate IsOverlong(cp: nat, length: nat) {
    if cp < 0x80 then length != 1
    else if cp < 0x800 then length != 2
    else if cp < 0x1_0000 then length != 3
    else false
  }

  /** How many trail octets a text begins with, counting up to n. */
  function Trails(s: seq<Octet>, n: nat): (k: nat)
    ensures k <= n && k <= |s|
    ensures forall i :: 0 <= i < k ==> IsTrail(s[i])
    ensures k < n && k < |s| ==> !IsTrail(s[k])
    decreases n
  {
    if n == 0 || s == [] || !IsTrail(s[0]) then 0 else 1 + Trails(s[1..], n - 1)
  }

  /** The payload of a sequence: that of the lead, then six bits of each trail. */
  function Payload(s: seq<Octet>): nat
    requires |s| > 0
  {
    var lead: nat := s[0];
    if |s| == 1 then lead
    else if |s| == 2 then lead % 0x20 * 0x40 + Low6(s[1])
    else if |s| == 3 then lead % 0x10 * 0x1000 + Low6(s[1]) * 0x40 + Low6(s[2])
    else if |s| == 4 then lead % 8 * 0x4_0000 + Low6(s[1]) * 0x1000 + Low6(s[2]) * 0x40 + Low6(s[3])
    else 0
  }

  function Low6(b: nat): nat {
    b % 0x40
  }

  datatype Outcome = Read(cp: nat, length: nat) | Failed(error: Error)

  /** What stands at the front of a text. */
  function Parse(s: seq<Octet>): (o: Outcome)
    ensures o.Read? ==> 1 <= o.length <= |s|
  {
    if s == [] then Failed(NOT_ENOUGH_ROOM)
    else
      var n := SequenceLength(s[0]);
      if n == 0 then Failed(INVALID_LEAD)
      else
        var k := Trails(s[1..], n - 1);
        if k < n - 1 then Failed(if 1 + k == |s| then NOT_ENOUGH_ROOM else INCOMPLETE_SEQUENCE)
        else
          var cp := Payload(s[..n]);
          if !IsCodePoint(cp) then Failed(INVALID_CODE_POINT)
          else if IsOverlong(cp, n) then Failed(OVERLONG_SEQUENCE)
          else Read(cp, n)
  }

  lemma TrailMark(b: nat)
    requires b < 0x40
    ensures IsTrail(0x80 + b) && Low6(0x80 + b) == b
  {
  }

  lemma LeadMark(hi: nat)
    ensures hi < 0x80 ==> SequenceLength(hi) == 1 && !IsTrail(hi)
    ensures hi < 0x20 ==> SequenceLength(0xc0 + hi) == 2 && !IsTrail(0xc0 + hi) && (0xc0 + hi) % 0x20 == hi
    ensures hi < 0x10 ==> SequenceLength(0xe0 + hi) == 3 && !IsTrail(0xe0 + hi) && (0xe0 + hi) % 0x10 == hi
    ensures hi < 8 ==> SequenceLength(0xf0 + hi) == 4 && !IsTrail(0xf0 + hi) && (0xf0 + hi) % 8 == hi
  {
  }

  /** A code point and its groups of six bits. */
  lemma Sixes(cp: nat, a: nat, b: nat, c: nat, d: nat)
    requires b < 0x40 && c < 0x40 && d < 0x40
    requires cp == a * 0x4_0000 + b * 0x1000 + c * 0x40 + d
    ensures cp % 0x40 == d && cp / 0x40 % 0x40 == c && cp / 0x1000 % 0x40 == b && cp / 0x4_0000 == a
    ensures a == 0 ==> cp / 0x1000 == b
    ensures a == 0 && b == 0 ==> cp / 0x40 == c
  {
    assert cp / 0x40 == a * 0x1000 + b * 0x40 + c;
    assert cp / 0x1000 == a * 0x40 + b;
  }

  lemma AllSixes(cp: nat) returns (a: nat, b: nat, c: nat, d: nat)
    ensures b < 0x40 && c < 0x40 && d < 0x40
    ensures cp == a * 0x4_0000 + b * 0x1000 + c * 0x40 + d
  {
    var x, y := cp / 0x40, cp / 0x40 / 0x40;
    a, b, c, d := y / 0x40, y % 0x40, x % 0x40, cp % 0x40;
  }

  lemma EncodeShape(cp: nat)
    requires IsCodePoint(cp)
    ensures var s := Encode(cp); SequenceLength(s[0]) == |s| && Payload(s) == cp && !IsOverlong(cp, |s|)
    ensures !IsTrail(Encode(cp)[0]) && forall i :: 1 <= i < |Encode(cp)| ==> IsTrail(Encode(cp)[i])
  {
    hide IsTrail, SequenceLength, Low6;
    var a, b, c, d := AllSixes(cp);
    Sixes(cp, a, b, c, d);
    TrailMark(b);
    TrailMark(c);
    TrailMark(d);
    if cp < 0x80 { LeadMark(cp); }
    else if cp < 0x800 { LeadMark(cp / 0x40); }
    else if cp < 0x1_0000 { LeadMark(b); }
    else { LeadMark(a); }
  }

  /** What was written is read, whatever follows it. */
  lemma ParseEncode(cp: nat, rest: seq<Octet>)
    requires IsCodePoint(cp)
    ensures Parse(Encode(cp) + rest) == Read(cp, |Encode(cp)|)
  {
    hide Encode, Payload;
    EncodeShape(cp);
    var e, s := Encode(cp), Encode(cp) + rest;
    assert s[..|e|] == e;
    assert forall i :: 0 <= i < |e| - 1 ==> s[1..][i] == e[i + 1];
  }

  /** Only what can be written is read. */
  lemma ParseExact(s: seq<Octet>)
    ensures var o := Parse(s); o.Read? ==> IsCodePoint(o.cp) && Encode(o.cp) == s[..o.length]
  {
    var o := Parse(s);
    if o.Read? {
      var n := o.length;
      assert forall i :: 1 <= i < n ==> s[1..][i - 1] == s[i];
      PayloadEncoded(s[..n]);
    }
  }

  lemma MarkOff(b: Octet)
    ensures IsTrail(b) ==> b == 0x80 + Low6(b) && Low6(b) < 0x40
    ensures SequenceLength(b) == 2 ==> b == 0xc0 + b % 0x20
    ensures SequenceLength(b) == 3 ==> b == 0xe0 + b % 0x10
    ensures SequenceLength(b) == 4 ==> b == 0xf0 + b % 8
    ensures SequenceLength(b) == 1 ==> b < 0x80
  {
  }

  lemma PayloadEncoded(s: seq<Octet>)
    requires s != [] && |s| == SequenceLength(s[0]) && forall i :: 1 <= i < |s| ==> IsTrail(s[i])
    requires IsCodePoint(Payload(s)) && !IsOverlong(Payload(s), |s|)
    ensures Encode(Payload(s)) == s
  {
    hide IsTrail, SequenceLength, Low6;
    MarkOff(s[0]);
    if |s| == 2 {
      MarkOff(s[1]);
      Sixes(Payload(s), 0, 0, s[0] % 0x20, Low6(s[1]));
    } else if |s| == 3 {
      MarkOff(s[1]);
      MarkOff(s[2]);
      Sixes(Payload(s), 0, s[0] % 0x10, Low6(s[1]), Low6(s[2]));
    } else if |s| == 4 {
      MarkOff(s[1]);
      MarkOff(s[2]);
      MarkOff(s[3]);
      Sixes(Payload(s), s[0] % 8, Low6(s[1]), Low6(s[2]), Low6(s[3]));
    }
  }

  // ----- validate_next -----------------------------------------------------------------------------

  /** What reading n octets from `it` on must report: an error, or the payload and the place of the last octet. */
  ghost predicate Gets(s: seq<Octet>, it: nat, n: nat, err: Option<Error>, cp: nat, last: nat)
    requires it < |s| && n > 0
  {
    var k := Trails(s[it + 1..], n - 1);
    if k < n - 1 then err == Some(if it + 1 + k == |s| then NOT_ENOUGH_ROOM else INCOMPLETE_SEQUENCE)
    else err == None && last == it + n - 1 && last < |s| && cp == Payload(s[it..it + n])
  }

  /** increase_safely */
  method IncreaseSafely(s: seq<Octet>, it: nat) returns (err: Option<Error>, next: nat)
    requires it < |s|
    ensures next == it + 1
    ensures err == if next == |s| then Some(NOT_ENOUGH_ROOM) else if !IsTrail(s[next]) then Some(INCOMPLETE_SEQUENCE) else None
  {
    next := it + 1;
    if next == |s| { return Some(NOT_ENOUGH_ROOM), next; }
    if !IsTrail(s[next]) { return Some(INCOMPLETE_SEQUENCE), next; }
    err := None;
  }

  /** Masks after shifts. */
  lemma LeadMask2(lead: nat)
    ensures lead * 0x40 % 0x800 == lead % 0x20 * 0x40
  {
    assert lead * 0x40 == 0x800 * (lead / 0x20) + lead % 0x20 * 0x40;
  }

  lemma LeadMask3(lead: nat)
    ensures lead * 0x1000 % 0x1_0000 == lead % 0x10 * 0x1000
  {
    assert lead * 0x1000 == 0x1_0000 * (lead / 0x10) + lead % 0x10 * 0x1000;
  }

  lemma LeadMask4(lead: nat)
    ensures lead * 0x4_0000 % 0x20_0000 == lead % 8 * 0x4_0000
  {
    assert lead * 0x4_0000 == 0x20_0000 * (lead / 8) + lead % 8 * 0x4_0000;
  }

  lemma TrailMasks(b: nat)
    ensures b * 0x40 % 0x1000 == Low6(b) * 0x40 && b * 0x1000 % 0x4_0000 == Low6(b) * 0x1000
  {
    assert b * 0x40 == 0x1000 * (b / 0x40) + b % 0x40 * 0x40;
    assert b * 0x1000 == 0x4_0000 * (b / 0x40) + b % 0x40 * 0x1000;
  }

  /** The trails of a text, one by one. */
  lemma TrailsStep(s: seq<Octet>, i: nat, n: nat)
    requires i < |s|
    ensures n == 0 || i + 1 == |s| || !IsTrail(s[i + 1]) ==> Trails(s[i + 1..], n) == 0
    ensures n > 0 && i + 1 < |s| && IsTrail(s[i + 1]) ==> Trails(s[i + 1..], n) == 1 + Trails(s[i + 2..], n - 1)
  {
    if i + 1 < |s| { assert s[i + 1..][1..] == s[i + 2..]; }
  }

  method GetSequence2(s: seq<Octet>, it: nat) returns (err: Option<Error>, cp: nat, last: nat)
    requires it < |s|
    ensures Gets(s, it, 2, err, cp, last)
  {
    hide IsTrail, Low6, Trails;
    cp := s[it];
    TrailsStep(s, it, 1);
    err, last := IncreaseSafely(s, it);
    if err != None { return; }
    TrailsStep(s, last, 0);
    LeadMask2(cp);
    cp := cp * 0x40 % 0x800 + Low6(s[last]);
  }

  method GetSequence3(s: seq<Octet>, it: nat) returns (err: Option<Error>, cp: nat, last: nat)
    requires it < |s|
    ensures Gets(s, it, 3, err, cp, last)
  {
    hide IsTrail, Low6, Trails;
    cp := s[it];
    TrailsStep(s, it, 2);
    err, last := IncreaseSafely(s, it);
    if err != None { return; }
    var b: nat := s[last];
    LeadMask3(cp);
    TrailMasks(b);
    cp := cp * 0x1000 % 0x1_0000 + b * 0x40 % 0x1000;
    TrailsStep(s, last, 1);
    err, last := IncreaseSafely(s, last);
    if err != None { return; }
    TrailsStep(s, last, 0);
    cp := cp + Low6(s[last]);
  }

  method GetSequence4(s: seq<Octet>, it: nat) returns (err: Option<Error>, cp: nat, last: nat)
    requires it < |s|
    ensures Gets(s, it, 4, err, cp, last)
  {
    hide IsTrail, Low6, Trails;
    cp := s[it];
    TrailsStep(s, it, 3);
    err, last := IncreaseSafely(s, it);
    if err != None { return; }
    var b: nat := s[last];
    LeadMask4(cp);
    TrailMasks(b);
    cp := cp * 0x4_0000 % 0x20_0000 + b * 0x1000 % 0x4_0000;
    TrailsStep(s, last, 2);
    err, last := IncreaseSafely(s, last);
    if err != None { return; }
    b := s[last];
    TrailMasks(b);
    cp := cp + b * 0x40 % 0x1000;
    TrailsStep(s, last, 1);
    err, last := IncreaseSafely(s, last);
    if err != None { return; }
    TrailsStep(s, last, 0);
    cp := cp + Low6(s[last]);
  }

  /** validate_next: on an error nothing moves, and the caller's code point stays what it was. */
  method ValidateNext(s: seq<Octet>, it: nat, before: nat) returns (err: Option<Error>, next: nat, cp: nat)
    requires it <= |s|
    ensures match Parse(s[it..])
            case Read(c, n) => err == None && next == it + n && cp == c
            case Failed(e) => err == Some(e) && next == it && cp == before
  {
    hide Payload, Trails, SequenceLength;
    if it == |s| { return Some(NOT_ENOUGH_ROOM), it, before; }
    var length := SequenceLength(s[it]);
    var last := it;
    assert s[it..][1..] == s[it + 1..];
    if length == 0 {
      return Some(INVALID_LEAD), it, before;
    } else if length == 1 {
      err, cp := None, s[it];
      OneOctet(s, it);
    } else if length == 2 {
      err, cp, last := GetSequence2(s, it);
    } else if length == 3 {
      err, cp, last := GetSequence3(s, it);
    } else {
      err, cp, last := GetSequence4(s, it);
    }
    if err == None {
      assert s[it..][..length] == s[it..it + length];
      if IsCodePoint(cp) {
        if !IsOverlong(cp, length) { return None, last + 1, cp; }
        err := Some(OVERLONG_SEQUENCE);
      } else {
        err := Some(INVALID_CODE_POINT);
      }
    }
    next, cp := it, before;
  }

  lemma OneOctet(s: seq<Octet>, it: nat)
    requires it < |s|
    ensures Trails(s[it + 1..], 0) == 0 && Payload(s[it..it + 1]) == s[it]
  {
  }
}
