/**
  deps/utf8cpp/utf8/checked.h: conversions that throw, between UTF-8, UTF-16
  (section 2 of RFC 2781) and UTF-32, and the repair of damaged text.
 */
module Utf8Checked {
  import opened Wrappers
  import opened Utf8

  type Unit = x: nat | x < 0x1_0000

  const LEAD_SURROGATE_MAX: nat := 0xdbff
  const TRAIL_SURROGATE_MIN: nat := 0xdc00
  const LEAD_OFFSET: nat := 0xd7c0
  const SURROGATE_OFFSET: nat := 0xfca02400

  datatype Exception = NotEnoughRoom | InvalidUtf8(octet: nat) | InvalidUtf16(word: nat) | InvalidCodePoint(cp: nat)

  datatype Result<+T> = Ok(value: T) | Thrown(exception: Exception)

  // ----- texts ---------------------------------------------------------------------------------------

  function Prepend(front: seq<nat>, r: Result<seq<nat>>): Result<seq<nat>> {
    match r
    case Ok(rest) => Ok(front + rest)
    case Thrown(e) => Thrown(e)
  }

  /** The exception for an error at an octet.  The code point it names is always 0: none was stored. */
  function Raised(error: Error, octet: nat): Exception {
    match error
    case NOT_ENOUGH_ROOM => NotEnoughRoom
    case INVALID_CODE_POINT => InvalidCodePoint(0)
    case _ => InvalidUtf8(octet)
  }

  /** The code points of a text, or the exception of the first error. */
  function Decode(s: seq<Octet>): Result<seq<nat>>
    decreases |s|
  {
    if s == [] then Ok([])
    else
      match Parse(s)
      case Read(cp, n) => Prepend([cp], Decode(s[n..]))
      case Failed(error) => Thrown(Raised(error, s[0]))
  }

  lemma ParseFront(s: seq<Octet>, rest: seq<Octet>)
    ensures Parse(s).Read? ==> Parse(s + rest) == Parse(s)
  {
    hide Encode;
    var o := Parse(s);
    if o.Read? {
      ParseExact(s);
      ParseEncode(o.cp, s[o.length..] + rest);
      assert s + rest == s[..o.length] + (s[o.length..] + rest);
    }
  }

  lemma {:induction false} DecodeAppend(s: seq<Octet>, rest: seq<Octet>)
    ensures Decode(s).Ok? ==> Decode(s + rest) == Prepend(Decode(s).value, Decode(rest))
    decreases |s|
  {
    hide Parse;
    if s == [] {
      assert s + rest == rest;
      PrependNothing(Decode(rest));
    } else if Decode(s).Ok? {
      var n := Parse(s).length;
      ParseFront(s, rest);
      assert (s + rest)[n..] == s[n..] + rest;
      DecodeAppend(s[n..], rest);
      PrependTwice([Parse(s).cp], Decode(s[n..]).value, Decode(rest));
    }
  }

  lemma PrependNothing(r: Result<seq<nat>>)
    ensures Prepend([], r) == r
  {
    if r.Ok? { assert [] + r.value == r.value; }
  }

  lemma PrependTwice(a: seq<nat>, b: seq<nat>, r: Result<seq<nat>>)
    ensures Prepend(a, Prepend(b, r)) == Prepend(a + b, r)
  {
    if r.Ok? { assert a + (b + r.value) == a + b + r.value; }
  }

  /** Whatever was written is read. */
  lemma {:induction false} DecodeEncode(cps: seq<nat>)
    requires AllPoints(cps)
    ensures Decode(EncodeAll(cps)) == Ok(cps)
    decreases |cps|
  {
    hide Parse, Encode;
    if cps != [] {
      var rest := cps[1..];
      DecodeEncode(rest);
      ParseEncode(cps[0], EncodeAll(rest));
      assert EncodeAll(cps)[|Encode(cps[0])|..] == EncodeAll(rest);
      assert cps == [cps[0]] + rest;
    }
  }

  /** Only what can be written is read: valid texts are exactly those that some code points encode. */
  lemma {:induction false} DecodeExact(s: seq<Octet>)
    ensures Decode(s).Ok? ==> AllPoints(Decode(s).value) && EncodeAll(Decode(s).value) == s
    decreases |s|
  {
    hide Parse, Encode;
    if s != [] && Decode(s).Ok? {
      ParseExact(s);
      var n := Parse(s).length;
      DecodeExact(s[n..]);
      assert Decode(s).value[1..] == Decode(s[n..]).value;
      assert s == s[..n] + s[n..];
    }
  }

  // ----- find_invalid -----------------------------------------------------------------------------

  /** A text that goes on with something unreadable has no longer valid prefix. */
  lemma NoLonger(s: seq<Octet>, start: nat, r: nat, q: nat)
    requires start <= r < q <= |s| && Decode(s[start..r]).Ok? && Parse(s[r..]).Failed?
    ensures Decode(s[start..q]).Thrown?
  {
    hide Parse;
    assert s[start..q] == s[start..r] + s[r..q];
    DecodeAppend(s[start..r], s[r..q]);
    assert s[r..] == s[r..q] + s[q..];
    ParseFront(s[r..q], s[q..]);
  }

  /** find_invalid: the end of the longest valid prefix. */
  method FindInvalid(s: seq<Octet>, start: nat) returns (r: nat)
    requires start <= |s|
    ensures start <= r <= |s| && Decode(s[start..r]).Ok?
    ensures forall q :: r < q <= |s| ==> Decode(s[start..q]).Thrown?
  {
    hide Parse, Encode;
    r := start;
    while r != |s|
      invariant start <= r <= |s| && Decode(s[start..r]).Ok?
      decreases |s| - r
    {
      var err, next, cp := ValidateNext(s, r, 0);
      if err != None {
        forall q | r < q <= |s| ensures Decode(s[start..q]).Thrown? { NoLonger(s, start, r, q); }
        return;
      }
      OneMore(s, start, r);
      r := next;
    }
  }

  lemma OneMore(s: seq<Octet>, start: nat, r: nat)
    requires start <= r < |s| && Decode(s[start..r]).Ok? && Parse(s[r..]).Read?
    ensures Decode(s[start..r + Parse(s[r..]).length]) == Ok(Decode(s[start..r]).value + [Parse(s[r..]).cp])
  {
    hide Parse, Encode;
    var o := Parse(s[r..]);
    var next := r + o.length;
    ParseExact(s[r..]);
    assert s[r..][..o.length] == s[r..next];
    OnePoint(o.cp);
    assert s[start..next] == s[start..r] + s[r..next];
    DecodeAppend(s[start..r], s[r..next]);
  }

  lemma OnePoint(cp: nat)
    requires IsCodePoint(cp)
    ensures Decode(Encode(cp)) == Ok([cp])
  {
    hide Parse, Encode;
    assert EncodeAll([cp]) == Encode(cp) + EncodeAll([]) == Encode(cp);
    DecodeEncode([cp]);
  }

  /** is_valid */
  method IsValid(s: seq<Octet>) returns (b: bool)
    ensures b <==> Decode(s).Ok?
  {
    var r := FindInvalid(s, 0);
    assert s[0..|s|] == s;
    b := r == |s|;
  }

  // ----- next and append --------------------------------------------------------------------------

  method Append(cp: nat, out: seq<Octet>) returns (r: Result<seq<Octet>>)
    ensures r == if IsCodePoint(cp) then Ok(out + Encode(cp)) else Thrown(InvalidCodePoint(cp))
  {
    if !IsCodePoint(cp) { return Thrown(InvalidCodePoint(cp)); }
    r := Ok(out + Encode(cp));
  }

  method Next(s: seq<Octet>, it: nat) returns (r: Result<nat>, next: nat)
    requires it <= |s|
    ensures match Parse(s[it..])
            case Read(cp, n) => r == Ok(cp) && next == it + n
            case Failed(e) => r == Thrown(Raised(e, if it < |s| then s[it] else 0)) && next == it
  {
    hide Parse;
    var cp := 0;
    var err;
    err, next, cp := ValidateNext(s, it, cp);
    match err {
      case None => r := Ok(cp);
      case Some(NOT_ENOUGH_ROOM) => r := Thrown(NotEnoughRoom);
      case Some(INVALID_CODE_POINT) => r := Thrown(InvalidCodePoint(cp));
      case Some(_) =>
        EmptyHasNoRoom(s, it);
        r := Thrown(InvalidUtf8(s[it]));
    }
  }

  lemma EmptyHasNoRoom(s: seq<Octet>, it: nat)
    requires it <= |s|
    ensures it == |s| ==> Parse(s[it..]) == Failed(NOT_ENOUGH_ROOM)
  {
  }

  // ----- UTF-32 --------------------------------------------------------------------------------------

  /** The first number that is no code point. */
  function FirstInvalid(cps: seq<nat>): nat
    requires !AllPoints(cps)
  {
    if !IsCodePoint(cps[0]) then cps[0] else FirstInvalid(cps[1..])
  }

  lemma {:induction false} FirstInvalidIs(cps: seq<nat>, i: nat)
    requires i < |cps| && AllPoints(cps[..i]) && !IsCodePoint(cps[i])
    ensures !AllPoints(cps) && FirstInvalid(cps) == cps[i]
    decreases i
  {
    if i > 0 {
      assert IsCodePoint(cps[..i][0]);
      assert cps[1..][..i - 1] == cps[..i][1..];
      FirstInvalidIs(cps[1..], i - 1);
    }
  }

  lemma {:induction false} EncodeMore(cps: seq<nat>, cp: nat)
    requires AllPoints(cps) && IsCodePoint(cp)
    ensures AllPoints(cps + [cp]) && EncodeAll(cps + [cp]) == EncodeAll(cps) + Encode(cp)
    decreases |cps|
  {
    hide Encode;
    if cps == [] {
      assert EncodeAll([cp]) == Encode(cp) + EncodeAll([]);
      assert cps + [cp] == [cp];
    } else {
      assert (cps + [cp])[1..] == cps[1..] + [cp];
      EncodeMore(cps[1..], cp);
    }
  }

  method Utf32To8(cps: seq<nat>) returns (r: Result<seq<Octet>>)
    ensures r == if AllPoints(cps) then Ok(EncodeAll(cps)) else Thrown(InvalidCodePoint(FirstInvalid(cps)))
  {
    hide EncodeAll, Encode, FirstInvalid;
    var out: seq<Octet> := [];
    var i := 0;
    EncodeNothing();
    while i < |cps|
      invariant 0 <= i <= |cps| && AllPoints(cps[..i]) && out == EncodeAll(cps[..i])
    {
      r := Append(cps[i], out);
      if r.Thrown? {
        FirstInvalidIs(cps, i);
        return;
      }
      EncodeMore(cps[..i], cps[i]);
      assert cps[..i + 1] == cps[..i] + [cps[i]];
      out := r.value;
      i := i + 1;
    }
    assert cps[..i] == cps;
    r := Ok(out);
  }

  lemma EncodeNothing()
    ensures EncodeAll([]) == []
  {
  }

  /** The rest of a text stands for the rest of its meaning. */
  ghost predicate ReadSoFar(s: seq<Octet>, it: nat, cps: seq<nat>) {
    it <= |s| && Decode(s) == Prepend(cps, Decode(s[it..]))
  }

  lemma StartReading(s: seq<Octet>)
    ensures ReadSoFar(s, 0, [])
  {
    assert s[0..] == s;
    PrependNothing(Decode(s));
  }

  lemma ReadOne(s: seq<Octet>, it: nat, cps: seq<nat>)
    requires ReadSoFar(s, it, cps) && it < |s|
    ensures match Parse(s[it..])
            case Read(cp, n) => ReadSoFar(s, it + n, cps + [cp])
            case Failed(e) => Decode(s) == Thrown(Raised(e, s[it]))
  {
    hide Parse;
    var o := Parse(s[it..]);
    if o.Read? {
      assert s[it..][o.length..] == s[it + o.length..];
      PrependTwice(cps, [o.cp], Decode(s[it + o.length..]));
    }
  }

  lemma EndReading(s: seq<Octet>, cps: seq<nat>)
    requires ReadSoFar(s, |s|, cps)
    ensures Decode(s) == Ok(cps)
  {
    assert s[|s|..] == [];
    assert cps + [] == cps;
  }

  method Utf8To32(s: seq<Octet>) returns (r: Result<seq<nat>>)
    ensures r == Decode(s)
  {
    hide Parse, ReadSoFar, Decode;
    var out: seq<nat> := [];
    var it := 0;
    StartReading(s);
    while it < |s|
      invariant it <= |s| && ReadSoFar(s, it, out)
      decreases |s| - it
    {
      ReadOne(s, it, out);
      var cp, next := Next(s, it);
      if cp.Thrown? { return Thrown(cp.exception); }
      out := out + [cp.value];
      it := next;
    }
    EndReading(s, out);
    r := Ok(out);
  }

  // ----- UTF-16 --------------------------------------------------------------------------------------

  predicate IsLeadSurrogate(cp: nat) {
    LEAD_SURROGATE_MIN <= cp <= LEAD_SURROGATE_MAX
  }

  predicate IsTrailSurrogate(cp: nat) {
    TRAIL_SURROGATE_MIN <= cp <= TRAIL_SURROGATE_MAX
  }

  /** One unit, or a pair of surrogates with ten bits each. */
  function Encode16(cp: nat): (u: seq<Unit>)
    requires IsCodePoint(cp)
    ensures 1 <= |u| <= 2
  {
    if cp > 0xffff then [LEAD_OFFSET + cp / 0x400, TRAIL_SURROGATE_MIN + cp % 0x400] else [cp]
  }

  /** The ends of the ranges in section 2 of RFC 2781, and the order of pairs. */
  lemma RangeEnds16(cp: nat)
    requires IsCodePoint(cp)
    ensures cp <= 0xffff ==> Encode16(cp) == [cp]
    ensures Encode16(0x1_0000) == [0xd800, 0xdc00] && Encode16(0x1_03ff) == [0xd800, 0xdfff]
    ensures Encode16(0x1_0400) == [0xd801, 0xdc00] && Encode16(0x10_ffff) == [0xdbff, 0xdfff]
    ensures 0xffff < cp < CODE_POINT_MAX ==>
              var u, v := Encode16(cp), Encode16(cp + 1);
              if u[1] == 0xdfff then v == [u[0] + 1, 0xdc00] else v == [u[0], u[1] + 1]
  {
    if 0xffff < cp < CODE_POINT_MAX {
      var q, r := cp / 0x400, cp % 0x400;
      if r == 0x3ff {
        assert cp + 1 == (q + 1) * 0x400;
      } else {
        assert cp + 1 == q * 0x400 + (r + 1);
      }
    }
  }

  function EncodeAll16(cps: seq<nat>): seq<Unit>
    requires AllPoints(cps)
  {
    if cps == [] then [] else Encode16(cps[0]) + EncodeAll16(cps[1..])
  }

  datatype Outcome16 = Read16(cp: nat, length: nat) | Failed16(word: nat)

  /** What stands at the front of a text of units: a pair counts from 0x10000. */
  function Parse16(u: seq<Unit>): (o: Outcome16)
    requires u != []
    ensures o.Read16? ==> 1 <= o.length <= |u|
  {
    if IsLeadSurrogate(u[0]) then
      if |u| == 1 then Failed16(u[0])
      else if IsTrailSurrogate(u[1]) then
        Read16(0x1_0000 + (u[0] - LEAD_SURROGATE_MIN) * 0x400 + (u[1] - TRAIL_SURROGATE_MIN), 2)
      else Failed16(u[1])
    else if IsTrailSurrogate(u[0]) then Failed16(u[0])
    else Read16(u[0], 1)
  }

  function Decode16(u: seq<Unit>): Result<seq<nat>>
    decreases |u|
  {
    if u == [] then Ok([])
    else
      match Parse16(u)
      case Read16(cp, n) => Prepend([cp], Decode16(u[n..]))
      case Failed16(word) => Thrown(InvalidUtf16(word))
  }

  lemma Parse16Encode(cp: nat, rest: seq<Unit>)
    requires IsCodePoint(cp)
    ensures Parse16(Encode16(cp) + rest) == Read16(cp, |Encode16(cp)|)
  {
  }

  lemma Parse16Exact(u: seq<Unit>)
    requires u != []
    ensures var o := Parse16(u); o.Read16? ==> IsCodePoint(o.cp) && Encode16(o.cp) == u[..o.length]
  {
    var o := Parse16(u);
    if o.Read16? && o.length == 2 {
      var hi, lo := u[0] - LEAD_SURROGATE_MIN + 0x40, u[1] - TRAIL_SURROGATE_MIN;
      assert o.cp == hi * 0x400 + lo && lo < 0x400;
      assert o.cp / 0x400 == hi && o.cp % 0x400 == lo;
    }
  }

  lemma {:induction false} Decode16Encode(cps: seq<nat>)
    requires AllPoints(cps)
    ensures Decode16(EncodeAll16(cps)) == Ok(cps)
    decreases |cps|
  {
    hide Parse16, Encode16;
    if cps != [] {
      var rest := cps[1..];
      Decode16Encode(rest);
      Parse16Encode(cps[0], EncodeAll16(rest));
      assert EncodeAll16(cps)[|Encode16(cps[0])|..] == EncodeAll16(rest);
      assert cps == [cps[0]] + rest;
    }
  }

  /** The valid texts of units are exactly those that some code points encode. */
  lemma {:induction false} Decode16Exact(u: seq<Unit>)
    ensures Decode16(u).Ok? ==> AllPoints(Decode16(u).value) && EncodeAll16(Decode16(u).value) == u
    decreases |u|
  {
    hide Parse16, Encode16;
    if u != [] && Decode16(u).Ok? {
      Parse16Exact(u);
      var n := Parse16(u).length;
      Decode16Exact(u[n..]);
      assert Decode16(u).value[1..] == Decode16(u[n..]).value;
      assert u == u[..n] + u[n..];
    }
  }

  ghost predicate ReadSoFar16(u: seq<Unit>, it: nat, cps: seq<nat>) {
    it <= |u| && AllPoints(cps) && Decode16(u) == Prepend(cps, Decode16(u[it..]))
  }

  lemma StartReading16(u: seq<Unit>)
    ensures ReadSoFar16(u, 0, [])
  {
    assert u[0..] == u;
    PrependNothing(Decode16(u));
  }

  lemma ReadOne16(u: seq<Unit>, it: nat, cps: seq<nat>)
    requires ReadSoFar16(u, it, cps) && it < |u|
    ensures match Parse16(u[it..])
            case Read16(cp, n) => IsCodePoint(cp) && ReadSoFar16(u, it + n, cps + [cp])
            case Failed16(word) => Decode16(u) == Thrown(InvalidUtf16(word))
  {
    hide Parse16;
    var o := Parse16(u[it..]);
    Parse16Exact(u[it..]);
    if o.Read16? {
      assert u[it..][o.length..] == u[it + o.length..];
      PrependTwice(cps, [o.cp], Decode16(u[it + o.length..]));
    }
  }

  lemma EndReading16(u: seq<Unit>, cps: seq<nat>)
    requires ReadSoFar16(u, |u|, cps)
    ensures Decode16(u) == Ok(cps) && AllPoints(cps)
  {
    assert u[|u|..] == [];
    assert cps + [] == cps;
  }

  /** Texts of units as octets. */
  function From16(u: seq<Unit>): Result<seq<Octet>> {
    Decode16Exact(u);
    match Decode16(u)
    case Ok(cps) => Ok(EncodeAll(cps))
    case Thrown(e) => Thrown(e)
  }

  /** Octets as units. */
  function To16(s: seq<Octet>): Result<seq<Unit>> {
    DecodeExact(s);
    match Decode(s)
    case Ok(cps) => Ok(EncodeAll16(cps))
    case Thrown(e) => Thrown(e)
  }

  /** Both directions are inverses, each on all valid texts. */
  lemma RoundTrips(u: seq<Unit>, s: seq<Octet>)
    ensures From16(u).Ok? ==> To16(From16(u).value) == Ok(u)
    ensures To16(s).Ok? ==> From16(To16(s).value) == Ok(s)
    ensures From16(u).Ok? <==> Decode16(u).Ok?
    ensures To16(s).Ok? <==> Decode(s).Ok?
  {
    hide Decode, Decode16, EncodeAll, EncodeAll16;
    Decode16Exact(u);
    DecodeExact(s);
    if Decode16(u).Ok? { DecodeEncode(Decode16(u).value); }
    if Decode(s).Ok? { Decode16Encode(Decode(s).value); }
  }

  /** cp << 10, the other surrogate and SURROGATE_OFFSET, in 32 bits. */
  lemma PairSum(lead: nat, trail: nat)
    requires IsLeadSurrogate(lead) && IsTrailSurrogate(trail)
    ensures (lead * 0x400 + trail + SURROGATE_OFFSET) % 0x1_0000_0000
         == 0x1_0000 + (lead - LEAD_SURROGATE_MIN) * 0x400 + (trail - TRAIL_SURROGATE_MIN)
  {
  }

  method Utf16To8(u: seq<Unit>) returns (r: Result<seq<Octet>>)
    ensures r == From16(u)
  {
    hide Encode, EncodeAll, ReadSoFar16, Decode16, IsCodePoint;
    var out: seq<Octet> := [];
    ghost var cps: seq<nat> := [];
    var start := 0;
    StartReading16(u);
    EncodeNothing();
    while start != |u|
      invariant start <= |u| && ReadSoFar16(u, start, cps) && AllPoints(cps) && out == EncodeAll(cps)
      decreases |u| - start
    {
      ReadOne16(u, start, cps);
      var cp: nat := u[start];
      start := start + 1;
      if IsLeadSurrogate(cp) {
        if start != |u| {
          var trail: nat := u[start];
          start := start + 1;
          if IsTrailSurrogate(trail) {
            PairSum(cp, trail);
            cp := (cp * 0x400 + trail + SURROGATE_OFFSET) % 0x1_0000_0000;
          } else {
            return Thrown(InvalidUtf16(trail));
          }
        } else {
          return Thrown(InvalidUtf16(cp));
        }
      } else if IsTrailSurrogate(cp) {
        return Thrown(InvalidUtf16(cp));
      }
      r := Append(cp, out);
      EncodeMore(cps, cp);
      out := r.value;
      cps := cps + [cp];
    }
    EndReading16(u, cps);
    r := Ok(out);
  }

  lemma {:induction false} Encode16More(cps: seq<nat>, cp: nat)
    requires AllPoints(cps) && IsCodePoint(cp)
    ensures AllPoints(cps + [cp]) && EncodeAll16(cps + [cp]) == EncodeAll16(cps) + Encode16(cp)
    decreases |cps|
  {
    hide Encode16;
    if cps == [] {
      assert EncodeAll16([cp]) == Encode16(cp) + EncodeAll16([]);
      assert cps + [cp] == [cp];
    } else {
      assert (cps + [cp])[1..] == cps[1..] + [cp];
      Encode16More(cps[1..], cp);
    }
  }

  lemma Encode16Nothing()
    ensures EncodeAll16([]) == []
  {
  }

  method Utf8To16(s: seq<Octet>) returns (r: Result<seq<Unit>>)
    ensures r == To16(s)
  {
    hide Parse, ReadSoFar, Decode, EncodeAll16, IsCodePoint;
    var out: seq<Unit> := [];
    ghost var cps: seq<nat> := [];
    var it := 0;
    StartReading(s);
    Encode16Nothing();
    while it < |s|
      invariant it <= |s| && ReadSoFar(s, it, cps) && AllPoints(cps) && out == EncodeAll16(cps)
      decreases |s| - it
    {
      ReadOne(s, it, cps);
      ParseExact(s[it..]);
      var read, next := Next(s, it);
      if read.Thrown? { return Thrown(read.exception); }
      var cp := read.value;
      Encode16More(cps, cp);
      if cp > 0xffff {
        out := out + [LEAD_OFFSET + cp / 0x400, TRAIL_SURROGATE_MIN + cp % 0x400];
      } else {
        out := out + [cp];
      }
      cps := cps + [cp];
      it := next;
    }
    EndReading(s, cps);
    r := Ok(out);
  }

  // ----- replace_invalid ---------------------------------------------------------------------------

  /** Readable code points stay, each damaged sequence becomes one mark, and a broken end becomes one mark. */
  function Repair(s: seq<Octet>, mark: seq<Octet>): seq<Octet>
    decreases |s|
  {
    if s == [] then []
    else
      match Parse(s)
      case Read(_, n) => s[..n] + Repair(s[n..], mark)
      case Failed(NOT_ENOUGH_ROOM) => mark
      case Failed(INVALID_LEAD) => mark + Repair(s[1..], mark)
      case Failed(_) => mark + Repair(s[1 + Trails(s[1..], |s| - 1)..], mark)
  }

  /** The result is valid text. */
  lemma {:induction false} RepairValid(s: seq<Octet>, replacement: nat)
    requires IsCodePoint(replacement)
    ensures Decode(Repair(s, Encode(replacement))).Ok?
    decreases |s|
  {
    hide Parse, Encode, Decode, Trails;
    var mark := Encode(replacement);
    OnePoint(replacement);
    DecodeNothing();
    if s != [] {
      match Parse(s) {
        case Read(cp, n) =>
          ParseExact(s);
          OnePoint(cp);
          RepairValid(s[n..], replacement);
          DecodeAppend(s[..n], Repair(s[n..], mark));
        case Failed(NOT_ENOUGH_ROOM) =>
        case Failed(INVALID_LEAD) =>
          RepairValid(s[1..], replacement);
          DecodeAppend(mark, Repair(s[1..], mark));
        case Failed(_) =>
          var rest := s[1 + Trails(s[1..], |s| - 1)..];
          RepairValid(rest, replacement);
          DecodeAppend(mark, Repair(rest, mark));
      }
    }
  }

  lemma DecodeNothing()
    ensures Decode([]) == Ok([])
  {
  }

  /** Valid text stays as it is, whatever follows. */
  lemma {:induction false} RepairKeeps(s: seq<Octet>, rest: seq<Octet>, mark: seq<Octet>)
    requires Decode(s).Ok?
    ensures Repair(s + rest, mark) == s + Repair(rest, mark)
    decreases |s|
  {
    hide Parse;
    if s == [] {
      assert s + rest == rest;
    } else {
      var n := Parse(s).length;
      ParseFront(s, rest);
      assert (s + rest)[n..] == s[n..] + rest && (s + rest)[..n] == s[..n];
      RepairKeeps(s[n..], rest, mark);
      assert s == s[..n] + s[n..];
    }
  }

  /** Repairing changes a text if and only if it is damaged, and once is enough. */
  lemma RepairIsProjection(s: seq<Octet>, replacement: nat)
    requires IsCodePoint(replacement)
    ensures var r := Repair(s, Encode(replacement));
            (r == s <==> Decode(s).Ok?) && Repair(r, Encode(replacement)) == r
  {
    hide Parse, Encode, Decode;
    var mark := Encode(replacement);
    RepairValid(s, replacement);
    var r := Repair(s, mark);
    assert Repair([], mark) == [] && r + [] == r && s + [] == s;
    RepairKeeps(r, [], mark);
    if Decode(s).Ok? { RepairKeeps(s, [], mark); }
  }

  /** What is out so far and what remains to be repaired. */
  ghost predicate RepairedSoFar(s: seq<Octet>, start: nat, mark: seq<Octet>, out: seq<Octet>) {
    start <= |s| && Repair(s, mark) == out + Repair(s[start..], mark)
  }

  lemma RepairOne(s: seq<Octet>, start: nat, mark: seq<Octet>, out: seq<Octet>)
    requires RepairedSoFar(s, start, mark, out) && start < |s|
    ensures match Parse(s[start..])
            case Read(_, n) => RepairedSoFar(s, start + n, mark, out + s[start..start + n])
            case Failed(NOT_ENOUGH_ROOM) => RepairedSoFar(s, |s|, mark, out + mark)
            case Failed(INVALID_LEAD) => RepairedSoFar(s, start + 1, mark, out + mark)
            case Failed(_) => RepairedSoFar(s, start + 1 + Trails(s[start + 1..], |s| - start - 1), mark, out + mark)
  {
    hide Parse, Trails;
    var t := s[start..];
    match Parse(t) {
      case Read(_, n) =>
        assert t[..n] == s[start..start + n] && t[n..] == s[start + n..];
      case Failed(NOT_ENOUGH_ROOM) =>
        assert s[|s|..] == [];
      case Failed(INVALID_LEAD) =>
        assert t[1..] == s[start + 1..];
      case Failed(_) =>
        assert t[1..] == s[start + 1..];
        var k := Trails(s[start + 1..], |s| - start - 1);
        assert t[1 + k..] == s[start + 1 + k..];
    }
  }

  lemma StartRepair(s: seq<Octet>, mark: seq<Octet>)
    ensures RepairedSoFar(s, 0, mark, [])
  {
    assert s[0..] == s;
  }

  lemma EndRepair(s: seq<Octet>, mark: seq<Octet>, out: seq<Octet>)
    requires RepairedSoFar(s, |s|, mark, out)
    ensures Repair(s, mark) == out
  {
    assert s[|s|..] == [];
  }

  /** Skip the trails after a damaged lead. */
  method SkipTrails(s: seq<Octet>, from: nat) returns (start: nat)
    requires from <= |s|
    ensures start == from + Trails(s[from..], |s| - from)
  {
    start := from;
    while start != |s| && IsTrail(s[start])
      invariant from <= start <= |s|
      invariant Trails(s[from..], |s| - from) == start - from + Trails(s[start..], |s| - start)
      decreases |s| - start
    {
      assert s[start..][1..] == s[start + 1..];
      start := start + 1;
    }
  }

  /**
    replace_invalid ends for every input; an invalid replacement throws as soon as
    it is needed, so exactly if the text is damaged.
   */
  method ReplaceInvalid(s: seq<Octet>, replacement: nat) returns (r: Result<seq<Octet>>)
    ensures r == if IsCodePoint(replacement) then Ok(Repair(s, Encode(replacement)))
                 else if Decode(s).Ok? then Ok(s)
                 else Thrown(InvalidCodePoint(replacement))
  {
    hide Parse, Decode, Encode, RepairedSoFar, ReadSoFar, Trails, IsCodePoint;
    ghost var mark := if IsCodePoint(replacement) then Encode(replacement) else [];
    ghost var cps: seq<nat> := [];
    var out: seq<Octet> := [];
    var start := 0;
    StartRepair(s, mark);
    StartReading(s);
    while start != |s|
      invariant start <= |s| && RepairedSoFar(s, start, mark, out)
      invariant !IsCodePoint(replacement) ==> ReadSoFar(s, start, cps) && out == s[..start]
      decreases |s| - start
    {
      RepairOne(s, start, mark, out);
      if !IsCodePoint(replacement) { ReadOne(s, start, cps); }
      var err, next, cp := ValidateNext(s, start, 0);
      if err == None {
        out := out + s[start..next];
        cps := cps + [cp];
        start := next;
      } else {
        r := Append(replacement, out);
        if r.Thrown? { return; }
        out := r.value;
        match err {
          case Some(NOT_ENOUGH_ROOM) => start := |s|;
          case Some(INVALID_LEAD) => start := start + 1;
          case Some(_) => start := SkipTrails(s, start + 1);
        }
      }
    }
    EndRepair(s, mark, out);
    if !IsCodePoint(replacement) {
      EndReading(s, cps);
      assert s[..|s|] == s;
    }
    r := Ok(out);
  }

  // ----- prior ---------------------------------------------------------------------------------------

  /** The last octet of a text that is no trail, or the first octet if all are. */
  ghost predicate IsLastLead(t: seq<Octet>, at: nat) {
    && at < |t|
    && (forall i :: at < i < |t| ==> IsTrail(t[i]))
    && (at == 0 || !IsTrail(t[at]))
  }

  method Prior(s: seq<Octet>, it: nat) returns (r: Result<nat>, at: nat)
    requires it <= |s|
    ensures it == 0 ==> r == Thrown(NotEnoughRoom) && at == 0
    ensures it > 0 ==> IsLastLead(s[..it], at)
    ensures it > 0 && IsTrail(s[at]) ==> r == Thrown(InvalidUtf8(s[0]))
    ensures it > 0 && !IsTrail(s[at]) ==>
              match Parse(s[at..it]) case Read(cp, _) => r == Ok(cp) case Failed(e) => r == Thrown(Raised(e, s[at]))
  {
    hide Parse, IsTrail;
    if it == 0 { return Thrown(NotEnoughRoom), 0; }
    at := it - 1;
    while IsTrail(s[at])
      invariant 0 <= at < it && forall i :: at < i < it ==> IsTrail(s[i])
      decreases at
    {
      if at == 0 { return Thrown(InvalidUtf8(s[0])), at; }
      at := at - 1;
    }
    assert s[..it][at..] == s[at..it];
    var next;
    r, next := Next(s[..it], at);
  }

  /** Stepping back over a code point that was written gives it, whatever stands before. */
  lemma PriorOfWritten(front: seq<Octet>, cp: nat, at: nat)
    requires IsCodePoint(cp) && IsLastLead(front + Encode(cp), at)
    ensures at == |front|
    ensures Parse((front + Encode(cp))[at..]) == Read(cp, |Encode(cp)|)
  {
    hide Parse, Encode, IsTrail;
    var e := Encode(cp);
    var t := front + e;
    EncodeShape(cp);
    assert forall i :: |front| <= i < |t| ==> t[i] == e[i - |front|];
    assert t[|front|..] == e + [];
    ParseEncode(cp, []);
  }

  /**
    prior may give a code point although the text it steps over is no valid text:
    it does so exactly if more trails follow than the lead calls for.
   */
  lemma PriorStepsOverStrays(t: seq<Octet>, at: nat)
    requires IsLastLead(t, at) && Parse(t[at..]).Read?
    ensures Decode(t[at..]).Ok? <==> at + Parse(t[at..]).length == |t|
  {
    hide Parse, IsTrail;
    var u := t[at..];
    var n := Parse(u).length;
    if n < |u| {
      assert u[n] == t[at + n];
      StrayTrail(u[n..]);
    } else {
      assert u[n..] == [];
    }
  }

  lemma StrayTrail(u: seq<Octet>)
    requires u != [] && IsTrail(u[0])
    ensures Parse(u) == Failed(INVALID_LEAD)
  {
  }

  /** An example: a stray trail after a letter. */
  lemma StrayExample()
    ensures var t: seq<Octet> := [0x61, 0x80]; IsLastLead(t, 0) && Parse(t[0..]) == Read(0x61, 1) && Decode(t).Thrown?
  {
    hide Parse;
    var t: seq<Octet> := [0x61, 0x80];
    assert t == Encode(0x61) + [0x80];
    ParseEncode(0x61, [0x80]);
    assert t[1..] == [0x80];
    StrayTrail(t[1..]);
  }
}
