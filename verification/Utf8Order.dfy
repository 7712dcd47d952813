/**
  Which octets a code point has: UTF-8 keeps the order of code points (section 1 of
  RFC 3629), and the ends of the ranges in section 3 are what they are there.
 */
module Utf8Order {
  import opened Utf8

  /** s comes before t, element by element from the front; a text comes before what continues it. */
  predicate LexLess(s: seq<nat>, t: seq<nat>)
    decreases |t|
  {
    t != [] && (s == [] || s[0] < t[0] || (s[0] == t[0] && LexLess(s[1..], t[1..])))
  }

  /** Two texts are ordered as the first elements in which they differ. */
  lemma {:induction false} LexAt(s: seq<nat>, t: seq<nat>, k: nat)
    requires k < |s| && k < |t| && s[..k] == t[..k]
    ensures LexLess(s, t) <==> s[k] < t[k] || (s[k] == t[k] && LexLess(s[k + 1..], t[k + 1..]))
    decreases k
  {
    if k > 0 {
      assert s[0] == s[..k][0] == t[..k][0] == t[0];
      assert s[1..][..k - 1] == s[..k][1..] && t[1..][..k - 1] == t[..k][1..];
      LexAt(s[1..], t[1..], k - 1);
      assert s[1..][k..] == s[k + 1..] && t[1..][k..] == t[k + 1..];
    }
  }

  // ----- one code point ------------------------------------------------------------------

  /** The octets are groups of six bits behind the marks for the length. */
  lemma Groups(cp: nat) returns (a: nat, b: nat, c: nat, d: nat)
    requires IsCodePoint(cp)
    ensures b < 0x40 && c < 0x40 && d < 0x40 && cp == a * 0x4_0000 + b * 0x1000 + c * 0x40 + d
    ensures var n := |Encode(cp)|;
            && Encode(cp) == (if n == 1 then [cp]
                              else if n == 2 then [0xc0 + c, 0x80 + d]
                              else if n == 3 then [0xe0 + b, 0x80 + c, 0x80 + d]
                              else [0xf0 + a, 0x80 + b, 0x80 + c, 0x80 + d])
            && (n < 4 ==> a == 0) && (n < 3 ==> b == 0)
  {
    a, b, c, d := AllSixes(cp);
    Sixes(cp, a, b, c, d);
  }

  /** The first octet in which the encodings of two code points differ is smaller for the smaller one. */
  lemma FirstDifference(x: nat, y: nat) returns (k: nat)
    requires IsCodePoint(x) && IsCodePoint(y) && x < y
    ensures k < |Encode(x)| && k < |Encode(y)|
    ensures Encode(x)[..k] == Encode(y)[..k] && Encode(x)[k] < Encode(y)[k]
  {
    hide Encode, IsCodePoint;
    k := 0;
    if |Encode(x)| == |Encode(y)| {
      var a, b, c, d := Groups(x);
      var e, f, g, h := Groups(y);
      var n := |Encode(x)|;
      if n > 1 { k := n - (if a < e then 4 else if b < f then 3 else if c < g then 2 else 1); }
    } else {
      LengthsGrow(x, y);
      LeadsApart(x, y);
    }
  }

  lemma LengthsGrow(x: nat, y: nat)
    requires IsCodePoint(x) && IsCodePoint(y) && x < y
    ensures |Encode(x)| <= |Encode(y)|
  {
  }

  lemma LeadsApart(x: nat, y: nat)
    requires IsCodePoint(x) && IsCodePoint(y) && |Encode(x)| < |Encode(y)|
    ensures Encode(x)[0] < Encode(y)[0]
  {
  }

  /** Encoding keeps the order, octet by octet. */
  lemma EncodeOrder(x: nat, y: nat)
    requires IsCodePoint(x) && IsCodePoint(y)
    ensures x < y <==> LexLess(Encode(x), Encode(y))
  {
    hide Encode, IsCodePoint;
    if x < y {
      var k := FirstDifference(x, y);
      LexAt(Encode(x), Encode(y), k);
    } else if y < x {
      var k := FirstDifference(y, x);
      LexAt(Encode(x), Encode(y), k);
    } else {
      NotBefore(Encode(x));
    }
  }

  lemma {:induction false} NotBefore(s: seq<nat>)
    ensures !LexLess(s, s)
  {
    if s != [] { NotBefore(s[1..]); }
  }

  /** The same of whole texts, whatever their lengths. */
  lemma {:induction false} TextOrder(xs: seq<nat>, ys: seq<nat>)
    requires AllPoints(xs) && AllPoints(ys)
    ensures LexLess(xs, ys) <==> LexLess(EncodeAll(xs), EncodeAll(ys))
    decreases |xs|
  {
    hide Encode, IsCodePoint;
    if ys == [] {
    } else if xs == [] {
    } else {
      var x, y, s, t := xs[0], ys[0], EncodeAll(xs[1..]), EncodeAll(ys[1..]);
      if x == y {
        TextOrder(xs[1..], ys[1..]);
        SameStart(Encode(x), s, t);
      } else {
        Apart(x, y, s, t);
      }
    }
  }

  lemma Apart(x: nat, y: nat, s: seq<nat>, t: seq<nat>)
    requires IsCodePoint(x) && IsCodePoint(y) && x != y
    ensures LexLess(Encode(x) + s, Encode(y) + t) <==> x < y
  {
    hide Encode, IsCodePoint;
    var a, b := Encode(x), Encode(y);
    var k;
    if x < y { k := FirstDifference(x, y); } else { k := FirstDifference(y, x); }
    assert (a + s)[..k] == a[..k] && (b + t)[..k] == b[..k];
    LexAt(a + s, b + t, k);
  }

  lemma SameStart(e: seq<nat>, s: seq<nat>, t: seq<nat>)
    requires e != []
    ensures LexLess(e + s, e + t) <==> LexLess(s, t)
  {
    var k := |e| - 1;
    assert (e + s)[..k] == e[..k] == (e + t)[..k] && (e + s)[k + 1..] == s && (e + t)[k + 1..] == t;
    LexAt(e + s, e + t, k);
  }

  // ----- the ends of the ranges ------------------------------------------------------------

  lemma RangeEnds()
    ensures Encode(0x0) == [0x00] && Encode(0x7f) == [0x7f]
    ensures Encode(0x80) == [0xc2, 0x80] && Encode(0x7ff) == [0xdf, 0xbf]
    ensures Encode(0x800) == [0xe0, 0xa0, 0x80] && Encode(0xd7ff) == [0xed, 0x9f, 0xbf]
    ensures Encode(0xe000) == [0xee, 0x80, 0x80] && Encode(0xffff) == [0xef, 0xbf, 0xbf]
    ensures Encode(0x1_0000) == [0xf0, 0x90, 0x80, 0x80] && Encode(0x10_ffff) == [0xf4, 0x8f, 0xbf, 0xbf]
  {
  }
}
