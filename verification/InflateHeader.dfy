/**
  The TABLE, LENLENS and CODELENS states of deps/zlib/inflate.c: the header of a
  dynamic block, read from whatever input has arrived.
 */
module InflateHeader {
  import opened Wrappers
  import opened Bits
  import opened Canonical
  import opened BitIo
  import opened InflateSpec
  import opened InflateTable
  import opened InflateLookup
  import opened CodeLengths
  import opened Header
  import BitLengths
  import opened Inflate
  import opened InflateProgress

  /** A table without second level. */
  ghost predicate Flat(t: seq<Code>, root: nat) {
    forall i :: 0 <= i < |t| && i < Pow2(root) ==> !IsLink(t[i])
  }

  lemma FlatEntry(t: seq<Code>, root: nat, v: nat)
    requires Flat(t, root) && Low(v, root) < |t|
    ensures !IsLink(t[Low(v, root)])
  {
    LowBound(v, root);
  }

  /** The loop that looks up a code length symbol without dropping it. */
  method PeekSymbol(d: Inflater, t: seq<Code>, root: nat) returns (ok: bool, here: Code)
    requires d.Reading() && Usable(t, root) && Flat(t, root) && d.bits < Needs(t, root, d.Ahead()) + 8
    modifies d`hold, d`bits, d`source
    ensures d.Reading() && d.Ahead() == old(d.Ahead()) && d.bits < Needs(t, root, d.Ahead()) + 8
    ensures ok ==> Lookup(t, root, d.Ahead()) == Some((here, here.bits)) && Needs(t, root, d.Ahead()) == here.bits <= d.bits
    ensures !ok ==> d.source == [] && d.bits < Needs(t, root, d.Ahead())
  {
    hide Low, Pow2, Rest, Bytes, Always, Early, LinksOk, Lookup, Needs, Flat;
    LookupParts(t, root, d.hold);
    FlatEntry(t, root, d.hold);
    here := t[Low(d.hold, root)];
    while here.bits > d.bits
      invariant d.Reading() && d.Ahead() == old(d.Ahead()) && d.bits < Needs(t, root, d.Ahead()) + 8
      invariant Low(d.hold, root) < |t| && here == t[Low(d.hold, root)]
      decreases |d.source|
    {
      LookupParts(t, root, d.hold);
      FlatEntry(t, root, d.hold);
      Lacking(t, root, d.hold, d.bits, d.source + d.future);
      if d.source == [] { return false, here; }
      d.Pull();
      LookupParts(t, root, d.hold);
      here := t[Low(d.hold, root)];
    }
    LookupParts(t, root, d.hold);
    FlatEntry(t, root, d.hold);
    FoundEarly(t, root, d.hold, d.bits, d.source + d.future);
    ok := true;
  }

  datatype Status = Wait | Done | Bad

  /** The repeat count behind a symbol: its bits must be there before anything is dropped. */
  method ReadCount(d: Inflater, symbolBits: nat, n: nat) returns (ok: bool, x: nat)
    requires d.Reading() && d.bits < symbolBits + 8 && symbolBits <= d.bits && n <= 7
    modifies d`hold, d`bits, d`source
    ensures d.Reading()
    ensures !ok ==> d.source == [] && d.Ahead() == old(d.Ahead()) && d.bits < symbolBits + n
    ensures ok ==> x == Low(Shr(old(d.Ahead()), symbolBits), n) && d.Ahead() == Shr(old(d.Ahead()), symbolBits + n) && d.bits < 8
  {
    hide Low, Shr, Pow2, Rest, Bytes;
    ghost var v := d.Ahead();
    x := 0;
    ok := d.NeedBits(symbolBits + n);
    if !ok { return; }
    d.Drop(symbolBits);
    HoldBits(d.hold, d.bits, d.source + d.future, n);
    x := Low(d.hold, n);
    d.Drop(n);
    ShrShr(v, symbolBits, n);
  }

  /** The bits behind a symbol of the code length code. */
  function CountBits(symbol: nat): nat {
    if symbol < 16 then 0 else if symbol == 16 then 2 else if symbol == 17 then 3 else 7
  }

  /** The bits of the next symbol and its repeat count. */
  ghost function LensDue(t: seq<Code>, root: nat, v: nat): nat {
    match Lookup(t, root, v)
    case None => 0
    case Some((here, n)) => n + CountBits(here.val)
  }

  lemma LensDueIs(t: seq<Code>, root: nat, v: nat)
    ensures LensDue(t, root, v) >= Needs(t, root, v)
    ensures match Lookup(t, root, v) case None => true case Some((here, n)) => LensDue(t, root, v) == n + CountBits(here.val)
  {
    hide Lookup;
  }

  /**
    CODELENS: read lengths until `total` are there.  Whether it stops for want of
    input or goes on, the lengths the whole stream stands for stay the same.
   */
  method CodeLens(d: Inflater, t: seq<Code>, root: nat, lens0: seq<nat>, total: nat) returns (status: Status, lens: seq<nat>)
    requires d.Reading() && Usable(t, root) && Flat(t, root) && |lens0| <= total && d.bits < Needs(t, root, d.Ahead()) + 8
    modifies d`hold, d`bits, d`source
    ensures d.Reading()
    ensures status != Bad ==> |lens| <= total && ReadLens(t, root, d.Ahead(), lens, total) == ReadLens(t, root, old(d.Ahead()), lens0, total)
    ensures status == Done ==> |lens| == total && (d.bits < 8 || lens == lens0)
    ensures status == Wait ==> d.source == [] && d.bits < Needs(t, root, d.Ahead()) + 8
    ensures status == Wait ==> |lens| < total && d.bits < LensDue(t, root, d.Ahead())
    ensures status == Bad ==> ReadLens(t, root, old(d.Ahead()), lens0, total) == BadLengths
  {
    hide Low, Shr, Pow2, Rest, Bytes, Usable, Flat, Lookup, ReadLens, Needs, LensDue;
    lens := lens0;
    while |lens| < total
      invariant d.Reading() && |lens| <= total && (d.bits < 8 || (lens == lens0 && d.bits < Needs(t, root, d.Ahead()) + 8))
      invariant ReadLens(t, root, d.Ahead(), lens, total) == ReadLens(t, root, old(d.Ahead()), lens0, total)
      decreases total - |lens|
    {
      var ok, here := PeekSymbol(d, t, root);
      LensDueIs(t, root, d.Ahead());
      if !ok { return Wait, lens; }
      ghost var v := d.Ahead();
      ReadStep(t, root, v, lens, total, here);
      if here.val < 16 {
        d.Drop(here.bits);
        lens := lens + [here.val];
      } else {
        var len, base, n := 0, 3, 2;
        if here.val == 16 {
          if lens == [] {
            ok := d.NeedBits(here.bits + 2);
            if !ok { return Wait, lens; }
            return Bad, lens;
          }
          len := lens[|lens| - 1];
        } else if here.val == 17 {
          n := 3;
        } else {
          base, n := 11, 7;
        }
        var x;
        ok, x := ReadCount(d, here.bits, n);
        if !ok { return Wait, lens; }
        var copy := base + x;
        if |lens| + copy > total { return Bad, lens; }
        lens := lens + Repeat(len, copy);
      }
    }
    status := Done;
  }

  /** One step of the reference reader. */
  lemma ReadStep(t: seq<Code>, root: nat, v: nat, lens: seq<nat>, total: nat, here: Code)
    requires |lens| < total && Lookup(t, root, v) == Some((here, here.bits))
    ensures here.val < 16 ==>
              ReadLens(t, root, v, lens, total) == ReadLens(t, root, Shr(v, here.bits), lens + [here.val], total)
    ensures here.val == 16 && lens == [] ==> ReadLens(t, root, v, lens, total) == BadLengths
    ensures here.val == 16 && lens != [] ==>
              RunStep(t, root, v, lens, total, here.bits, lens[|lens| - 1], 3, 2)
    ensures here.val == 17 ==> RunStep(t, root, v, lens, total, here.bits, 0, 3, 3)
    ensures here.val > 17 ==> RunStep(t, root, v, lens, total, here.bits, 0, 11, 7)
  {
    hide Lookup, Low, Shr;
    var n := here.bits;
    if here.val == 16 && lens != [] {
      var copy := 3 + Low(Shr(v, n), 2);
      assert ReadLens(t, root, v, lens, total) == ReadRun(t, root, Shr(v, n + 2), lens, total, lens[|lens| - 1], copy);
    } else if here.val == 17 {
      var copy := 3 + Low(Shr(v, n), 3);
      assert ReadLens(t, root, v, lens, total) == ReadRun(t, root, Shr(v, n + 3), lens, total, 0, copy);
    } else if here.val > 17 {
      var copy := 11 + Low(Shr(v, n), 7);
      assert ReadLens(t, root, v, lens, total) == ReadRun(t, root, Shr(v, n + 7), lens, total, 0, copy);
    }
  }

  ghost predicate RunStep(t: seq<Code>, root: nat, v: nat, lens: seq<nat>, total: nat, bits: nat, len: nat, base: nat, n: nat) {
    var copy := base + Low(Shr(v, bits), n);
    ReadLens(t, root, v, lens, total) ==
      if |lens| + copy > total then BadLengths else ReadLens(t, root, Shr(v, bits + n), lens + Repeat(len, copy), total)
  }

  /** TABLE: the three counts. */
  method ReadCounts(d: Inflater) returns (ok: bool, nlen: nat, ndist: nat, ncode: nat)
    requires d.Reading() && d.bits < 8
    modifies d`hold, d`bits, d`source
    ensures d.Reading()
    ensures !ok ==> d.source == [] && d.bits < 14 && d.Ahead() == old(d.Ahead())
    ensures ok ==>
              var v := old(d.Ahead());
              && nlen == Low(v, 5) + 257 && ndist == Low(Shr(v, 5), 5) + 1 && ncode == Low(Shr(Shr(v, 5), 5), 4) + 4
              && d.Ahead() == Shr(Shr(Shr(v, 5), 5), 4) && d.bits < 8
  {
    hide Low, Shr, Pow2, Rest, Bytes;
    nlen, ndist, ncode := 0, 0, 0;
    ok := d.NeedBits(14);
    if !ok { return; }
    HoldBits(d.hold, d.bits, d.source + d.future, 5);
    nlen := Low(d.hold, 5) + 257;
    d.Drop(5);
    HoldBits(d.hold, d.bits, d.source + d.future, 5);
    ndist := Low(d.hold, 5) + 1;
    d.Drop(5);
    HoldBits(d.hold, d.bits, d.source + d.future, 4);
    ncode := Low(d.hold, 4) + 4;
    d.Drop(4);
  }

  /** LENLENS: the lengths of the code length code. */
  method ReadBl(d: Inflater, ncode: nat) returns (ok: bool, values: seq<nat>)
    requires d.Reading() && d.bits < 8
    modifies d`hold, d`bits, d`source
    ensures d.Reading()
    ensures ok ==> values == Taken(old(d.Ahead()), Threes(ncode)) && d.Ahead() == Shr(old(d.Ahead()), 3 * ncode) && d.bits < 8
    ensures ok ==> |values| == ncode && forall i :: 0 <= i < |values| ==> values[i] <= 7
    ensures !ok ==> d.source == [] && d.bits < 3 && exists have: nat :: have < ncode && d.Ahead() == Shr(old(d.Ahead()), 3 * have)
  {
    hide Low, Shr, Pow2, Rest, Bytes, Taken;
    ghost var v := d.Ahead();
    values := [];
    NoBits(v);
    var have := 0;
    while have < ncode
      invariant 0 <= have <= ncode && |values| == have && d.Reading() && d.bits < 8
      invariant d.Ahead() == Shr(v, 3 * have) && Taken(v, Threes(ncode)) == values + Taken(d.Ahead(), Threes(ncode - have))
      invariant forall i :: 0 <= i < |values| ==> values[i] <= 7
    {
      ok := d.NeedBits(3);
      if !ok { return; }
      HoldBits(d.hold, d.bits, d.source + d.future, 3);
      ThreeMore(d.Ahead(), ncode - have);
      ShrShr(v, 3 * have, 3);
      values := values + [Low(d.hold, 3)];
      d.Drop(3);
      have := have + 1;
    }
    NoneTaken(d.Ahead());
    ok := true;
  }

  lemma ThreeMore(v: nat, n: nat)
    requires n > 0
    ensures Taken(v, Threes(n)) == [Low(v, 3)] + Taken(Shr(v, 3), Threes(n - 1)) && Low(v, 3) <= 7
  {
    hide Low, Shr, Pow2;
    assert Threes(n)[1..] == Threes(n - 1);
    LowBound(v, 3);
    SmallPowers();
  }

  lemma NoneTaken(v: nat)
    ensures Taken(v, Threes(0)) == []
  {
  }

  /** The table of the code length code serves, whether it is complete or empty. */
  lemma BlTableServes(t: seq<Code>, root: nat, bl: seq<nat>)
    requires |bl| == 19 && ValidLens(bl) && LinksOk(t, root) && LinksNeeded(t, root, bl)
    requires forall i :: 0 <= i < |bl| ==> bl[i] <= root
    requires if Empty(bl) then RejectsOthers(t, root, bl) else Prefix(bl) && Complete(bl) && Decodes(t, root, bl, CODES)
    ensures Usable(t, root) && Flat(t, root)
  {
    hide Prefix, Complete, Decodes, RejectsOthers, Usable, LinksOk;
    if Empty(bl) {
      EmptyDecodes(t, root, bl);
      ShortUsable(t, root, bl, CODES);
    } else {
      CompleteUsable(t, root, bl, CODES);
    }
  }

  lemma EmptyDecodes(t: seq<Code>, root: nat, bl: seq<nat>)
    requires |bl| == 19 && Empty(bl)
    ensures Decodes(t, root, bl, CODES)
  {
  }

  /** What the header says, by the reference reader. */
  ghost predicate HeaderSays(v: nat, bt: seq<Code>, broot: nat, bl: seq<nat>, ncode: nat, ll: seq<nat>, dl: seq<nat>, rest: nat) {
    var u := Shr(Shr(Shr(v, 5), 5), 4);
    && |ll| == Low(v, 5) + 257 && |dl| == Low(Shr(v, 5), 5) + 1 && ncode == Low(Shr(Shr(v, 5), 5), 4) + 4 && ncode <= 19
    && bl == BlReceived(Taken(u, Threes(ncode)))
    && ReadLens(bt, broot, Shr(u, 3 * ncode), [], |ll| + |dl|) == Lengths(ll + dl, rest)
  }

  /** The stream v has a valid header of a dynamic block: for the lengths x and y, by the code lengths bl; `rest` follows. */
  ghost predicate HeaderIs(v: nat, x: seq<nat>, y: seq<nat>, bl: seq<nat>, rest: nat) {
    var u, ncode := Shr(Shr(Shr(v, 5), 5), 4), Low(Shr(Shr(v, 5), 5), 4) + 4;
    && |x| == Low(v, 5) + 257 <= 286 && |y| == Low(Shr(v, 5), 5) + 1 <= 30 && x[256] != 0
    && ncode <= 19 && |bl| == 19 && ValidLens(bl) && Prefix(bl) && Complete(bl) && bl == BlReceived(Taken(u, Threes(ncode)))
    && Shr(u, 3 * ncode) > 0
    && LensAre(Shr(u, 3 * ncode), x, y, bl, rest)
  }

  /** By any table for the code length code, the stream w has the lengths x and y. */
  ghost predicate LensAre(w: nat, x: seq<nat>, y: seq<nat>, bl: seq<nat>, rest: nat) {
    forall t, root {:trigger Decodes(t, root, bl, CODES)} ::
      |bl| == 19 && Decodes(t, root, bl, CODES) ==> ReadLens(t, root, w, [], |x| + |y|) == Lengths(x + y, rest)
  }

  lemma {:induction false} NoLensAfterZero(t: seq<Code>, root: nat, lens: seq<nat>, total: nat)
    ensures match ReadLens(t, root, 0, lens, total) case Lengths(_, rest) => rest == 0 case BadLengths => true
    decreases if |lens| < total then total - |lens| else 0
  {
    hide Lookup, Shr, Low;
    if |lens| < total {
      match Lookup(t, root, 0) {
        case None =>
        case Some((here, n)) =>
          ShrOfZero(n + CountBits(here.val));
          if here.val < 16 {
            NoLensAfterZero(t, root, lens + [here.val], total);
          } else if here.val != 16 || lens != [] {
            var len := if here.val == 16 then lens[|lens| - 1] else 0;
            var copy := (if here.val < 18 then 3 else 11) + Low(Shr(0, n), CountBits(here.val));
            if |lens| + copy <= total { NoLensAfterZero(t, root, lens + Repeat(len, copy), total); }
          }
      }
    }
  }

  /** If the next length needs more bits than are left, the lengths take all of them. */
  lemma CutInLens(t: seq<Code>, root: nat, v: nat, lens: seq<nat>, total: nat)
    requires |lens| < total && v < Pow2(LensDue(t, root, v))
    ensures match ReadLens(t, root, v, lens, total) case Lengths(_, rest) => rest == 0 case BadLengths => true
  {
    hide Lookup, Shr, Low, Pow2;
    match Lookup(t, root, v) {
      case None =>
      case Some((here, n)) =>
        ShrPast(v, n + CountBits(here.val), n + CountBits(here.val));
        if here.val < 16 {
          NoLensAfterZero(t, root, lens + [here.val], total);
        } else if here.val != 16 || lens != [] {
          var len := if here.val == 16 then lens[|lens| - 1] else 0;
          var copy := (if here.val < 18 then 3 else 11) + Low(Shr(v, n), CountBits(here.val));
          if |lens| + copy <= total { NoLensAfterZero(t, root, lens + Repeat(len, copy), total); }
        }
    }
  }

  /**
    The header of a dynamic block from counts to code lengths, if all of it is
    there: the lengths are those the stream stands for.  A valid header (for x and
    y, say) that ends within the input is all there.
   */
  method ReadTrees(d: Inflater, ghost x: seq<nat>, ghost y: seq<nat>, ghost blxy: seq<nat>, ghost rest: nat)
    returns (status: Status, ll: seq<nat>, dl: seq<nat>, ghost bl: seq<nat>, ghost bt: seq<Code>, ghost broot: nat, ghost ncode: nat)
    requires d.Reading() && d.bits < 8
    modifies d`hold, d`bits, d`source
    ensures d.Reading()
    ensures status == Done ==> HeaderSays(old(d.Ahead()), bt, broot, bl, ncode, ll, dl, d.Ahead()) && d.bits < 8
    ensures status == Done ==> |ll| <= 286 && |dl| <= 30 && ll[256] != 0
    ensures status == Done && Prefix(bl) && Complete(bl) ==> Decodes(bt, broot, bl, CODES)
    ensures HeaderIs(old(d.Ahead()), x, y, blxy, rest) && rest > 0 && d.future == [1] ==> status == Done
  {
    hide Low, Shr, Pow2, Rest, Bytes, Taken, BlReceived, ReadLens, Usable, Flat, LinksOk, LinksNeeded, Decodes, RejectsOthers,
         Prefix, Complete, Needs, Empty, Acceptable, HeaderIs, LensDue, LensAre;
    ll, dl, bl, bt, broot, ncode := [], [], [], [], 0, 0;
    ghost var v, known := d.Ahead(), HeaderIs(d.Ahead(), x, y, blxy, rest) && rest > 0 && d.future == [1];
    if known { HeaderFacts(v, x, y, blxy, rest); }
    var ok, nlen, ndist, n := ReadCounts(d);
    if !ok {
      if known { NotInCounts(d, v, x, y, blxy, rest); }
      return Wait, ll, dl, bl, bt, broot, ncode;
    }
    if nlen > 286 || ndist > 30 { return Bad, ll, dl, bl, bt, broot, ncode; }
    CountsSmall(v);
    var values;
    ok, values := ReadBl(d, n);
    if !ok {
      if known { NotInBl(d, v, x, y, blxy, rest); }
      return Wait, ll, dl, bl, bt, broot, ncode;
    }
    ncode := n;
    bl := BlReceived(values);
    BlSmall(values);
    status, ll, dl, bt, broot := ReadByCode(d, BlReceived(values), nlen, ndist, x, y, rest);
  }

  /** The stream w has a valid pair of lengths, of this many each, by a complete code length code. */
  ghost predicate LensSent(w: nat, x: seq<nat>, y: seq<nat>, lens: seq<nat>, rest: nat, nlen: nat, ndist: nat) {
    |x| == nlen > 256 && |y| == ndist && x[256] != 0 && Prefix(lens) && Complete(lens) && LensAre(w, x, y, lens, rest)
  }

  /** The lengths of both trees, with the lengths of the code length code at hand. */
  method ReadByCode(d: Inflater, lens: seq<nat>, nlen: nat, ndist: nat, ghost x: seq<nat>, ghost y: seq<nat>, ghost rest: nat)
    returns (status: Status, ll: seq<nat>, dl: seq<nat>, ghost bt: seq<Code>, ghost broot: nat)
    requires d.Reading() && d.bits < 8 && 257 <= nlen <= 286 && ndist <= 30
    requires |lens| == 19 && ValidLens(lens) && forall i :: 0 <= i < |lens| ==> lens[i] <= 7
    modifies d`hold, d`bits, d`source
    ensures d.Reading()
    ensures status == Done ==> |ll| == nlen && |dl| == ndist && ll[256] != 0 && d.bits < 8
    ensures status == Done ==> ReadLens(bt, broot, old(d.Ahead()), [], nlen + ndist) == Lengths(ll + dl, d.Ahead())
    ensures status == Done && Prefix(lens) && Complete(lens) ==> Decodes(bt, broot, lens, CODES)
    ensures LensSent(old(d.Ahead()), x, y, lens, rest, nlen, ndist) && rest > 0 && d.future == [1] ==> status == Done
  {
    hide Low, Shr, Pow2, Rest, Bytes, ReadLens, Usable, Flat, LinksOk, LinksNeeded, Decodes, RejectsOthers,
         Prefix, Complete, Needs, Empty, Acceptable, LensDue, LensAre;
    ll, dl, bt, broot := [], [], [], 0;
    ghost var w := d.Ahead();
    ghost var known := LensSent(w, x, y, lens, rest, nlen, ndist) && rest > 0 && d.future == [1];
    var table := new Code[Space(CODES, 7)];
    var ret, root, used := InflateTable.InflateTable(CODES, lens, table, 0, 7);
    if ret != 0 {
      if known { CompleteAccepted(lens, CODES); }
      return Bad, ll, dl, bt, broot;
    }
    var t := table[0..used];
    bt, broot := t, root;
    BlAccepted(lens, ret, t, root);
    BlTableServes(t, root, lens);
    var all;
    status, all := CodeLens(d, t, root, [], nlen + ndist);
    if known { LensBy(w, x, y, lens, rest, t, root); }
    if status == Wait && known { NotInLens(d, t, root, all, nlen + ndist, x + y, rest); }
    if status == Done {
      ReadLensEnd(t, root, d.Ahead(), all, nlen + ndist);
      ll, dl := all[..nlen], all[nlen..];
      assert ll + dl == all;
      if known { FrontOf(x, y); }
      if ll[256] == 0 { status := Bad; }
    }
  }

  lemma LensBy(w: nat, x: seq<nat>, y: seq<nat>, bl: seq<nat>, rest: nat, t: seq<Code>, root: nat)
    requires |bl| == 19 && LensAre(w, x, y, bl, rest) && Decodes(t, root, bl, CODES)
    ensures ReadLens(t, root, w, [], |x| + |y|) == Lengths(x + y, rest)
  {
    hide ReadLens, Decodes;
  }

  lemma CompleteAccepted(lens: seq<nat>, ct: CodeType)
    requires Prefix(lens) && Complete(lens)
    ensures !Empty(lens) && Acceptable(lens, ct)
  {
    if Empty(lens) { EmptyCounts(lens, MAXBITS); }
  }

  lemma {:induction false} EmptyCounts(lens: seq<nat>, b: nat)
    requires Empty(lens) && b > 0
    ensures NextCode(lens, b) + Count(lens, b) == 0
    decreases b
  {
    BitLengths.CountAbsent(lens, |lens|, b);
    if b > 1 { EmptyCounts(lens, b - 1); }
  }

  lemma HeaderFacts(v: nat, x: seq<nat>, y: seq<nat>, bl: seq<nat>, rest: nat)
    requires HeaderIs(v, x, y, bl, rest)
    ensures |x| == Low(v, 5) + 257 <= 286 && |y| == Low(Shr(v, 5), 5) + 1 <= 30 && x[256] != 0
    ensures Low(Shr(Shr(v, 5), 5), 4) + 4 <= 19 && Prefix(bl) && Complete(bl)
    ensures bl == BlReceived(Taken(Shr(Shr(Shr(v, 5), 5), 4), Threes(Low(Shr(Shr(v, 5), 5), 4) + 4)))
    ensures LensAre(Shr(Shr(Shr(Shr(v, 5), 5), 4), 3 * (Low(Shr(Shr(v, 5), 5), 4) + 4)), x, y, bl, rest)
  {
    hide Low, Shr, Taken, BlReceived, ReadLens, Decodes, Prefix, Complete, LensAre;
  }

  lemma FrontOf(x: seq<nat>, y: seq<nat>)
    ensures (x + y)[..|x|] == x
  {
  }

  /** At the end of the input the counts of a header that goes on are there. */
  lemma NotInCounts(d: Inflater, v: nat, x: seq<nat>, y: seq<nat>, bl: seq<nat>, rest: nat)
    requires HeaderIs(v, x, y, bl, rest) && d.Reading() && d.source == [] && d.future == [1] && d.Ahead() == v
    ensures d.bits >= 14
  {
    hide Low, Shr, Pow2, Rest, Bytes, Taken, BlReceived, ReadLens, Decodes, Prefix, Complete;
    ShrShr(v, 5, 5);
    ShrShr(v, 10, 4);
    ShrOfZero(3 * (Low(Shr(Shr(v, 5), 5), 4) + 4));
    assert d.source + d.future == [1];
    if d.bits < 14 { ShortOf(d.hold, d.bits, 14); }
  }

  lemma NotInBl(d: Inflater, v: nat, x: seq<nat>, y: seq<nat>, bl: seq<nat>, rest: nat)
    requires HeaderIs(v, x, y, bl, rest) && d.Reading() && d.source == [] && d.future == [1]
    requires var u, ncode := Shr(Shr(Shr(v, 5), 5), 4), Low(Shr(Shr(v, 5), 5), 4) + 4;
             exists have: nat :: have < ncode && d.Ahead() == Shr(u, 3 * have)
    ensures d.bits >= 3
  {
    hide Low, Shr, Pow2, Rest, Bytes, Taken, BlReceived, ReadLens, Decodes, Prefix, Complete;
    var u, ncode := Shr(Shr(Shr(v, 5), 5), 4), Low(Shr(Shr(v, 5), 5), 4) + 4;
    var have: nat :| have < ncode && d.Ahead() == Shr(u, 3 * have);
    ShrShr(u, 3 * have, 3);
    ShrShr(u, 3 * have + 3, 3 * (ncode - have - 1));
    ShrOfZero(3 * (ncode - have - 1));
    assert d.source + d.future == [1];
    if d.bits < 3 { ShortOf(d.hold, d.bits, 3); }
  }

  lemma NotInLens(d: Inflater, t: seq<Code>, root: nat, lens: seq<nat>, total: nat, all: seq<nat>, rest: nat)
    requires d.Reading() && d.source == [] && d.future == [1] && |lens| < total
    requires ReadLens(t, root, d.Ahead(), lens, total) == Lengths(all, rest) && rest > 0
    ensures d.bits >= LensDue(t, root, d.Ahead())
  {
    hide Low, Shr, Pow2, Rest, Bytes, ReadLens, LensDue;
    assert d.source + d.future == [1];
    if d.bits < LensDue(t, root, d.Ahead()) {
      ShortOf(d.hold, d.bits, LensDue(t, root, d.Ahead()));
      CutInLens(t, root, d.Ahead(), lens, total);
    }
  }

  lemma CountsSmall(v: nat)
    ensures Low(Shr(Shr(v, 5), 5), 4) + 4 <= 19
  {
    hide Shr, Pow2, Low;
    LowBound(Shr(Shr(v, 5), 5), 4);
    SmallPowers();
  }

  lemma BlSmall(values: seq<nat>)
    requires |values| <= 19 && forall i :: 0 <= i < |values| ==> values[i] <= 7
    ensures ValidLens(BlReceived(values)) && forall i :: 0 <= i < 19 ==> BlReceived(values)[i] <= 7
  {
    hide BL_ORDER, BL_INDEX;
    forall i | 0 <= i < 19 ensures BlReceived(values)[i] <= 7 { OrderIs(i); }
  }

  lemma BlAccepted(lens: seq<nat>, ret: int, t: seq<Code>, root: nat)
    requires |lens| == 19 && ret == 0 && (ret == -1 <==> !Empty(lens) && !Acceptable(lens, CODES))
    requires !Empty(lens) ==> Decodes(t, root, lens, CODES)
    requires !(!Empty(lens) && Complete(lens)) ==> RejectsOthers(t, root, lens)
    ensures if Empty(lens) then RejectsOthers(t, root, lens) else Prefix(lens) && Complete(lens) && Decodes(t, root, lens, CODES)
    ensures Decodes(t, root, lens, CODES)
  {
    hide Prefix, Complete, Decodes, RejectsOthers;
    if Empty(lens) { EmptyDecodes(t, root, lens); }
  }
}
