/**
  The decoder of deps/zlib/inflate.c inside a block: a state machine that can stop
  at any byte of input and any byte of output and go on in the next call.
 */
module Inflate {
  import opened Wrappers
  import opened Bits
  import opened Canonical
  import opened BitIo
  import opened Lz77
  import opened InflateSpec
  import opened InflateTable
  import opened InflateLookup
  import opened InflateWindow
  import opened Block

  datatype Mode = LEN | LENEXT | DIST | DISTEXT | MATCH | LIT | TYPE | BAD

  /** Everything a table pair makes of a stream is something that can be written. */
  ghost predicate GoodResult(d: Decoded) {
    match d
    case Got(Literal(byte), _) => byte < 256
    case Got(Copy(distance, length), _) => 1 <= distance && 1 <= length <= 258
    case _ => true
  }

  /** No entry has more than m extra bits. */
  ghost predicate Extras(t: seq<Code>, root: nat, m: nat) {
    forall v: nat :: ExtraAt(t, root, v, m)
  }

  ghost predicate ExtraAt(t: seq<Code>, root: nat, v: nat, m: nat) {
    match Lookup(t, root, v)
    case None => true
    case Some((e, _)) => 16 <= e.op < 32 ==> e.op <= 16 + m
  }

  /** No entry is a literal. */
  ghost predicate NoLiterals(t: seq<Code>, root: nat) {
    forall v: nat :: NoLiteralAt(t, root, v)
  }

  ghost predicate NoLiteralAt(t: seq<Code>, root: nat, v: nat) {
    match Lookup(t, root, v)
    case None => true
    case Some((e, _)) => e.op != 0
  }

  ghost predicate GoodPair(lt: seq<Code>, lroot: nat, dt: seq<Code>, droot: nat) {
    && Usable(lt, lroot) && Usable(dt, droot) && Extras(lt, lroot, 5) && Extras(dt, droot, 13) && NoLiterals(dt, droot)
    && forall v: nat :: GoodResult(NextToken(lt, lroot, dt, droot, v))
  }

  /** The decoder's tables, and what it is at in the stream and in the history when a token begins. */
  datatype Place = Place(lt: seq<Code>, lroot: nat, dt: seq<Code>, droot: nat, at: nat, history: seq<nat>) {
    ghost function Next(): Decoded {
      NextToken(lt, lroot, dt, droot, at)
    }
  }

  /** Reading bits `n` in, the stream is at v. */
  ghost predicate Is(p: Place, v: nat, n: nat) {
    v == Shr(p.at, n)
  }

  /**
    The state of the machine inside a token: v is the stream still to come, and
    what the state variables hold is what the token will be made of.
   */
  ghost predicate Mid(p: Place, mode: Mode, v: nat, length: nat, offset: nat, extra: nat, history: seq<nat>, wsize: nat) {
    match mode
    case LEN => v == p.at && history == p.history
    case LIT => history == p.history && exists n: nat :: Is(p, v, n) && p.Next() == Got(Literal(length), n)
    case LENEXT => history == p.history && exists n: nat :: Is(p, v, n) && LengthDue(p, v, length, extra, n)
    case DIST => history == p.history && exists n: nat :: Is(p, v, n) && p.Next() == NextDistance(p.dt, p.droot, v, length, n)
    case DISTEXT => history == p.history && exists n: nat :: Is(p, v, n) && DistanceDue(p, v, length, offset, extra, n)
    case MATCH => exists n: nat, was: nat :: Is(p, v, n) && p.Next() == Got(Copy(offset, was), n) && Copied(p.history, offset, was, length, history)
    case TYPE => history == p.history && exists n: nat :: Is(p, v, n) && p.Next() == EndOfBlock(n)
    case BAD => Unusable(p.Next(), p.history, wsize)
  }

  /** Extra bits of the length, then a distance. */
  ghost predicate LengthDue(p: Place, v: nat, length: nat, extra: nat, n: nat) {
    p.Next() == NextDistance(p.dt, p.droot, Shr(v, extra), length + Low(v, extra), n + extra)
  }

  /** Extra bits of the distance. */
  ghost predicate DistanceDue(p: Place, v: nat, length: nat, offset: nat, extra: nat, n: nat) {
    p.Next() == Got(Copy(offset + Low(v, extra), length), n + extra)
  }

  // ----- from state to state ----------------------------------------------------------------

  lemma FromLen(p: Place, e: Code, n: nat, v: nat, length: nat, offset: nat, extra: nat, wsize: nat)
    requires Lookup(p.lt, p.lroot, p.at) == Some((e, n)) && v == Shr(p.at, n)
    ensures e.op == 0 ==> Mid(p, LIT, v, e.val, offset, extra, p.history, wsize)
    ensures e.op != 0 && HasBit(e.op, 32) ==> Mid(p, TYPE, v, length, offset, extra, p.history, wsize)
    ensures e.op != 0 && !HasBit(e.op, 32) && HasBit(e.op, 64) ==> Mid(p, BAD, v, length, offset, extra, p.history, wsize)
    ensures e.op != 0 && !HasBit(e.op, 32) && !HasBit(e.op, 64) ==> Mid(p, LENEXT, v, e.val, offset, e.op % 16, p.history, wsize)
  {
    hide Lookup, Shr, Low;
    assert Is(p, v, n);
    ShrShr(p.at, n, e.op % 16);
    assert e.op != 0 && !HasBit(e.op, 32) && !HasBit(e.op, 64) ==> LengthDue(p, v, e.val, e.op % 16, n);
  }

  lemma AtLen(p: Place, v: nat, length: nat, offset: nat, extra: nat, history: seq<nat>, wsize: nat)
    requires Mid(p, LEN, v, length, offset, extra, history, wsize)
    ensures v == p.at && history == p.history
  {
  }

  lemma FromLenExt(p: Place, v: nat, length: nat, offset: nat, extra: nat, history: seq<nat>, wsize: nat)
    requires Mid(p, LENEXT, v, length, offset, extra, history, wsize)
    ensures Mid(p, DIST, Shr(v, extra), length + Low(v, extra), offset, extra, history, wsize)
  {
    hide Shr, Low, NextDistance, NextToken;
    var n: nat :| Is(p, v, n) && LengthDue(p, v, length, extra, n);
    ShrShr(p.at, n, extra);
    assert Is(p, Shr(v, extra), n + extra);
  }

  lemma FromDist(p: Place, v: nat, length: nat, offset: nat, extra: nat, history: seq<nat>, wsize: nat, e: Code, k: nat)
    requires Mid(p, DIST, v, length, offset, extra, history, wsize) && Lookup(p.dt, p.droot, v) == Some((e, k))
    ensures HasBit(e.op, 64) ==> Mid(p, BAD, Shr(v, k), length, offset, extra, history, wsize)
    ensures !HasBit(e.op, 64) ==> Mid(p, DISTEXT, Shr(v, k), length, e.val, e.op % 16, history, wsize)
  {
    hide Shr, Low, Lookup, NextToken;
    var n: nat :| Is(p, v, n) && p.Next() == NextDistance(p.dt, p.droot, v, length, n);
    ShrShr(p.at, n, k);
    assert Is(p, Shr(v, k), n + k);
    assert !HasBit(e.op, 64) ==> DistanceDue(p, Shr(v, k), length, e.val, e.op % 16, n + k);
  }

  lemma FromDistExt(p: Place, v: nat, length: nat, offset: nat, extra: nat, history: seq<nat>, wsize: nat)
    requires Mid(p, DISTEXT, v, length, offset, extra, history, wsize) && GoodPair(p.lt, p.lroot, p.dt, p.droot)
    ensures Mid(p, MATCH, Shr(v, extra), length, offset + Low(v, extra), extra, history, wsize)
  {
    hide Shr, Low, NextToken, Usable;
    var n: nat :| Is(p, v, n) && DistanceDue(p, v, length, offset, extra, n);
    ShrShr(p.at, n, extra);
    assert Is(p, Shr(v, extra), n + extra);
    assert GoodResult(p.Next());
    assert Copied(p.history, offset + Low(v, extra), length, length, history);
  }

  /** A token is complete: it was next, its bits are read and its bytes are written. */
  ghost predicate Finished(p: Place, token: Token, v: nat, history: seq<nat>) {
    history == Append(p.history, token) && exists n: nat :: Is(p, v, n) && p.Next() == Got(token, n)
  }

  lemma FromLit(p: Place, v: nat, length: nat, offset: nat, extra: nat, history: seq<nat>, wsize: nat)
    requires Mid(p, LIT, v, length, offset, extra, history, wsize) && GoodPair(p.lt, p.lroot, p.dt, p.droot)
    ensures length < 256 && Finished(p, Literal(length), v, history + [length])
  {
    hide Shr, NextToken, Usable;
    assert GoodResult(p.Next());
  }

  /** A distance within the window and the history does not fail. */
  lemma FromMatchBad(p: Place, v: nat, length: nat, offset: nat, extra: nat, history: seq<nat>, wsize: nat)
    requires Mid(p, MATCH, v, length, offset, extra, history, wsize) && (offset > |history| || offset > wsize)
    ensures Mid(p, BAD, v, length, offset, extra, history, wsize)
  {
    hide Shr, NextToken;
    var n: nat, was: nat :| Is(p, v, n) && p.Next() == Got(Copy(offset, was), n) && Copied(p.history, offset, was, length, history);
  }

  lemma CopyLength(h: seq<nat>, distance: nat, n: nat)
    ensures n == 0 ==> CopyFrom(h, distance, n) == h
    ensures 1 <= distance <= |h| ==> |CopyFrom(h, distance, n)| == |h| + n
  {
  }

  /** Some bytes of a match are copied: the rest is still to come, or the token is complete. */
  lemma FromMatch(p: Place, v: nat, length: nat, offset: nat, extra: nat, history: seq<nat>, wsize: nat, k: nat)
    requires Mid(p, MATCH, v, length, offset, extra, history, wsize) && 1 <= k <= length && offset <= |history|
    ensures offset >= 1
    ensures k < length ==> Mid(p, MATCH, v, length - k, offset, extra, CopyFrom(history, offset, k), wsize)
    ensures k == length ==> exists was: nat :: Finished(p, Copy(offset, was), v, CopyFrom(history, offset, k))
  {
    hide Shr, NextToken, CopyFrom, Is;
    var n: nat, was: nat :| Is(p, v, n) && p.Next() == Got(Copy(offset, was), n) && Copied(p.history, offset, was, length, history);
    CopyLength(p.history, offset, was - length);
    CopySplit(p.history, offset, was - length, k);
    assert was - (length - k) == was - length + k;
    if k < length {
      assert Copied(p.history, offset, was, length - k, CopyFrom(history, offset, k));
    } else {
      assert Finished(p, Copy(offset, was), v, CopyFrom(history, offset, k));
    }
  }

  /** `length` of `was` bytes are still to be copied. */
  ghost predicate Copied(before: seq<nat>, offset: nat, was: nat, length: nat, history: seq<nat>) {
    && 1 <= length <= was && 1 <= offset
    && (length < was ==> offset <= |before|)
    && history == CopyFrom(before, offset, was - length)
  }

  /** Why decoding stops: no code, or a distance that goes back too far. */
  ghost predicate Unusable(d: Decoded, history: seq<nat>, wsize: nat) {
    match d
    case Got(Copy(distance, _), _) => distance > |history| || distance > wsize
    case BadLength => true
    case BadDistance => true
    case _ => false
  }

  // ----- from token to token ------------------------------------------------------------------

  /** After the next token. */
  ghost function After(p: Place): Place {
    match p.Next()
    case Got(token, n) => p.(at := Shr(p.at, n), history := Append(p.history, token))
    case _ => p
  }

  /** From one place to another by way of the tokens. */
  ghost predicate Follows(start: Place, tokens: seq<Token>, place: Place)
    decreases |tokens|
  {
    if tokens == [] then place == start
    else start.Next().Got? && start.Next().token == tokens[0] && Follows(After(start), tokens[1..], place)
  }

  lemma {:induction false} FollowsMore(start: Place, tokens: seq<Token>, place: Place, token: Token)
    requires Follows(start, tokens, place) && place.Next().Got? && place.Next().token == token
    ensures Follows(start, tokens + [token], After(place))
    decreases |tokens|
  {
    hide NextToken, Append;
    var more := tokens + [token];
    if tokens == [] {
      assert more[1..] == [];
    } else {
      assert more[1..] == tokens[1..] + [token];
      FollowsMore(After(start), tokens[1..], place, token);
    }
  }

  lemma FinishedIsAfter(p: Place, token: Token, v: nat, history: seq<nat>)
    requires Finished(p, token, v, history)
    ensures p.Next().Got? && p.Next().token == token && After(p) == p.(at := v, history := history)
  {
    hide NextToken, Append, Shr;
  }

  /** How many bits a state waits for. */
  ghost function Due(mode: Mode, lt: seq<Code>, lroot: nat, dt: seq<Code>, droot: nat, v: nat, extra: nat): nat {
    match mode
    case LEN => Needs(lt, lroot, v)
    case DIST => Needs(dt, droot, v)
    case LENEXT => extra
    case DISTEXT => extra
    case _ => 0
  }

  class Inflater {
    const window: array<nat>
    var wnext: nat
    var whave: nat
    var hold: nat
    var bits: nat
    var source: seq<nat>                 // next_in, avail_in
    var mode: Mode
    var length: nat
    var offset: nat
    var extra: nat
    var lt: seq<Code>                    // lencode and lenbits
    var lroot: nat
    var dt: seq<Code>                    // distcode and distbits
    var droot: nat
    ghost var future: seq<nat>           // input that later calls will bring
    ghost var history: seq<nat>          // all bytes written
    ghost var start: Place               // where the block began
    ghost var tokens: seq<Token>         // the tokens of the block completed so far
    ghost var place: Place               // where the current token began

    /** The bits still to come. */
    ghost function Ahead(): nat
      reads this
    {
      Rest(hold, bits, source + future)
    }

    ghost predicate Reading()
      reads this
    {
      hold < Pow2(bits) && Bytes(source + future)
    }

    /** Never more than a byte too many is held, unless a code or extra bits are still incomplete. */
    ghost predicate Tidy()
      reads this
    {
      match mode
      case LEN => bits < Needs(lt, lroot, Ahead()) + 8 && (bits >= 8 ==> bits < Needs(lt, lroot, Ahead()))
      case DIST => bits < Needs(dt, droot, Ahead()) + 8
      case LENEXT => bits < extra + 8
      case DISTEXT => bits < extra + 8
      case _ => bits < 8
    }

    /** All input is used up, and what is held is not enough for the next step. */
    ghost predicate Starved()
      reads this
    {
      source == [] && mode in {LEN, LENEXT, DIST, DISTEXT} && bits < Due(mode, lt, lroot, dt, droot, Ahead(), extra)
    }

    /** What the machine holds is what the stream says. */
    ghost predicate Consistent()
      reads this
    {
      Steady() && At(mode) && Tidy()
    }

    ghost predicate Steady()
      reads this
    {
      && Reading() && GoodPair(lt, lroot, dt, droot)
      && place.lt == lt && place.lroot == lroot && place.dt == dt && place.droot == droot
      && Follows(start, tokens, place)
    }

    /** The variables are those of a state. */
    ghost predicate At(mode: Mode)
      reads this
    {
      Mid(place, mode, Ahead(), length, offset, extra, history, window.Length)
    }

    /** Between calls the window holds the end of the history. */
    ghost predicate Valid()
      reads this, window
    {
      Consistent() && Circular(window[..], wnext, whave, history)
    }

    /** During a call what was written is in the output, and the window holds what was before. */
    ghost predicate Busy(out: array<nat>, put: nat, before: seq<nat>)
      reads this, window, out
    {
      && out != window && put <= out.Length && history == before + out[..put]
      && Consistent() && Circular(window[..], wnext, whave, before)
    }

    /** A token is complete. */
    lemma Complete(token: Token, v: nat, written: seq<nat>, left: nat)
      requires Finished(place, token, v, written) && Follows(start, tokens, place)
      requires place.lt == lt && place.lroot == lroot && place.dt == dt && place.droot == droot
      ensures var next := place.(at := v, history := written);
              Follows(start, tokens + [token], next) && Mid(next, LEN, v, left, offset, extra, written, window.Length)
    {
      hide NextToken, Shr;
      FinishedIsAfter(place, token, v, written);
      FollowsMore(start, tokens, place, token);
    }

    /** PULLBYTE, when there is a byte. */
    method Pull()
      requires Reading() && source != []
      modifies this`hold, this`bits, this`source
      ensures Reading() && Ahead() == old(Ahead()) && bits == old(bits) + 8 && source == old(source)[1..]
      ensures Low(hold, old(bits)) == old(hold)
    {
      hide Shl, Low, Pow2, Number;
      ghost var all := source + future;
      PullByte(hold, bits, all);
      assert all[0] == source[0] && all[1..] == source[1..] + future;
      assert Bytes(all[1..]);
      Join(source[0], hold, bits);
      hold := hold + Shl(source[0], bits);
      bits := bits + 8;
      source := source[1..];
    }

    /** NEEDBITS */
    method NeedBits(n: nat) returns (ok: bool)
      requires Reading() && bits < n + 8
      modifies this`hold, this`bits, this`source
      ensures Reading() && Ahead() == old(Ahead()) && bits < n + 8
      ensures if ok then bits >= n else source == [] && bits < n
    {
      hide Pow2, Rest, Bytes;
      while bits < n
        invariant Reading() && Ahead() == old(Ahead()) && bits < n + 8
        decreases |source|
      {
        if source == [] { return false; }
        Pull();
      }
      return true;
    }

    /** DROPBITS */
    method Drop(n: nat)
      requires Reading() && n <= bits
      modifies this`hold, this`bits
      ensures Reading() && Ahead() == Shr(old(Ahead()), n) && bits == old(bits) - n && hold == Shr(old(hold), n)
    {
      hide Shl, Shr, Low, Pow2, Number;
      BitIo.DropBits(hold, bits, source + future, n);
      hold := Shr(hold, n);
      bits := bits - n;
    }

    /** The loops of the LEN and DIST states: the next symbol of a code, if its bits have arrived. */
    method ReadSymbol(t: seq<Code>, root: nat) returns (ok: bool, here: Code)
      requires Reading() && Usable(t, root) && bits < Needs(t, root, Ahead()) + 8
      modifies this`hold, this`bits, this`source
      ensures Reading()
      ensures ok ==> exists n: nat :: Lookup(t, root, old(Ahead())) == Some((here, n)) && Ahead() == Shr(old(Ahead()), n)
      ensures ok ==> bits < 8
      ensures !ok ==> source == [] && Ahead() == old(Ahead()) && bits < Needs(t, root, Ahead())
    {
      hide Low, Shr, Pow2, Rest, Bytes, Always, Early, LinksOk, Lookup, Needs;
      LookupParts(t, root, hold);
      here := t[Low(hold, root)];
      while here.bits > bits
        invariant Reading() && Ahead() == old(Ahead()) && bits < Needs(t, root, Ahead()) + 8
        invariant Low(hold, root) < |t| && here == t[Low(hold, root)]
        decreases |source|
      {
        LookupParts(t, root, hold);
        Lacking(t, root, hold, bits, source + future);
        if source == [] { return false, here; }
        Pull();
        LookupParts(t, root, hold);
        here := t[Low(hold, root)];
      }
      if IsLink(here) {
        var last := here;
        LookupParts(t, root, hold);
        ghost var index := Low(hold, root);
        LinkBits(t, root, index);
        here := t[last.val + Shr(Low(hold, last.bits + last.op), last.bits)];
        while last.bits + here.bits > bits
          invariant Reading() && Ahead() == old(Ahead()) && root <= bits < Needs(t, root, Ahead()) + 8
          invariant Low(hold, root) == index < |t| && last == t[index]
          invariant last.val + Shr(Low(hold, last.bits + last.op), last.bits) < |t|
          invariant here == t[last.val + Shr(Low(hold, last.bits + last.op), last.bits)]
          decreases |source|
        {
          LookupParts(t, root, hold);
          Lacking(t, root, hold, bits, source + future);
          if source == [] { return false, here; }
          ghost var hold0, bits0 := hold, bits;
          Pull();
          LowTakes(hold, bits0, root);
          LookupParts(t, root, hold);
          here := t[last.val + Shr(Low(hold, last.bits + last.op), last.bits)];
        }
        LookupParts(t, root, hold);
        FoundEarly(t, root, hold, bits, source + future);
        ghost var v := Ahead();
        Drop(last.bits);
        Drop(here.bits);
        ShrShr(v, last.bits, here.bits);
      } else {
        LookupParts(t, root, hold);
        FoundEarly(t, root, hold, bits, source + future);
        Drop(here.bits);
      }
      ok := true;
    }

    constructor (wsize: nat)
      requires wsize > 0
      ensures fresh(window) && window.Length == wsize && Circular(window[..], wnext, whave, history) && history == []
      ensures Reading() && hold == 0 && bits == 0 && source == [] && future == []
    {
      window := new nat[wsize];
      wnext, whave, hold, bits, source := 0, 0, 0, 0, [];
      mode, length, offset, extra := TYPE, 0, 0, 0;
      lt, lroot, dt, droot := [], 0, [], 0;
      future, history, tokens := [], [], [];
      var nowhere := Place([], 0, [], 0, 0, []);
      start, place := nowhere, nowhere;
    }

    /** The tables of a block are ready: LEN_ */
    method StartBlock(lt: seq<Code>, lroot: nat, dt: seq<Code>, droot: nat)
      requires Reading() && bits < 8 && GoodPair(lt, lroot, dt, droot) && Circular(window[..], wnext, whave, history)
      modifies this`lt, this`lroot, this`dt, this`droot, this`mode, this`start, this`place, this`tokens
      ensures Valid() && mode == LEN && tokens == [] && start == place == Place(lt, lroot, dt, droot, Ahead(), history)
    {
      hide Rest, Pow2, Bytes, GoodPair, Circular, Needs, Mid, Follows;
      ghost var here := Place(lt, lroot, dt, droot, Ahead(), history);
      Begins(here, length, offset, extra, window.Length);
      this.lt, this.lroot, this.dt, this.droot, mode := lt, lroot, dt, droot, LEN;
      start, place, tokens := here, here, [];
      assert Steady();
    }

    // ----- the states ---------------------------------------------------------------------------

    /** LEN */
    method DoLen() returns (ok: bool)
      requires Consistent() && mode == LEN
      modifies this`hold, this`bits, this`source, this`mode, this`length, this`extra
      ensures Consistent()
      ensures if ok then mode in {LIT, LENEXT, TYPE, BAD} else Starved()
    {
      hide Usable, Rest, Bytes, Lookup, Low, Shr, Pow2, NextToken, NextDistance, Follows, Mid;
      var here;
      ghost var v := Ahead();
      ok, here := ReadSymbol(lt, lroot);
      if !ok { return; }
      ghost var n: nat :| Lookup(lt, lroot, v) == Some((here, n)) && Ahead() == Shr(v, n);
      AtLen(place, v, length, offset, extra, history, window.Length);
      FromLen(place, here, n, Ahead(), here.val, offset, extra, window.Length);
      length := here.val;
      if here.op == 0 {
        mode := LIT;
      } else if HasBit(here.op, 32) {
        mode := TYPE;
      } else if HasBit(here.op, 64) {
        mode := BAD;
      } else {
        extra := here.op % 16;
        mode := LENEXT;
      }
    }

    /** LENEXT */
    method DoLenExt() returns (ok: bool)
      requires Consistent() && mode == LENEXT
      modifies this`hold, this`bits, this`source, this`mode, this`length
      ensures Consistent()
      ensures if ok then mode == DIST else Starved()
    {
      hide Usable, Rest, Bytes, Low, Shr, Pow2, NextToken, NextDistance, Follows, GoodPair, Mid;
      FromLenExt(place, Ahead(), length, offset, extra, history, window.Length);
      if extra != 0 {
        ok := NeedBits(extra);
        if !ok { return; }
        HoldBits(hold, bits, source + future, extra);
        length := length + Low(hold, extra);
        Drop(extra);
      } else {
        NoBits(Ahead());
      }
      mode := DIST;
      ok := true;
    }

    /** DIST */
    method DoDist() returns (ok: bool)
      requires Consistent() && mode == DIST
      modifies this`hold, this`bits, this`source, this`mode, this`offset, this`extra
      ensures Consistent()
      ensures if ok then mode in {DISTEXT, BAD} else Starved()
    {
      hide Usable, Rest, Bytes, Lookup, Low, Shr, Pow2, NextToken, NextDistance, Follows, Mid;
      var here;
      ghost var v := Ahead();
      ok, here := ReadSymbol(dt, droot);
      if !ok { return; }
      ghost var n: nat :| Lookup(dt, droot, v) == Some((here, n)) && Ahead() == Shr(v, n);
      FromDist(place, v, length, offset, extra, history, window.Length, here, n);
      if HasBit(here.op, 64) {
        mode := BAD;
      } else {
        offset := here.val;
        extra := here.op % 16;
        mode := DISTEXT;
      }
    }

    /** DISTEXT */
    method DoDistExt() returns (ok: bool)
      requires Consistent() && mode == DISTEXT
      modifies this`hold, this`bits, this`source, this`mode, this`offset
      ensures Consistent()
      ensures if ok then mode == MATCH else Starved()
    {
      hide Usable, Rest, Bytes, Low, Shr, Pow2, NextToken, NextDistance, Follows, GoodPair, Mid;
      FromDistExt(place, Ahead(), length, offset, extra, history, window.Length);
      if extra != 0 {
        ok := NeedBits(extra);
        if !ok { return; }
        HoldBits(hold, bits, source + future, extra);
        offset := offset + Low(hold, extra);
        Drop(extra);
      } else {
        NoBits(Ahead());
      }
      mode := MATCH;
      ok := true;
    }

    /** Write a literal. */
    method WriteLit(out: array<nat>, put: nat, ghost before: seq<nat>)
      requires Steady() && At(LIT) && put < out.Length && history == before + out[..put]
      modifies this`mode, this`history, this`tokens, this`place, out
      ensures Steady() && At(LEN) && mode == LEN && history == before + out[..put + 1]
    {
      hide Usable, Rest, Bytes, Low, Shr, Pow2, NextToken, NextDistance, Follows, GoodPair, Mid;
      FromLit(place, Ahead(), length, offset, extra, history, window.Length);
      Complete(Literal(length), Ahead(), history + [length], length);
      out[put] := length % 256;
      mode := LEN;
      tokens := tokens + [Literal(length)];
      history := history + [length];
      place := place.(at := Ahead(), history := history);
      assert before + out[..put + 1] == history;
    }

    /** LIT, when there is room */
    method DoLit(out: array<nat>, put: nat, ghost before: seq<nat>)
      requires Busy(out, put, before) && mode == LIT && put < out.Length
      modifies this`mode, this`history, this`tokens, this`place, out
      ensures Busy(out, put + 1, before) && mode == LEN
    {
      hide Usable, Rest, Bytes, Low, Shr, Pow2, NextToken, NextDistance, Follows, GoodPair, Circular, Mid;
      WriteLit(out, put, before);
    }

    /** The copy of one visit to MATCH: as much as there is in one piece and room for. */
    method CopyPart(out: array<nat>, put: nat, ghost before: seq<nat>) returns (n: nat)
      requires out != window && put < out.Length && Circular(window[..], wnext, whave, before)
      requires 1 <= length && 1 <= offset && (offset > put ==> offset - put <= whave)
      modifies out
      ensures 1 <= n <= length && put + n <= out.Length && offset <= |before| + put
      ensures before + out[..put + n] == CopyFrom(before + old(out[..put]), offset, n)
    {
      hide Circular, CopyFrom;
      CircularSizes(window[..], wnext, whave, before);
      var left := out.Length - put;
      if offset > put {
        var copy := offset - put;
        var from;
        if copy > wnext {
          copy := copy - wnext;
          from := window.Length - copy;
        } else {
          from := wnext - copy;
        }
        n := if copy > length then length else copy;
        if n > left { n := left; }
        WindowCopy(window[..], wnext, whave, before, out[..put], offset, from, n);
        ghost var w := window[..];
        CopyWindow(window, from, out, put, n);
        assert window[from..from + n] == w[from..from + n];
      } else {
        n := if length > left then left else length;
        CopyOutput(out, put, offset, n, before);
      }
    }

    /** Count n bytes of a match as copied. */
    method CountCopied(n: nat)
      requires Steady() && At(MATCH) && 1 <= n <= length && offset <= |history|
      modifies this`mode, this`length, this`history, this`tokens, this`place
      ensures Steady() && At(mode) && history == CopyFrom(old(history), offset, n)
      ensures length == old(length) - n && mode == if length == 0 then LEN else MATCH
    {
      hide Usable, Rest, Bytes, Low, Shr, Pow2, NextToken, NextDistance, Follows, GoodPair, Mid, Finished;
      FromMatch(place, Ahead(), length, offset, extra, history, window.Length, n);
      history := CopyFrom(history, offset, n);
      mode := MATCH;
      if n == length {
        ghost var was: nat :| Finished(place, Copy(offset, was), Ahead(), history);
        Complete(Copy(offset, was), Ahead(), history, 0);
        tokens := tokens + [Copy(offset, was)];
        place := place.(at := Ahead(), history := history);
        mode := LEN;
      }
      length := length - n;
    }

    /** MATCH, when there is room */
    method DoMatch(out: array<nat>, put: nat, ghost before: seq<nat>) returns (next: nat)
      requires Busy(out, put, before) && mode == MATCH && put < out.Length
      modifies this`mode, this`length, this`history, this`tokens, this`place, out
      ensures Busy(out, next, before)
      ensures if mode == BAD then next == put else put < next && mode in {MATCH, LEN}
    {
      hide Usable, Rest, Bytes, Low, Shr, Pow2, NextToken, NextDistance, Follows, GoodPair, Circular, Mid, CopyFrom;
      CircularSizes(window[..], wnext, whave, before);
      if offset > put && offset - put > whave {
        FromMatchBad(place, Ahead(), length, offset, extra, history, window.Length);
        mode := BAD;
        return put;
      }
      MatchRange(place, Ahead(), length, offset, extra, history, window.Length);
      var n := CopyPart(out, put, before);
      CountCopied(n);
      next := put + n;
    }

    // ----- inflate_fast ---------------------------------------------------------------------------

    /** How many bits were dropped since the stream was at v0 with b0 bits held and `src` unread. */
    ghost function Dropped(b0: nat, src: seq<nat>): int
      reads this
    {
      b0 + 8 * (|src| - |source|) - bits
    }

    /** The machine has read on from there. */
    ghost predicate Since(v0: nat, b0: nat, src: seq<nat>)
      reads this
    {
      && Dropped(b0, src) >= 0 && Ahead() == Shr(v0, Dropped(b0, src))
      && |source| <= |src| && source == src[|src| - |source|..]
    }

    method FastPull(ghost v0: nat, ghost b0: nat, ghost src: seq<nat>)
      requires Reading() && source != [] && Since(v0, b0, src)
      modifies this`hold, this`bits, this`source
      ensures Reading() && Ahead() == old(Ahead()) && bits == old(bits) + 8 && |source| == |old(source)| - 1
      ensures Since(v0, b0, src) && Dropped(b0, src) == old(Dropped(b0, src))
    {
      hide Rest, Shr, Pow2, Bytes, Low;
      Pull();
    }

    method FastDrop(n: nat, ghost v0: nat, ghost b0: nat, ghost src: seq<nat>)
      requires Reading() && n <= bits && Since(v0, b0, src)
      modifies this`hold, this`bits
      ensures Reading() && Ahead() == Shr(old(Ahead()), n) && bits == old(bits) - n && hold == Shr(old(hold), n)
      ensures Since(v0, b0, src) && Dropped(b0, src) == old(Dropped(b0, src)) + n
    {
      hide Rest, Shr, Pow2, Bytes;
      ShrShr(v0, Dropped(b0, src), n);
      Drop(n);
    }

    /** The lookup with at least 15 bits held. */
    method FastSymbol(t: seq<Code>, root: nat, ghost v0: nat, ghost b0: nat, ghost src: seq<nat>) returns (here: Code, ghost n: nat)
      requires Reading() && Usable(t, root) && bits >= MAXBITS && Since(v0, b0, src)
      modifies this`hold, this`bits
      ensures Reading() && Lookup(t, root, old(Ahead())) == Some((here, n)) && Ahead() == Shr(old(Ahead()), n)
      ensures n <= MAXBITS && bits == old(bits) - n && KnownOp(here.op)
      ensures Since(v0, b0, src) && Dropped(b0, src) == old(Dropped(b0, src)) + n
    {
      hide Low, Shr, Pow2, Rest, Bytes, Always, Early, LinksOk, Lookup, Needs, KnownOp;
      ghost var v, h := Ahead(), hold;
      LookupParts(t, root, hold);
      ShortNeeds(t, root, hold);
      FoundEarly(t, root, hold, bits, source + future);
      here := t[Low(hold, root)];
      n := Needs(t, root, hold);
      FastDrop(here.bits, v0, b0, src);
      if IsLink(here) {
        var last := here;
        LowShr(h, last.bits, last.op);
        here := t[last.val + Low(hold, last.op)];
        ShrShr(v, last.bits, here.bits);
        FastDrop(here.bits, v0, b0, src);
      }
    }

    /** Extra bits, pulling up to `pulls` bytes for them. */
    method FastExtra(n: nat, pulls: nat, ghost v0: nat, ghost b0: nat, ghost src: seq<nat>) returns (x: nat)
      requires Reading() && Since(v0, b0, src) && n <= bits + 8 * pulls
      requires bits < n ==> (n - bits + 7) / 8 <= |source|
      modifies this`hold, this`bits, this`source
      ensures Reading() && x == Low(old(Ahead()), n) && Ahead() == Shr(old(Ahead()), n)
      ensures Since(v0, b0, src) && Dropped(b0, src) == old(Dropped(b0, src)) + n
      ensures |source| == |old(source)| - (if old(bits) < n then (n - old(bits) + 7) / 8 else 0)
    {
      hide Rest, Shr, Pow2, Bytes, Low;
      ghost var v := Ahead();
      var k := pulls;
      while k > 0 && bits < n
        invariant Reading() && Ahead() == v && Since(v0, b0, src) && Dropped(b0, src) == old(Dropped(b0, src))
        invariant n <= bits + 8 * k && (bits < n ==> (n - bits + 7) / 8 <= |source|)
        invariant |source| - (if bits < n then (n - bits + 7) / 8 else 0)
               == |old(source)| - (if old(bits) < n then (n - old(bits) + 7) / 8 else 0)
        decreases k
      {
        FastPull(v0, b0, src);
        k := k - 1;
      }
      HoldBits(hold, bits, source + future, n);
      x := Low(hold, n);
      FastDrop(n, v0, b0, src);
    }

    /** Two bytes if fewer than 15 bits are held. */
    method FastFill(m: Mode, ghost v0: nat, ghost b0: nat, ghost src: seq<nat>)
      requires Steady() && At(m) && Since(v0, b0, src) && bits <= 30 && (bits < 15 ==> |source| >= 2)
      modifies this`hold, this`bits, this`source
      ensures Steady() && At(m) && Since(v0, b0, src) && Ahead() == old(Ahead()) && Dropped(b0, src) == old(Dropped(b0, src))
      ensures 15 <= bits <= 30 && bits == (if old(bits) < 15 then old(bits) + 16 else old(bits))
      ensures |source| == (if old(bits) < 15 then |old(source)| - 2 else |old(source)|)
    {
      hide Rest, Shr, Pow2, Bytes, Low, Mid, Follows, GoodPair;
      if bits < 15 {
        FastPull(v0, b0, src);
        FastPull(v0, b0, src);
      }
    }

    /** The symbol of a distance. */
    method FastDistSymbol(ghost v0: nat, ghost b0: nat, ghost src: seq<nat>)
      requires Steady() && At(DIST) && Since(v0, b0, src) && bits >= 15
      modifies this`hold, this`bits, this`mode, this`offset, this`extra
      ensures Steady() && At(mode) && mode in {DISTEXT, BAD} && Since(v0, b0, src) && Dropped(b0, src) >= old(Dropped(b0, src))
      ensures old(bits) - 15 <= bits <= old(bits) && (mode == DISTEXT ==> extra <= 13)
    {
      hide Rest, Shr, Pow2, Bytes, Low, Mid, Lookup, NextToken, NextDistance, Follows, Usable, GoodPair, KnownOp, HasBit;
      PairFacts(lt, lroot, dt, droot);
      ghost var v := Ahead();
      var here, n := FastSymbol(dt, droot, v0, b0, src);
      FromDist(place, v, length, offset, extra, history, window.Length, here, n);
      DistanceOp(lt, lroot, dt, droot, v, here, n);
      if HasBit(here.op, 16) {
        offset := here.val;
        extra := here.op % 16;
        mode := DISTEXT;
      } else {
        mode := BAD;
      }
    }

    /** The distance of a match: at most four bytes are read, three if enough bits are held. */
    method FastDistance(ghost v0: nat, ghost b0: nat, ghost src: seq<nat>)
      requires Steady() && At(DIST) && Since(v0, b0, src) && (|source| >= 4 || (|source| >= 3 && bits >= 4)) && bits <= 30
      modifies this`hold, this`bits, this`source, this`mode, this`offset, this`extra
      ensures Steady() && At(mode) && mode in {MATCH, BAD} && Since(v0, b0, src) && Dropped(b0, src) >= old(Dropped(b0, src))
      ensures bits <= 30 && |source| >= |old(source)| - (if old(bits) >= 4 then 3 else 4)
    {
      hide Rest, Shr, Pow2, Bytes, Low, Mid, Follows, GoodPair;
      FastFill(DIST, v0, b0, src);
      FastDistSymbol(v0, b0, src);
      if mode == DISTEXT {
        FastDistExtra(v0, b0, src);
      }
    }

    method FastDistExtra(ghost v0: nat, ghost b0: nat, ghost src: seq<nat>)
      requires Steady() && At(DISTEXT) && extra <= 13 && Since(v0, b0, src) && bits <= 30
      requires bits < extra ==> (extra - bits + 7) / 8 <= |source|
      modifies this`hold, this`bits, this`source, this`mode, this`offset
      ensures Steady() && At(MATCH) && mode == MATCH && Since(v0, b0, src) && Dropped(b0, src) >= old(Dropped(b0, src)) && bits <= 30
      ensures |source| == |old(source)| - (if old(bits) < extra then (extra - old(bits) + 7) / 8 else 0)
    {
      hide Rest, Shr, Pow2, Bytes, Low, Mid, Follows, GoodPair;
      FromDistExt(place, Ahead(), length, offset, extra, history, window.Length);
      var x := FastExtra(extra, 2, v0, b0, src);
      offset := offset + x;
      mode := MATCH;
    }

    /** The length of a match: at most one byte is read. */
    method FastLength(ghost v0: nat, ghost b0: nat, ghost src: seq<nat>)
      requires Steady() && At(LENEXT) && extra <= 5 && Since(v0, b0, src) && bits <= 30 && (bits < extra ==> |source| >= 1)
      modifies this`hold, this`bits, this`source, this`length
      ensures Steady() && At(DIST) && Since(v0, b0, src) && Dropped(b0, src) >= old(Dropped(b0, src)) && bits <= 30
      ensures |source| == (if old(bits) < extra then |old(source)| - 1 else |old(source)|)
      ensures old(bits) < extra ==> bits >= old(bits) + 3
    {
      hide Rest, Shr, Pow2, Bytes, Low, Mid, Follows, GoodPair;
      FromLenExt(place, Ahead(), length, offset, extra, history, window.Length);
      var x := FastExtra(extra, 1, v0, b0, src);
      length := length + x;
    }

    /** The rest of a length and its distance. */
    method FastPair(ghost v0: nat, ghost b0: nat, ghost src: seq<nat>)
      requires Steady() && At(LENEXT) && extra <= 5 && Since(v0, b0, src) && bits <= 30
      requires |source| >= 5 || (|source| >= 4 && bits >= 1)
      modifies this`hold, this`bits, this`source, this`mode, this`length, this`offset, this`extra
      ensures Steady() && At(mode) && mode in {MATCH, BAD} && Since(v0, b0, src) && Dropped(b0, src) >= old(Dropped(b0, src))
      ensures bits <= 30 && |source| >= |old(source)| - (if old(bits) >= 1 then 4 else 5)
    {
      hide Rest, Shr, Pow2, Bytes, Low, Mid, Follows, GoodPair;
      FastLength(v0, b0, src);
      FastDistance(v0, b0, src);
    }

    /** The symbol of a literal or length. */
    method FastLenSymbol(ghost v0: nat, ghost b0: nat, ghost src: seq<nat>)
      requires Steady() && At(LEN) && Since(v0, b0, src) && bits >= 15
      modifies this`hold, this`bits, this`mode, this`length, this`extra
      ensures Steady() && At(mode) && mode in {LIT, LENEXT, TYPE, BAD} && Since(v0, b0, src)
      ensures Dropped(b0, src) == old(Dropped(b0, src)) + Needs(lt, lroot, old(Ahead()))
      ensures old(bits) - 15 <= bits <= old(bits) && (mode == LENEXT ==> extra <= 5)
    {
      hide Rest, Shr, Pow2, Bytes, Low, Mid, Lookup, NextToken, NextDistance, Follows, Usable, GoodPair, KnownOp, HasBit;
      PairFacts(lt, lroot, dt, droot);
      ghost var v := Ahead();
      var here, n := FastSymbol(lt, lroot, v0, b0, src);
      AtLen(place, v, length, offset, extra, history, window.Length);
      FromLen(place, here, n, Ahead(), here.val, offset, extra, window.Length);
      LengthSymOp(lt, lroot, dt, droot, v, here, n);
      length := here.val;
      if here.op == 0 {
        mode := LIT;
      } else if HasBit(here.op, 16) {
        extra := here.op % 16;
        mode := LENEXT;
      } else if HasBit(here.op, 32) {
        mode := TYPE;
      } else {
        mode := BAD;
      }
    }

    /** A whole match, or the discovery that its distance goes too far back. */
    method FastMatch(out: array<nat>, put: nat, ghost before: seq<nat>) returns (next: nat)
      requires Steady() && At(MATCH) && out != window && Circular(window[..], wnext, whave, before)
      requires put + 258 <= out.Length && history == before + out[..put]
      modifies this`mode, this`length, this`history, this`tokens, this`place, out
      ensures if mode == BAD then next == put else mode == LEN && put < next <= put + 258
      ensures Steady() && At(mode) && history == before + out[..next]
    {
      hide Usable, Rest, Bytes, Low, Shr, Pow2, NextToken, NextDistance, Follows, GoodPair, Circular, Mid, CopyFrom;
      CircularSizes(window[..], wnext, whave, before);
      MatchRange(place, Ahead(), length, offset, extra, history, window.Length);
      MatchBound(place, Ahead(), length, offset, extra, history, window.Length);
      if offset > put && offset - put > whave {
        FromMatchBad(place, Ahead(), length, offset, extra, history, window.Length);
        mode := BAD;
        return put;
      }
      next := put + length;
      FastCopy(window, wnext, whave, out, put, offset, length, before);
      CountCopied(length);
    }

    /** Inside inflate_fast, between tokens. */
    ghost predicate Hurrying(out: array<nat>, put: nat, before: seq<nat>, v0: nat, b0: nat, src: seq<nat>)
      reads this, window, out
    {
      && Steady() && At(mode) && mode in {LEN, TYPE, BAD} && Since(v0, b0, src) && bits <= 30
      && out != window && Circular(window[..], wnext, whave, before) && put <= out.Length && history == before + out[..put]
    }

    /** One turn of inflate_fast: a token, reading at most six bytes and writing at most 258. */
    method FastToken(out: array<nat>, put: nat, ghost before: seq<nat>, ghost v0: nat, ghost b0: nat, ghost src: seq<nat>)
      returns (next: nat)
      requires Hurrying(out, put, before, v0, b0, src) && mode == LEN && |source| >= 6 && put + 258 <= out.Length
      modifies this`hold, this`bits, this`source, this`mode, this`length, this`offset, this`extra,
               this`history, this`tokens, this`place, out
      ensures Hurrying(out, next, before, v0, b0, src) && |old(source)| - |source| <= 6
      ensures put <= next <= put + 258 && (mode == LEN ==> put < next)
      ensures Dropped(b0, src) >= old(Dropped(b0, src)) + Needs(lt, lroot, old(Ahead()))
    {
      hide Rest, Shr, Pow2, Bytes, Low, Mid, Follows, GoodPair, Circular, Needs;
      FastFill(LEN, v0, b0, src);
      FastLenSymbol(v0, b0, src);
      next := FastWrite(out, put, before, v0, b0, src);
    }

    /** What a symbol calls for. */
    method FastWrite(out: array<nat>, put: nat, ghost before: seq<nat>, ghost v0: nat, ghost b0: nat, ghost src: seq<nat>)
      returns (next: nat)
      requires Steady() && At(mode) && mode in {LIT, LENEXT, TYPE, BAD} && Since(v0, b0, src) && bits <= 30
      requires (mode == LENEXT ==> extra <= 5) && (|source| >= 5 || (|source| >= 4 && bits >= 1))
      requires out != window && Circular(window[..], wnext, whave, before)
      requires put + 258 <= out.Length && history == before + out[..put]
      modifies this`hold, this`bits, this`source, this`mode, this`length, this`offset, this`extra,
               this`history, this`tokens, this`place, out
      ensures Hurrying(out, next, before, v0, b0, src) && |source| >= |old(source)| - (if old(bits) >= 1 then 4 else 5)
      ensures put <= next <= put + 258 && (mode == LEN ==> put < next)
      ensures Dropped(b0, src) >= old(Dropped(b0, src))
    {
      hide Rest, Shr, Pow2, Bytes, Low, Mid, Follows, GoodPair, Circular;
      next := put;
      if mode == LIT {
        WriteLit(out, put, before);
        next := put + 1;
      } else if mode == LENEXT {
        FastPair(v0, b0, src);
        if mode == MATCH {
          next := FastMatch(out, put, before);
        }
      }
    }

    /** Give back the bytes that are held whole: the state is then the one that reading byte by byte leaves. */
    method ReturnBytes(src: seq<nat>, ghost hold0: nat, ghost b0: nat)
      requires Reading() && hold0 < Pow2(b0) && Since(Rest(hold0, b0, src + future), b0, src) && Bytes(src + future)
      requires b0 < Dropped(b0, src) + 8
      modifies this`hold, this`bits, this`source
      ensures Reading() && Ahead() == old(Ahead()) && bits < 8
      ensures Since(Rest(hold0, b0, src + future), b0, src) && Dropped(b0, src) == old(Dropped(b0, src))
      ensures forall h: nat, b: nat, i: nat | i <= |src| && h < Pow2(b) && b < 8 && b0 + 8 * i - b == Dropped(b0, src)
                && Rest(h, b, (src + future)[i..]) == Ahead() :: h == hold && b == bits && src[i..] == source
    {
      hide Rest, Shr, Pow2, Low;
      ghost var all := src + future;
      var read := |src| - |source|;
      assert all[read..] == source + future;
      PutBack(hold0, b0, all, hold, bits, read, Dropped(b0, src));
      var back := bits / 8;
      assert all[read - back..] == src[read - back..] + future;
      source := src[read - back..];
      bits := bits - 8 * back;
      hold := Low(hold, bits);
      assert forall i :: 0 <= i < |source + future| ==> (source + future)[i] == all[read - back + i];
      forall h: nat, b: nat, i: nat | i <= |src| && h < Pow2(b) && b < 8 && b0 + 8 * i - b == Dropped(b0, src)
          && Rest(h, b, all[i..]) == Ahead()
        ensures h == hold && b == bits && src[i..] == source
      {
        OneState(all, h, b, i, hold, bits, read - back);
      }
    }

    /**
      inflate_fast: tokens as long as there are six bytes of input and room for
      258, then back to what the slow states would have left.
     */
    method InflateFast(out: array<nat>, put0: nat, ghost before: seq<nat>) returns (put: nat)
      requires Busy(out, put0, before) && mode == LEN && |source| >= 6 && put0 + 258 <= out.Length
      modifies this`hold, this`bits, this`source, this`mode, this`length, this`offset, this`extra,
               this`history, this`tokens, this`place, out
      ensures Busy(out, put, before) && mode in {LEN, TYPE, BAD} && put0 <= put && (mode == LEN ==> put0 < put)
    {
      hide Rest, Shr, Pow2, Bytes, Low, Mid, Follows, GoodPair, Circular, Needs;
      PairFacts(lt, lroot, dt, droot);
      UsableNeeds(lt, lroot, Ahead());
      var src := source;
      ghost var v0, b0, hold0, need := Ahead(), bits, hold, Needs(lt, lroot, Ahead());
      NoBits(v0);
      assert src[0..] == src;
      put := FastToken(out, put0, before, v0, b0, src);
      while mode == LEN && |source| > 5 && put + 257 < out.Length
        invariant Hurrying(out, put, before, v0, b0, src) && Dropped(b0, src) >= need
        invariant put0 <= put && (mode == LEN ==> put0 < put)
        decreases mode == LEN, out.Length - put
      {
        put := FastToken(out, put, before, v0, b0, src);
      }
      ReturnBytes(src, hold0, b0);
    }

    // ----- whole calls -----------------------------------------------------------------------------

    /** The state machine until it needs input or room, or the block ends. */
    method Decode(out: array<nat>, ghost before: seq<nat>) returns (put: nat)
      requires Busy(out, 0, before)
      modifies this`hold, this`bits, this`source, this`mode, this`length, this`offset, this`extra,
               this`history, this`tokens, this`place, out
      ensures Busy(out, put, before)
      ensures mode in {TYPE, BAD} || Starved() || put == out.Length
    {
      hide Rest, Shr, Pow2, Bytes, Low, Mid, Follows, GoodPair, Circular, Needs;
      put := 0;
      while true
        invariant Busy(out, put, before)
        decreases out.Length - put, Rank(mode)
      {
        if mode == LEN && |source| >= 6 && out.Length - put >= 258 {
          put := InflateFast(out, put, before);
        } else if mode == MATCH {
          if put == out.Length { return; }
          put := DoMatch(out, put, before);
        } else if mode == LIT {
          if put == out.Length { return; }
          DoLit(out, put, before);
          put := put + 1;
        } else if mode == TYPE || mode == BAD {
          return;
        } else {
          var ok := ReadOn();
          if !ok { return; }
        }
      }
    }

    /** The states that only read. */
    method ReadOn() returns (ok: bool)
      requires Consistent() && mode in {LEN, LENEXT, DIST, DISTEXT}
      modifies this`hold, this`bits, this`source, this`mode, this`length, this`offset, this`extra
      ensures Consistent() && (if ok then Rank(mode) < old(Rank(mode)) else Starved())
    {
      hide Rest, Shr, Pow2, Bytes, Low, Mid, Follows, GoodPair, Needs;
      if mode == LEN {
        ok := DoLen();
      } else if mode == LENEXT {
        ok := DoLenExt();
      } else if mode == DIST {
        ok := DoDist();
      } else {
        ok := DoDistExt();
      }
    }

    /** One call of inflate inside a block: bytes are written and the window is brought up to date. */
    method Call(out: array<nat>) returns (n: nat)
      requires Valid() && out != window
      modifies this`hold, this`bits, this`source, this`mode, this`length, this`offset, this`extra,
               this`history, this`tokens, this`place, this`wnext, this`whave, out, window
      ensures Valid() && n <= out.Length && history == old(history) + out[..n]
      ensures mode in {TYPE, BAD} || Starved() || n == out.Length
    {
      hide Rest, Shr, Pow2, Bytes, Low, Mid, Follows, GoodPair, Circular, Needs;
      ghost var before := history;
      assert before + out[..0] == history;
      n := Decode(out, before);
      wnext, whave := UpdateWindow(window, wnext, whave, out, n, before);
    }

    /** One call of inflate in a stored block, the COPY state: bytes go from input to output as they are. */
    method StoredCall(out: array<nat>) returns (n: nat)
      requires Circular(window[..], wnext, whave, history) && out != window
      modifies this`length, this`source, this`history, this`mode, this`wnext, this`whave, out, window
      ensures Circular(window[..], wnext, whave, history)
      ensures n == Min(old(length), Min(|old(source)|, out.Length))
      ensures out[..n] == old(source)[..n] && history == old(history) + out[..n]
      ensures source == old(source)[n..] && length == old(length) - n && (length == 0 ==> mode == TYPE)
    {
      hide Circular;
      n := length;
      if n > |source| { n := |source|; }
      if n > out.Length { n := out.Length; }
      ghost var w := window[..];
      forall i | 0 <= i < n { out[i] := source[i]; }
      assert out[..n] == source[..n] && window[..] == w;
      wnext, whave := UpdateWindow(window, wnext, whave, out, n, history);
      history := history + out[..n];
      source := source[n..];
      length := length - n;
      if length == 0 { mode := TYPE; }
    }
  }

  /** How far a state is from a byte of output. */
  function Rank(mode: Mode): nat {
    match mode
    case LEN => 5 case LENEXT => 4 case DIST => 3 case DISTEXT => 2 case MATCH => 1 case LIT => 1 case TYPE => 0 case BAD => 0
  }

  lemma UsableNeeds(t: seq<Code>, root: nat, v: nat)
    requires Usable(t, root)
    ensures Needs(t, root, v) <= MAXBITS
  {
    assert AlwaysAt(t, root, v);
  }

  lemma MatchBound(p: Place, v: nat, length: nat, offset: nat, extra: nat, history: seq<nat>, wsize: nat)
    requires Mid(p, MATCH, v, length, offset, extra, history, wsize) && GoodPair(p.lt, p.lroot, p.dt, p.droot)
    ensures length <= 258
  {
    hide NextToken, Usable;
    assert GoodResult(p.Next());
  }

  lemma PairFacts(lt: seq<Code>, lroot: nat, dt: seq<Code>, droot: nat)
    requires GoodPair(lt, lroot, dt, droot)
    ensures Usable(lt, lroot) && Usable(dt, droot)
  {
  }

  lemma DistanceOp(lt: seq<Code>, lroot: nat, dt: seq<Code>, droot: nat, v: nat, e: Code, n: nat)
    requires GoodPair(lt, lroot, dt, droot) && Lookup(dt, droot, v) == Some((e, n)) && KnownOp(e.op)
    ensures HasBit(e.op, 16) ==> e.op % 16 <= 13 && !HasBit(e.op, 64)
    ensures !HasBit(e.op, 16) ==> HasBit(e.op, 64)
  {
    hide Lookup, NextToken, Usable;
    assert NoLiteralAt(dt, droot, v);
    ExtraBound(dt, droot, v, 13, e, n);
    OpBits(e.op);
  }

  lemma LengthSymOp(lt: seq<Code>, lroot: nat, dt: seq<Code>, droot: nat, v: nat, e: Code, n: nat)
    requires GoodPair(lt, lroot, dt, droot) && Lookup(lt, lroot, v) == Some((e, n)) && KnownOp(e.op)
    ensures e.op == 0 ==> !HasBit(e.op, 16)
    ensures HasBit(e.op, 16) ==> e.op % 16 <= 5 && e.op != 0 && !HasBit(e.op, 32) && !HasBit(e.op, 64)
    ensures e.op != 0 && !HasBit(e.op, 16) ==> HasBit(e.op, 64)
  {
    hide Lookup, NextToken, Usable;
    ExtraBound(lt, lroot, v, 5, e, n);
    OpBits(e.op);
  }

  lemma ExtraBound(t: seq<Code>, root: nat, v: nat, m: nat, e: Code, n: nat)
    requires Extras(t, root, m) && Lookup(t, root, v) == Some((e, n))
    ensures 16 <= e.op < 32 ==> e.op % 16 <= m
  {
    assert ExtraAt(t, root, v, m);
  }

  lemma OpBits(op: nat)
    requires KnownOp(op)
    ensures HasBit(op, 16) <==> 16 <= op < 32
    ensures 16 <= op < 32 ==> !HasBit(op, 32) && !HasBit(op, 64)
    ensures op != 0 && !HasBit(op, 16) ==> HasBit(op, 64) && (HasBit(op, 32) <==> op == 96)
  {
  }

  lemma ShortNeeds(t: seq<Code>, root: nat, v: nat)
    requires Always(t, root)
    ensures Needs(t, root, v) <= MAXBITS && Lookup(t, root, v).Some? && KnownOp(Lookup(t, root, v).value.0.op)
  {
    hide Lookup, KnownOp;
    assert AlwaysAt(t, root, v);
  }

  lemma MatchRange(p: Place, v: nat, length: nat, offset: nat, extra: nat, history: seq<nat>, wsize: nat)
    requires Mid(p, MATCH, v, length, offset, extra, history, wsize)
    ensures 1 <= length && 1 <= offset
  {
  }

  lemma NoBits(v: nat)
    ensures Low(v, 0) == 0 && Shr(v, 0) == v
  {
  }

  /** The steps of a lookup, with every index in range. */
  lemma LookupParts(t: seq<Code>, root: nat, v: nat)
    requires Always(t, root)
    ensures Low(v, root) < |t|
    ensures var e := t[Low(v, root)];
            if !IsLink(e) then Lookup(t, root, v) == Some((e, e.bits)) && Needs(t, root, v) == e.bits
            else
              var j := e.val + Shr(Low(v, e.bits + e.op), e.bits);
              j < |t| && Lookup(t, root, v) == Some((t[j], e.bits + t[j].bits)) && Needs(t, root, v) == e.bits + t[j].bits
  {
    hide Low, Shr;
    assert AlwaysAt(t, root, v);
  }

  lemma LinkBits(t: seq<Code>, root: nat, i: nat)
    requires LinksOk(t, root) && i < |t| && IsLink(t[i]) && exists v: nat :: i == Low(v, root)
    ensures t[i].bits == root
  {
    var v: nat :| i == Low(v, root);
    LowBound(v, root);
  }

  /** What was found with the bits that are there holds for the stream. */
  lemma FoundEarly(t: seq<Code>, root: nat, hold: nat, bits: nat, source: seq<nat>)
    requires Early(t, root) && hold < Pow2(bits) && Needs(t, root, hold) <= bits
    ensures Lookup(t, root, Rest(hold, bits, source)) == Lookup(t, root, hold)
    ensures Needs(t, root, Rest(hold, bits, source)) == Needs(t, root, hold)
  {
    hide Low, Lookup, Rest, Pow2;
    assert EarlyAt(t, root, bits, Rest(hold, bits, source));
    HoldBits(hold, bits, source, bits);
    LowSmall(hold, bits);
  }

  /** If the bits that are there do not suffice, the stream's code is longer. */
  lemma Lacking(t: seq<Code>, root: nat, hold: nat, bits: nat, source: seq<nat>)
    requires Early(t, root) && hold < Pow2(bits) && Needs(t, root, hold) > bits
    ensures Needs(t, root, Rest(hold, bits, source)) > bits
  {
    hide Low, Lookup, Rest, Pow2;
    assert EarlyAt(t, root, bits, Rest(hold, bits, source));
    HoldBits(hold, bits, source, bits);
    LowSmall(hold, bits);
  }

  lemma Begins(p: Place, length: nat, offset: nat, extra: nat, wsize: nat)
    ensures Follows(p, [], p) && Mid(p, LEN, p.at, length, offset, extra, p.history, wsize)
  {
  }

  // ----- against the stream ------------------------------------------------------------------------

  lemma {:induction false} AppendToApply(h: seq<nat>, tokens: seq<Token>)
    requires tokens != []
    ensures Apply(Append(h, tokens[0]), tokens[1..]) == Apply(h, tokens)
    decreases |tokens|
  {
    var k := |tokens| - 1;
    if k > 0 {
      assert tokens[1..][..k - 1] == tokens[..k][1..];
      AppendToApply(h, tokens[..k]);
    } else {
      assert tokens[1..] == [] && tokens[..0] == [];
    }
  }

  /** Following a stream that holds a block follows the tokens of that block. */
  lemma {:induction false} FollowsBlock(start: Place, tokens: seq<Token>, place: Place, all: seq<Token>, rest: nat)
    requires Follows(start, tokens, place) && Reads(start.lt, start.lroot, start.dt, start.droot, start.at, all, rest)
    ensures tokens <= all && place.history == Apply(start.history, tokens)
    ensures place.lt == start.lt && place.lroot == start.lroot && place.dt == start.dt && place.droot == start.droot
    ensures Reads(place.lt, place.lroot, place.dt, place.droot, place.at, all[|tokens|..], rest)
    decreases |tokens|
  {
    hide NextToken, Append;
    if tokens == [] {
      assert all[0..] == all;
    } else {
      FollowsBlock(After(start), tokens[1..], place, all[1..], rest);
      AppendToApply(start.history, tokens);
      assert all[1..][|tokens| - 1..] == all[|tokens|..];
    }
  }

  /**
    When the machine reports the end of a block it has written the block's
    expansion and stands right behind it; it never fails on a block whose
    distances stay within window and history.
   */
  lemma BlockDone(start: Place, tokens: seq<Token>, place: Place, mode: Mode, v: nat, length: nat, offset: nat, extra: nat,
                  history: seq<nat>, wsize: nat, all: seq<Token>, rest: nat)
    requires Follows(start, tokens, place) && Mid(place, mode, v, length, offset, extra, history, wsize)
    requires Reads(start.lt, start.lroot, start.dt, start.droot, start.at, all, rest)
    ensures mode == TYPE ==> tokens == all && history == Apply(start.history, all) && v == rest
    ensures mode == BAD ==> |tokens| < |all| && all[|tokens|].Copy?
    ensures mode == BAD ==> all[|tokens|].distance > wsize || all[|tokens|].distance > |Apply(start.history, all[..|tokens|])|
  {
    hide NextToken, Apply;
    FollowsBlock(start, tokens, place, all, rest);
    assert tokens == all[..|tokens|];
  }

  /** At any time what was written is the beginning of the block's expansion. */
  lemma WrittenSoFar(start: Place, tokens: seq<Token>, place: Place, mode: Mode, v: nat, length: nat, offset: nat, extra: nat,
                     history: seq<nat>, wsize: nat, all: seq<Token>, rest: nat)
    requires Follows(start, tokens, place) && Mid(place, mode, v, length, offset, extra, history, wsize) && mode != BAD
    requires Reads(start.lt, start.lroot, start.dt, start.droot, start.at, all, rest)
    ensures history <= Apply(start.history, all)
  {
    hide NextToken;
    FollowsBlock(start, tokens, place, all, rest);
    var k := |tokens|;
    assert tokens == all[..k];
    ApplyGrows(start.history, all, k);
    if mode == MATCH {
      var n: nat, was: nat :| Is(place, v, n) && place.Next() == Got(Copy(offset, was), n) && Copied(place.history, offset, was, length, history);
      assert all[k..] != [] && all[k] == Copy(offset, was);
      ApplyGrows(start.history, all, k + 1);
      assert all[..k + 1][..k] == all[..k];
      PartOfCopy(place.history, offset, was, length, history);
    }
  }

  lemma PartOfCopy(before: seq<nat>, offset: nat, was: nat, length: nat, history: seq<nat>)
    requires Copied(before, offset, was, length, history)
    ensures history <= CopyFrom(before, offset, was)
  {
    if offset <= |before| { CopySplit(before, offset, was - length, length); }
  }

  lemma {:induction false} ApplyGrows(h: seq<nat>, all: seq<Token>, k: nat)
    requires k <= |all|
    ensures Apply(h, all[..k]) <= Apply(h, all)
    decreases |all|
  {
    if k < |all| {
      var m := |all| - 1;
      assert all[..m][..k] == all[..k];
      ApplyGrows(h, all[..m], k);
      AppendGrows(Apply(h, all[..m]), all[m]);
    } else {
      assert all[..k] == all;
    }
  }

  lemma AppendGrows(h: seq<nat>, token: Token)
    ensures h <= Append(h, token)
  {
  }
}
