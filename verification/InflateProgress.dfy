/**
  The decoder gets to the end of a block whose bits are all there.  A byte 1 put
  behind the input marks where it ends: as long as the mark is ahead, no step
  waits for more.
 */
module InflateProgress {
  import opened Wrappers
  import opened Bits
  import opened BitIo
  import opened Lz77
  import opened InflateSpec
  import opened InflateTable
  import opened InflateLookup
  import opened Block
  import opened Inflate

  lemma {:induction false} ShrOfZero(n: nat)
    ensures Shr(0, n) == 0
  {
    if n > 0 { ShrOfZero(n - 1); }
  }

  /** Taking more bits than a number has leaves nothing. */
  lemma ShrPast(v: nat, m: nat, n: nat)
    requires v < Pow2(m) && m <= n
    ensures Shr(v, n) == 0
  {
    Pow2Mono(m, n);
    LowSmall(v, n);
  }

  /** All input is held, and the mark behind it. */
  lemma HeldAndMark(hold: nat, bits: nat)
    requires hold < Pow2(bits)
    ensures Rest(hold, bits, [1]) == hold + Pow2(bits) < Pow2(bits + 1)
  {
    NumberOne(1);
    ShlOne(bits);
  }

  /** Where less than n bits are held and only the mark follows, less than n bits follow. */
  lemma ShortOf(hold: nat, bits: nat, n: nat)
    requires hold < Pow2(bits) && bits < n
    ensures Rest(hold, bits, [1]) < Pow2(n)
    ensures Shr(Rest(hold, bits, [1]), n) == 0
  {
    HeldAndMark(hold, bits);
    Pow2Mono(bits + 1, n);
    ShrPast(Rest(hold, bits, [1]), n, n);
  }

  /** A token takes at least the bits of its first symbol. */
  lemma TokenTakes(lt: seq<Code>, lroot: nat, dt: seq<Code>, droot: nat, v: nat)
    ensures match NextToken(lt, lroot, dt, droot, v)
            case Got(_, n) => n >= Needs(lt, lroot, v)
            case EndOfBlock(n) => n >= Needs(lt, lroot, v)
            case _ => true
  {
    hide Lookup, Shr, Low;
  }

  /** Behind the last bit there is nothing but zeros to read. */
  lemma {:induction false} NothingAfterZero(lt: seq<Code>, lroot: nat, dt: seq<Code>, droot: nat, all: seq<Token>, rest: nat)
    requires Reads(lt, lroot, dt, droot, 0, all, rest)
    ensures rest == 0
    decreases |all|
  {
    hide NextToken, Shr;
    match NextToken(lt, lroot, dt, droot, 0) {
      case Got(_, n) =>
        ShrOfZero(n);
        NothingAfterZero(lt, lroot, dt, droot, all[1..], rest);
      case EndOfBlock(n) => ShrOfZero(n);
      case _ =>
    }
  }

  /** If a token needs more bits than are left, the block takes all of them. */
  lemma CutInToken(p: Place, v: nat, n: nat, need: nat, all: seq<Token>, rest: nat)
    requires Reads(p.lt, p.lroot, p.dt, p.droot, p.at, all, rest)
    requires v == Shr(p.at, n) && v < Pow2(need)
    requires match p.Next() case Got(_, k) => k >= n + need case EndOfBlock(k) => k >= n + need case _ => true
    ensures rest == 0
  {
    hide NextToken, Shr, Pow2;
    match p.Next() {
      case Got(_, k) =>
        ShrShr(p.at, n, k - n);
        ShrPast(v, need, k - n);
        NothingAfterZero(p.lt, p.lroot, p.dt, p.droot, all[1..], rest);
      case EndOfBlock(k) =>
        ShrShr(p.at, n, k - n);
        ShrPast(v, need, k - n);
      case _ =>
    }
  }

  /** A decoder that waits within a block although the mark is next: the block goes beyond the mark. */
  lemma WaitingTakesAll(p: Place, mode: Mode, v: nat, length: nat, offset: nat, extra: nat, history: seq<nat>, wsize: nat,
                        all: seq<Token>, rest: nat)
    requires Mid(p, mode, v, length, offset, extra, history, wsize) && mode in {LEN, LENEXT, DIST, DISTEXT}
    requires v < Pow2(Due(mode, p.lt, p.lroot, p.dt, p.droot, v, extra))
    requires Reads(p.lt, p.lroot, p.dt, p.droot, p.at, all, rest)
    ensures rest == 0
  {
    hide NextToken, NextDistance, Reads, Lookup, Shr, Low, Pow2;
    if mode == LEN {
      TokenTakes(p.lt, p.lroot, p.dt, p.droot, v);
      NoBits(v);
      CutInToken(p, v, 0, Needs(p.lt, p.lroot, v), all, rest);
    } else if mode == LENEXT {
      var n: nat :| Is(p, v, n) && LengthDue(p, v, length, extra, n);
      DistanceTakes(p.dt, p.droot, Shr(v, extra), length + Low(v, extra), n + extra);
      CutInToken(p, v, n, extra, all, rest);
    } else if mode == DIST {
      var n: nat :| Is(p, v, n) && p.Next() == NextDistance(p.dt, p.droot, v, length, n);
      DistanceTakes(p.dt, p.droot, v, length, n);
      CutInToken(p, v, n, Needs(p.dt, p.droot, v), all, rest);
    } else {
      var n: nat :| Is(p, v, n) && DistanceDue(p, v, length, offset, extra, n);
      CutInToken(p, v, n, extra, all, rest);
    }
  }

  lemma DistanceTakes(dt: seq<Code>, droot: nat, v: nat, length: nat, bits: nat)
    ensures match NextDistance(dt, droot, v, length, bits)
            case Got(_, n) => n >= bits + Needs(dt, droot, v)
            case EndOfBlock(n) => false
            case _ => true
  {
    hide Lookup, Shr, Low;
  }

  /** The block ends within the input: the mark behind the input is still to come when the block is over. */
  ghost predicate EndsWithin(lt: seq<Code>, lroot: nat, dt: seq<Code>, droot: nat, v: nat, all: seq<Token>) {
    exists rest: nat :: rest > 0 && Reads(lt, lroot, dt, droot, v, all, rest)
  }

  /** A decoder that has all of such a block, mark included, does not wait. */
  lemma DoesNotWait(start: Place, tokens: seq<Token>, place: Place, mode: Mode, hold: nat, bits: nat,
                    length: nat, offset: nat, extra: nat, history: seq<nat>, wsize: nat, all: seq<Token>)
    requires hold < Pow2(bits) && Follows(start, tokens, place)
    requires Mid(place, mode, Rest(hold, bits, [1]), length, offset, extra, history, wsize) && mode in {LEN, LENEXT, DIST, DISTEXT}
    requires EndsWithin(start.lt, start.lroot, start.dt, start.droot, start.at, all)
    ensures bits >= Due(mode, place.lt, place.lroot, place.dt, place.droot, Rest(hold, bits, [1]), extra)
  {
    hide Follows, Mid, Reads, Rest, Pow2, Due;
    var rest: nat :| rest > 0 && Reads(start.lt, start.lroot, start.dt, start.droot, start.at, all, rest);
    var v := Rest(hold, bits, [1]);
    FollowsBlock(start, tokens, place, all, rest);
    HeldAndMark(hold, bits);
    var due := Due(mode, place.lt, place.lroot, place.dt, place.droot, v, extra);
    if bits < due {
      Pow2Mono(bits + 1, due);
      WaitingTakesAll(place, mode, v, length, offset, extra, history, wsize, all[|tokens|..], rest);
    }
  }
}
