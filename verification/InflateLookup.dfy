/**
  Looking up a code while only part of the stream has arrived: the loops of the
  LEN and DIST states of deps/zlib/inflate.c look into the table with the bits
  they have, and pull bytes until the entry found does not need more than that.
 */
module InflateLookup {
  import opened Wrappers
  import opened Bits
  import opened Canonical
  import opened InflateSpec
  import opened InflateTable

  /** The operations the decoder knows: literal, base with extra bits, end of block, invalid. */
  predicate KnownOp(op: nat) {
    || op == 0
    || 16 <= op < 32
    || op == 96
    || ((op / 64) % 2 == 1 && (op / 32) % 2 == 0 && (op / 16) % 2 == 0)
  }

  /** Every index leads to an entry, of a known kind and with no more bits than a code can have. */
  ghost predicate Always(t: seq<Code>, root: nat) {
    forall v: nat :: AlwaysAt(t, root, v)
  }

  ghost predicate AlwaysAt(t: seq<Code>, root: nat, v: nat) {
    match Lookup(t, root, v)
    case None => false
    case Some((e, n)) => n <= MAXBITS && KnownOp(e.op)
  }

  /** The bits the lookup of a stream takes. */
  ghost function Needs(t: seq<Code>, root: nat, v: nat): nat {
    match Lookup(t, root, v)
    case None => 0
    case Some((_, n)) => n
  }

  /** A lookup with the first bits of a stream is right as soon as the code is among them, and only then. */
  ghost predicate Early(t: seq<Code>, root: nat) {
    forall bits: nat, v: nat :: EarlyAt(t, root, bits, v)
  }

  ghost predicate EarlyAt(t: seq<Code>, root: nat, bits: nat, v: nat) {
    var h := Low(v, bits);
    Needs(t, root, h) <= bits || Needs(t, root, v) <= bits ==> Lookup(t, root, v) == Lookup(t, root, h)
  }

  /** A table that the decoder can use. */
  ghost predicate Usable(t: seq<Code>, root: nat) {
    Always(t, root) && Early(t, root) && LinksOk(t, root)
  }

  lemma EntryKnown(ct: CodeType, sym: nat, bits: nat)
    requires sym < MaxCodes(ct)
    ensures KnownOp(Entry(ct, sym, bits).op)
  {
    if ct == LENS && sym > 256 { LengthOp(sym - 257); } else if ct == DISTS { DistOp(sym); }
  }

  lemma LengthOp(c: nat)
    requires c < 31
    ensures KnownOp(LEXT[c])
  {
  }

  lemma DistOp(c: nat)
    requires c < 32
    ensures KnownOp(DEXT[c])
  {
  }

  lemma LowTakes(v: nat, bits: nat, n: nat)
    requires n <= bits
    ensures Low(Low(v, bits), n) == Low(v, n)
  {
    LowShr(v, n, bits - n);
  }

  /** The table of a complete code is usable. */
  lemma CompleteUsable(t: seq<Code>, root: nat, lens: seq<nat>, ct: CodeType)
    requires ValidLens(lens) && |lens| <= MaxCodes(ct) && Prefix(lens) && Complete(lens)
    requires Decodes(t, root, lens, ct) && LinksOk(t, root)
    ensures Usable(t, root)
  {
    hide Lookup, Low, Prefix, Complete, Decodes, StreamCode, LinksOk, Entry;
    forall v: nat ensures AlwaysAt(t, root, v) {
      var s := EveryStreamDecodes(t, root, lens, ct, v);
      EntryKnown(ct, s, EntryBits(root, lens[s]));
    }
    forall bits: nat, v: nat ensures EarlyAt(t, root, bits, v) {
      var h := Low(v, bits);
      var s := EveryStreamDecodes(t, root, lens, ct, h);
      var u := EveryStreamDecodes(t, root, lens, ct, v);
      if lens[s] <= bits {
        LowTakes(v, bits, lens[s]);
        DecodesAt(t, root, lens, ct, s, v);
      } else if lens[u] <= bits {
        LowTakes(v, bits, lens[u]);
        DecodesAt(t, root, lens, ct, u, h);
      }
    }
  }

  lemma DecodesAt(t: seq<Code>, root: nat, lens: seq<nat>, ct: CodeType, s: nat, v: nat)
    requires |lens| <= MaxCodes(ct) && Decodes(t, root, lens, ct) && s < |lens| && StartsWith(lens, s, v)
    ensures Lookup(t, root, v) == Some((Entry(ct, s, EntryBits(root, lens[s])), lens[s]))
  {
  }

  lemma RejectsAt(t: seq<Code>, root: nat, lens: seq<nat>, v: nat)
    requires RejectsOthers(t, root, lens) && forall s: nat :: s < |lens| ==> !StartsWith(lens, s, v)
    ensures Lookup(t, root, v) == Some((INVALID, 1))
  {
  }

  /** So is the table of a set of lengths that is empty or a single one-bit code. */
  lemma ShortUsable(t: seq<Code>, root: nat, lens: seq<nat>, ct: CodeType)
    requires |lens| <= MaxCodes(ct) && (forall s :: 0 <= s < |lens| ==> lens[s] <= 1)
    requires Decodes(t, root, lens, ct) && RejectsOthers(t, root, lens) && LinksOk(t, root)
    ensures Usable(t, root)
  {
    hide Lookup, Low, Decodes, StreamCode, LinksOk, Entry, RejectsOthers;
    forall v: nat ensures AlwaysAt(t, root, v) && Needs(t, root, v) == 1 { ShortLookup(t, root, lens, ct, v); }
    forall bits: nat, v: nat ensures EarlyAt(t, root, bits, v) {
      var h := Low(v, bits);
      if 1 <= bits {
        LowTakes(v, bits, 1);
        ShortSame(t, root, lens, ct, v, h);
      } else {
        assert Needs(t, root, h) == 1 && Needs(t, root, v) == 1;
      }
    }
  }

  lemma ShortLookup(t: seq<Code>, root: nat, lens: seq<nat>, ct: CodeType, v: nat)
    requires |lens| <= MaxCodes(ct) && (forall s :: 0 <= s < |lens| ==> lens[s] <= 1)
    requires Decodes(t, root, lens, ct) && RejectsOthers(t, root, lens)
    ensures AlwaysAt(t, root, v) && Needs(t, root, v) == 1
  {
    hide Lookup, Low, Decodes, StreamCode, Entry, RejectsOthers;
    if s: nat :| s < |lens| && StartsWith(lens, s, v) {
      DecodesAt(t, root, lens, ct, s, v);
      EntryKnown(ct, s, EntryBits(root, lens[s]));
    } else {
      RejectsAt(t, root, lens, v);
    }
  }

  lemma ShortSame(t: seq<Code>, root: nat, lens: seq<nat>, ct: CodeType, v: nat, h: nat)
    requires |lens| <= MaxCodes(ct) && (forall s :: 0 <= s < |lens| ==> lens[s] <= 1) && Low(v, 1) == Low(h, 1)
    requires Decodes(t, root, lens, ct) && RejectsOthers(t, root, lens)
    ensures Lookup(t, root, v) == Lookup(t, root, h)
  {
    hide Lookup, Low, Decodes, StreamCode, Entry, RejectsOthers;
    assert forall s: nat :: s < |lens| ==> (StartsWith(lens, s, v) <==> StartsWith(lens, s, h));
    if s: nat :| s < |lens| && StartsWith(lens, s, h) {
      DecodesAt(t, root, lens, ct, s, h);
      DecodesAt(t, root, lens, ct, s, v);
    } else {
      RejectsAt(t, root, lens, h);
      RejectsAt(t, root, lens, v);
    }
  }
}
