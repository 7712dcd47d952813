/**
  What the decoding tables of deps/zlib/inftrees.c must do: entries, the
  two-level lookup of the LEN and DIST states of deps/zlib/inflate.c, and the
  facts about a table under construction that make every lookup right.
 */
module InflateSpec {
  import opened Bits
  import opened Canonical
  import opened Wrappers

  datatype CodeType = CODES | LENS | DISTS

  /** A table entry: operation, bits to drop, value or offset. */
  datatype Code = Code(op: nat, bits: nat, val: nat)

  const LBASE: seq<nat> := [
    3, 4, 5, 6, 7, 8, 9, 10, 11, 13, 15, 17, 19, 23, 27, 31,
    35, 43, 51, 59, 67, 83, 99, 115, 131, 163, 195, 227, 258, 0, 0]
  const LEXT: seq<nat> := [
    16, 16, 16, 16, 16, 16, 16, 16, 17, 17, 17, 17, 18, 18, 18, 18,
    19, 19, 19, 19, 20, 20, 20, 20, 21, 21, 21, 21, 16, 199, 202]
  const DBASE: seq<nat> := [
    1, 2, 3, 4, 5, 7, 9, 13, 17, 25, 33, 49, 65, 97, 129, 193,
    257, 385, 513, 769, 1025, 1537, 2049, 3073, 4097, 6145,
    8193, 12289, 16385, 24577, 0, 0]
  const DEXT: seq<nat> := [
    16, 16, 16, 16, 17, 17, 18, 18, 19, 19, 20, 20, 21, 21, 22, 22,
    23, 23, 24, 24, 25, 25, 26, 26, 27, 27,
    28, 28, 29, 29, 64, 64]

  /** How many symbols a code of each type may have. */
  function MaxCodes(t: CodeType): nat {
    match t case CODES => 19 case LENS => 288 case DISTS => 32
  }

  /** The entry of a symbol, dropping `bits` bits. */
  function Entry(t: CodeType, sym: nat, bits: nat): (e: Code)
    requires sym < MaxCodes(t)
    ensures e.bits == bits && !IsLink(e)
  {
    match t
    case CODES => Code(0, bits, sym)
    case LENS =>
      if sym < 256 then Code(0, bits, sym)
      else if sym == 256 then Code(96, bits, 0)
      else Code(LEXT[sym - 257], bits, LBASE[sym - 257])
    case DISTS => Code(DEXT[sym], bits, DBASE[sym])
  }

  /** An entry that points to a second-level table: op in 1..15. */
  predicate IsLink(e: Code) {
    0 < e.op < 16
  }

  /** The entry a stream leads to, and how many bits are dropped on the way. */
  function Lookup(t: seq<Code>, root: nat, v: nat): Option<(Code, nat)> {
    var i := Low(v, root);
    if i >= |t| then None
    else if !IsLink(t[i]) then Some((t[i], t[i].bits))
    else
      var last := t[i];
      var j := last.val + Shr(Low(v, last.bits + last.op), last.bits);
      if j >= |t| then None else Some((t[j], last.bits + t[j].bits))
  }

  /** The bits an entry for a code of length len drops, behind a root of the given size. */
  function EntryBits(root: nat, len: nat): nat {
    if len <= root then len else len - root
  }

  // ----- a symbol entered in the tables ------------------------------------------------

  /** The code of s fills all its slots in the root table. */
  ghost predicate InRoot(t: seq<Code>, root: nat, lens: seq<nat>, ct: CodeType, s: nat)
    requires s < |lens| && s < MaxCodes(ct)
  {
    && Pow2(root) <= |t|
    && forall i :: 0 <= i < Pow2(root) && Low(i, lens[s]) == StreamCode(lens, s) ==>
         t[i] == Entry(ct, s, lens[s])
  }

  /** e links to a table at e.val with 2^e.op entries below `end`, big enough for length len. */
  ghost predicate GoodLink(e: Code, root: nat, len: nat, end: nat) {
    && e.bits == root && IsLink(e) && len <= root + e.op
    && Pow2(root) <= e.val && e.val + Pow2(e.op) <= end
  }

  ghost predicate InSub(t: seq<Code>, root: nat, lens: seq<nat>, ct: CodeType, s: nat, end: nat)
    requires s < |lens| && s < MaxCodes(ct) && lens[s] > root
  {
    var low := Low(StreamCode(lens, s), root);
    && Pow2(root) <= end <= |t|
    && low < |t|
    && GoodLink(t[low], root, lens[s], end)
    && SubFilled(t, t[low].val, t[low].op, lens[s] - root, Shr(StreamCode(lens, s), root), Entry(ct, s, lens[s] - root))
  }

  /** The l-bit code c fills all its slots in the table of 2^curr entries at `at`. */
  ghost predicate SubFilled(t: seq<Code>, at: nat, curr: nat, l: nat, c: nat, e: Code)
    requires at + Pow2(curr) <= |t|
  {
    forall i :: 0 <= i < Pow2(curr) ==> SubSlot(t, at, i, l, c, e)
  }

  /** Slot i of the table at `at` holds e if the l-bit code c belongs there. */
  ghost predicate SubSlot(t: seq<Code>, at: nat, i: nat, l: nat, c: nat, e: Code)
    requires at + i < |t|
  {
    Low(i, l) == c ==> t[at + i] == e
  }

  ghost predicate Placed(t: seq<Code>, root: nat, lens: seq<nat>, ct: CodeType, s: nat, end: nat)
    requires s < |lens| && s < MaxCodes(ct)
  {
    if lens[s] <= root then InRoot(t, root, lens, ct, s) else InSub(t, root, lens, ct, s, end)
  }

  /** Every stream that starts with the code of a placed symbol looks up that symbol. */
  lemma PlacedLookup(t: seq<Code>, root: nat, lens: seq<nat>, ct: CodeType, s: nat, end: nat, v: nat)
    requires s < |lens| && s < MaxCodes(ct) && Placed(t, root, lens, ct, s, end)
    requires StartsWith(lens, s, v)
    ensures Lookup(t, root, v) == Some((Entry(ct, s, EntryBits(root, lens[s])), lens[s]))
  {
    hide Low, Shr, Pow2, StreamCode, Entry;
    var len := lens[s];
    LowBound(v, root);
    if len <= root {
      LowShr(v, len, root - len);
    } else {
      LowShr(v, root, len - root);
      var e := t[Low(v, root)];
      SubIndex(v, root, e.op, len);
      var i := Shr(Low(v, root + e.op), root);
      assert i < Pow2(e.op);
      assert SubSlot(t, e.val, i, len - root, Shr(StreamCode(lens, s), root), Entry(ct, s, len - root));
    }
  }

  lemma SubIndex(v: nat, root: nat, op: nat, len: nat)
    requires root <= len <= root + op
    ensures Shr(Low(v, root + op), root) < Pow2(op)
    ensures Low(Shr(Low(v, root + op), root), len - root) == Shr(Low(v, len), root)
  {
    LowShr(v, root, op);
    LowBound(Shr(v, root), op);
    var w := Low(v, root + op);
    LowShr(w, root, len - root);
    LowShr(v, len, root + op - len);
  }

  // ----- writing does not disturb ----------------------------------------------------------

  /** t1 is t0 with `here` written to the slots of an l-bit code c in the table at `at` with 2^curr entries. */
  ghost predicate Filled(t0: seq<Code>, t1: seq<Code>, at: nat, curr: nat, l: nat, c: nat, here: Code) {
    && |t0| == |t1|
    && forall i :: 0 <= i < |t0| ==>
         t1[i] == if at <= i < at + Pow2(curr) && Low(i - at, l) == c then here else t0[i]
  }

  /** A code that is not a prefix of another leaves it no common slot. */
  lemma NoCommonSlot(lens: seq<nat>, s: nat, k: nat, i: nat)
    requires s < |lens| && k < |lens| && s != k && ValidLens(lens) && Prefix(lens)
    requires 0 < lens[s] && 0 < lens[k]
    ensures Low(i, lens[s]) != StreamCode(lens, s) || Low(i, lens[k]) != StreamCode(lens, k)
  {
    if StartsWith(lens, s, i) && StartsWith(lens, k, i) { PrefixFree(lens, s, k, i); }
  }

  /** The same in a second-level table reached through the same root entry. */
  lemma NoCommonSubSlot(lens: seq<nat>, root: nat, s: nat, k: nat, i: nat)
    requires s < |lens| && k < |lens| && s != k && ValidLens(lens) && Prefix(lens)
    requires root < lens[s] && root < lens[k]
    requires Low(StreamCode(lens, s), root) == Low(StreamCode(lens, k), root)
    ensures Low(i, lens[s] - root) != Shr(StreamCode(lens, s), root)
         || Low(i, lens[k] - root) != Shr(StreamCode(lens, k), root)
  {
    hide Low, Shr, Shl, Pow2, StreamCode, Prefix;
    var low := Low(StreamCode(lens, s), root);
    LowBound(StreamCode(lens, s), root);
    var v := Shl(i, root) + low;
    SubStream(lens, root, s, i, v);
    SubStream(lens, root, k, i, v);
    NoCommonSlot(lens, s, k, v);
  }

  lemma SubStream(lens: seq<nat>, root: nat, s: nat, i: nat, v: nat)
    requires s < |lens| && root < lens[s]
    requires v == Shl(i, root) + Low(StreamCode(lens, s), root)
    ensures Low(i, lens[s] - root) == Shr(StreamCode(lens, s), root) ==> Low(v, lens[s]) == StreamCode(lens, s)
  {
    hide Low, Shr, Shl, Pow2, StreamCode, Prefix;
    var h, low, l := StreamCode(lens, s), Low(StreamCode(lens, s), root), lens[s];
    LowBound(h, root);
    Join(i, low, root);
    Split(h, root);
    var w := Low(v, l);
    Split(w, root);
    LowShr(v, root, l - root);
  }

  lemma FillRootKeeps(t0: seq<Code>, t1: seq<Code>, root: nat, lens: seq<nat>, ct: CodeType,
                      s: nat, k: nat, end: nat)
    requires s < |lens| && k < |lens| && s != k && |lens| <= MaxCodes(ct) && ValidLens(lens) && Prefix(lens)
    requires 0 < lens[s] <= lens[k] <= root
    requires Filled(t0, t1, 0, root, lens[k], StreamCode(lens, k), Entry(ct, k, lens[k]))
    requires Placed(t0, root, lens, ct, s, end)
    ensures Placed(t1, root, lens, ct, s, end)
  {
    hide Low, Pow2, StreamCode, Entry, Prefix;
    forall i | 0 <= i < Pow2(root) && Low(i, lens[s]) == StreamCode(lens, s)
      ensures t1[i] == Entry(ct, s, lens[s])
    {
      NoCommonSlot(lens, s, k, i);
      assert i - 0 == i;
    }
  }

  lemma FillRootPlaces(t0: seq<Code>, t1: seq<Code>, root: nat, lens: seq<nat>, ct: CodeType, k: nat, end: nat)
    requires k < |lens| && |lens| <= MaxCodes(ct) && 0 < lens[k] <= root && Pow2(root) <= |t0|
    requires Filled(t0, t1, 0, root, lens[k], StreamCode(lens, k), Entry(ct, k, lens[k]))
    ensures Placed(t1, root, lens, ct, k, end)
  {
    hide Low, Pow2, StreamCode, Entry;
    forall i | 0 <= i < Pow2(root) && Low(i, lens[k]) == StreamCode(lens, k)
      ensures t1[i] == Entry(ct, k, lens[k])
    {
      assert i - 0 == i;
    }
  }

  /** Filling a second-level table keeps what was placed in the root or in other tables. */
  lemma FillSubKeeps(t0: seq<Code>, t1: seq<Code>, root: nat, lens: seq<nat>, ct: CodeType,
                     s: nat, k: nat, at: nat, curr: nat, end: nat)
    requires s < |lens| && k < |lens| && s != k && |lens| <= MaxCodes(ct) && ValidLens(lens) && Prefix(lens)
    requires 0 < lens[s] && root < lens[k] && Pow2(root) <= at
    requires Filled(t0, t1, at, curr, lens[k] - root, Shr(StreamCode(lens, k), root), Entry(ct, k, lens[k] - root))
    requires Placed(t0, root, lens, ct, s, end)
    requires lens[s] > root ==>
               var e := t0[Low(StreamCode(lens, s), root)];
               || e.val + Pow2(e.op) <= at
               || (Low(StreamCode(lens, s), root) == Low(StreamCode(lens, k), root) && e.val == at)
    ensures Placed(t1, root, lens, ct, s, end)
  {
    hide Low, Pow2, Shr, StreamCode, Entry, Prefix;
    LowBound(StreamCode(lens, s), root);
    if lens[s] > root {
      var low := Low(StreamCode(lens, s), root);
      var e := t0[low];
      assert t1[low] == e;
      var l, c, entry := lens[s] - root, Shr(StreamCode(lens, s), root), Entry(ct, s, lens[s] - root);
      forall i | 0 <= i < Pow2(e.op) ensures SubSlot(t1, e.val, i, l, c, entry) {
        assert SubSlot(t0, e.val, i, l, c, entry);
        if e.val == at && low == Low(StreamCode(lens, k), root) { NoCommonSubSlot(lens, root, s, k, i); }
        assert e.val == at ==> e.val + i - at == i;
      }
    }
  }

  lemma FillSubPlaces(t0: seq<Code>, t1: seq<Code>, root: nat, lens: seq<nat>, ct: CodeType,
                      k: nat, at: nat, curr: nat, end: nat)
    requires k < |lens| && |lens| <= MaxCodes(ct) && root < lens[k] && Pow2(root) <= at
    requires Filled(t0, t1, at, curr, lens[k] - root, Shr(StreamCode(lens, k), root), Entry(ct, k, lens[k] - root))
    requires Low(StreamCode(lens, k), root) < |t0|
    requires t0[Low(StreamCode(lens, k), root)] == Code(curr, root, at)
    requires 0 < curr < 16 && lens[k] <= root + curr && at + Pow2(curr) <= end <= |t0|
    ensures Placed(t1, root, lens, ct, k, end)
  {
    hide Low, Pow2, Shr, StreamCode, Entry;
    LowBound(StreamCode(lens, k), root);
    var low := Low(StreamCode(lens, k), root);
    assert t1[low] == t0[low];
    var l, c, entry := lens[k] - root, Shr(StreamCode(lens, k), root), Entry(ct, k, lens[k] - root);
    forall i | 0 <= i < Pow2(curr) ensures SubSlot(t1, at, i, l, c, entry) {
      assert at + i - at == i;
    }
  }

  /** Setting the root entry of a new code's prefix keeps everything placed elsewhere. */
  lemma LinkKeeps(t0: seq<Code>, root: nat, lens: seq<nat>, ct: CodeType, s: nat, k: nat, link: Code, end0: nat, end1: nat)
    requires s < |lens| && k < |lens| && s != k && |lens| <= MaxCodes(ct) && ValidLens(lens) && Prefix(lens)
    requires 0 < lens[s] <= lens[k] && root < lens[k]
    requires Low(StreamCode(lens, k), root) < |t0| && end0 <= end1 <= |t0|
    requires lens[s] > root ==> Low(StreamCode(lens, s), root) != Low(StreamCode(lens, k), root)
    requires Placed(t0, root, lens, ct, s, end0)
    ensures Placed(t0[Low(StreamCode(lens, k), root) := link], root, lens, ct, s, end1)
  {
    hide Low, Pow2, Shr, StreamCode, Entry, Prefix;
    var h := StreamCode(lens, k);
    var low := Low(h, root);
    LowBound(h, root);
    if lens[s] <= root {
      LowShr(h, lens[s], root - lens[s]);
      StreamCodeLow(lens, k);
      NoCommonSlot(lens, s, k, h);
    } else {
      LowBound(StreamCode(lens, s), root);
      var sub := Low(StreamCode(lens, s), root);
      var t1 := t0[low := link];
      var l, c, entry := lens[s] - root, Shr(StreamCode(lens, s), root), Entry(ct, s, lens[s] - root);
      var at := t0[sub].val;
      forall i | 0 <= i < Pow2(t0[sub].op) ensures SubSlot(t1, at, i, l, c, entry) {
        assert SubSlot(t0, at, i, l, c, entry);
      }
    }
  }

  lemma StreamCodeLow(lens: seq<nat>, k: nat)
    requires k < |lens|
    ensures Low(StreamCode(lens, k), lens[k]) == StreamCode(lens, k)
  {
    RevBound(lens[k], CodeOf(lens, k));
    LowSmall(StreamCode(lens, k), lens[k]);
  }
}
