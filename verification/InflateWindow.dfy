/**
  The circular window of deps/zlib/inflate.c against the unbounded history of all
  bytes written.
 */
module InflateWindow {
  import opened Lz77

  function Min(a: nat, b: nat): nat {
    if a < b then a else b
  }

  /** Where the byte k before the write position is. */
  function Back(wnext: nat, k: nat, wsize: nat): int {
    if k <= wnext then wnext - k else wsize + wnext - k
  }

  /** The window holds the last whave bytes of the history, and that is as many as fit. */
  ghost predicate Circular(w: seq<nat>, wnext: nat, whave: nat, history: seq<nat>) {
    && 0 < |w| && wnext < |w| && whave == Min(|history|, |w|)
    && (whave < |w| ==> wnext == whave)
    && forall k :: 1 <= k <= whave ==> Holds(w, wnext, history, k)
  }

  ghost predicate Holds(w: seq<nat>, wnext: nat, history: seq<nat>, k: nat)
    requires 1 <= k <= |w| && k <= |history| && wnext < |w|
  {
    w[Back(wnext, k, |w|)] == history[|history| - k]
  }

  /** All of a large output: the window is its last part. */
  lemma UpdateLarge(w: seq<nat>, history: seq<nat>, out: seq<nat>)
    requires 0 < |w| <= |out| && w == out[|out| - |w|..]
    ensures Circular(w, 0, |w|, history + out)
  {
    var all, n := history + out, |w|;
    forall k | 1 <= k <= n ensures Holds(w, 0, all, k) { assert w[n - k] == out[|out| - k]; }
  }

  /** A small output goes behind the write position and, if it does not fit, on at the start. */
  lemma UpdateSmall(w: seq<nat>, wnext: nat, whave: nat, history: seq<nat>, out: seq<nat>, dist: nat, w1: seq<nat>, wnext1: nat, whave1: nat)
    requires Circular(w, wnext, whave, history) && |out| < |w| == |w1| && dist == Min(|w| - wnext, |out|)
    requires forall i :: 0 <= i < |w| ==>
               w1[i] == if wnext <= i < wnext + dist then out[i - wnext]
                        else if i < |out| - dist then out[dist + i] else w[i]
    requires if |out| > dist then wnext1 == |out| - dist && whave1 == |w|
             else wnext1 == (if wnext + dist == |w| then 0 else wnext + dist) && whave1 == (if whave < |w| then whave + dist else whave)
    ensures Circular(w1, wnext1, whave1, history + out)
  {
    var all, n := history + out, |w|;
    forall k | 1 <= k <= whave1 ensures Holds(w1, wnext1, all, k) {
      if k <= |out| {
        assert all[|all| - k] == out[|out| - k];
      } else {
        assert Holds(w, wnext, history, k - |out|);
      }
    }
  }

  /** updatewindow: the last of the n bytes just written go into the window. */
  method UpdateWindow(window: array<nat>, wnext0: nat, whave0: nat, out: array<nat>, n: nat, ghost history: seq<nat>)
    returns (wnext: nat, whave: nat)
    requires window != out && n <= out.Length && Circular(window[..], wnext0, whave0, history)
    modifies window
    ensures Circular(window[..], wnext, whave, history + out[..n])
  {
    hide Circular;
    CircularSizes(window[..], wnext0, whave0, history);
    var wsize := window.Length;
    ghost var w, o := window[..], out[..n];
    if n >= wsize {
      forall i | 0 <= i < wsize { window[i] := out[n - wsize + i]; }
      assert window[..] == o[n - wsize..];
      UpdateLarge(window[..], history, o);
      assert out[..n] == o;
      return 0, wsize;
    }
    var dist := wsize - wnext0;
    if dist > n { dist := n; }
    forall i | 0 <= i < dist { window[wnext0 + i] := out[i]; }
    var copy := n - dist;
    if copy != 0 {
      forall i | 0 <= i < copy { window[i] := out[dist + i]; }
      wnext, whave := copy, wsize;
    } else {
      wnext := wnext0 + dist;
      if wnext == wsize { wnext := 0; }
      whave := if whave0 < wsize then whave0 + dist else whave0;
    }
    UpdateSmall(w, wnext0, whave0, history, o, dist, window[..], wnext, whave);
    assert out[..n] == o;
  }

  lemma CircularSizes(w: seq<nat>, wnext: nat, whave: nat, history: seq<nat>)
    requires Circular(w, wnext, whave, history)
    ensures 0 < |w| && wnext < |w| && whave == Min(|history|, |w|) && (whave < |w| ==> wnext == whave)
  {
  }

  // ----- copies -------------------------------------------------------------------------------

  lemma {:induction false} CopyOne(h: seq<nat>, distance: nat, n: nat)
    requires 1 <= distance <= |h|
    ensures var c := CopyFrom(h, distance, n);
            CopyFrom(h, distance, n + 1) == c + [c[|c| - distance]]
    decreases n
  {
    if n > 0 { CopyOne(h + [h[|h| - distance]], distance, n - 1); }
  }

  /** A copy in two parts. */
  lemma {:induction false} CopySplit(h: seq<nat>, distance: nat, a: nat, b: nat)
    requires 1 <= distance <= |h|
    ensures CopyFrom(CopyFrom(h, distance, a), distance, b) == CopyFrom(h, distance, a + b)
    decreases a
  {
    if a > 0 { CopySplit(h + [h[|h| - distance]], distance, a - 1, b); }
  }

  /** Where in the window the byte `copy` before the end of its contents is. */
  function From(wnext: nat, wsize: nat, copy: nat): int {
    if copy > wnext then wsize - (copy - wnext) else wnext - copy
  }

  /** How many bytes can be taken there in one go. */
  function Run(wnext: nat, copy: nat): nat {
    if copy > wnext then copy - wnext else copy
  }

  /** Bytes taken from the window are the bytes at that distance in the history. */
  lemma {:induction false} WindowCopy(w: seq<nat>, wnext: nat, whave: nat, before: seq<nat>, o: seq<nat>, offset: nat, from: nat, n: nat)
    requires Circular(w, wnext, whave, before) && |o| < offset <= |o| + whave
    requires from == From(wnext, |w|, offset - |o|) && n <= Run(wnext, offset - |o|)
    ensures from + n <= |w|
    ensures CopyFrom(before + o, offset, n) == before + (o + w[from..from + n])
    decreases n
  {
    hide CopyFrom, Circular;
    WindowByte(w, wnext, whave, before, |o|, offset, from, n);
    if n == 0 {
      assert o + w[from..from] == o;
      CopyNothing(before + o, offset);
    } else {
      var k := n - 1;
      WindowCopy(w, wnext, whave, before, o, offset, from, k);
      CopyOne(before + o, offset, k);
      var c := before + (o + w[from..from + k]);
      assert |c| - offset == |before| - (offset - |o| - k);
      assert c + [w[from + k]] == before + (o + w[from..from + n]);
    }
  }

  lemma CopyNothing(h: seq<nat>, distance: nat)
    ensures CopyFrom(h, distance, 0) == h
  {
  }

  lemma WindowByte(w: seq<nat>, wnext: nat, whave: nat, before: seq<nat>, put: nat, offset: nat, from: nat, n: nat)
    requires Circular(w, wnext, whave, before) && put < offset <= put + whave
    requires from == From(wnext, |w|, offset - put) && n <= Run(wnext, offset - put)
    ensures from + n <= |w| && offset <= put + |before|
    ensures n > 0 ==> w[from + n - 1] == before[|before| - (offset - put - (n - 1))]
  {
    if n > 0 { assert Holds(w, wnext, before, offset - put - (n - 1)); }
  }

  /** Copy n bytes from the window to the output. */
  method CopyWindow(window: array<nat>, from0: nat, out: array<nat>, put0: nat, n: nat)
    requires window != out && from0 + n <= window.Length && put0 + n <= out.Length
    modifies out
    ensures out[..put0 + n] == old(out[..put0]) + window[from0..from0 + n]
  {
    var i := 0;
    while i < n
      invariant 0 <= i <= n && out[..put0 + i] == old(out[..put0]) + window[from0..from0 + i]
    {
      out[put0 + i] := window[from0 + i];
      assert out[..put0 + i + 1] == out[..put0 + i] + [window[from0 + i]];
      assert window[from0..from0 + i] + [window[from0 + i]] == window[from0..from0 + i + 1];
      i := i + 1;
    }
  }

  /** Copy n bytes of the output from `offset` back; source and target may overlap. */
  method CopyOutput(out: array<nat>, put0: nat, offset: nat, n: nat, ghost before: seq<nat>)
    requires 1 <= offset <= put0 && put0 + n <= out.Length
    modifies out
    ensures before + out[..put0 + n] == CopyFrom(before + old(out[..put0]), offset, n)
  {
    ghost var h := before + out[..put0];
    var from := put0 - offset;
    var i := 0;
    while i < n
      invariant 0 <= i <= n && before + out[..put0 + i] == CopyFrom(h, offset, i)
    {
      CopyOne(h, offset, i);
      ghost var c := before + out[..put0 + i];
      assert c[|c| - offset] == out[from + i];
      out[put0 + i] := out[from + i];
      assert before + out[..put0 + i + 1] == c + [out[put0 + i]];
      i := i + 1;
    }
  }

  // ----- the copies of inflate_fast ----------------------------------------------------------------

  /** So far k bytes at the distance were appended to h. */
  ghost predicate SoFar(before: seq<nat>, out: seq<nat>, put: nat, h: seq<nat>, distance: nat, k: nat) {
    put <= |out| && before + out[..put] == CopyFrom(h, distance, k)
  }

  /** One byte from the output. */
  method OneByte(out: array<nat>, put: nat, distance: nat, ghost before: seq<nat>, ghost h: seq<nat>, ghost k: nat)
    requires 1 <= distance <= put < out.Length && distance <= |h| && SoFar(before, out[..], put, h, distance, k)
    modifies out
    ensures SoFar(before, out[..], put + 1, h, distance, k + 1)
  {
    hide CopyFrom;
    CopyOne(h, distance, k);
    ghost var c := before + out[..put];
    assert c[|c| - distance] == out[put - distance];
    out[put] := out[put - distance];
    assert before + out[..put + 1] == c + [out[put]];
  }

  /** The rest of a match from the output, three bytes at a time. */
  method ThreesFromOutput(out: array<nat>, put0: nat, distance: nat, len0: nat, ghost before: seq<nat>, ghost h: seq<nat>, ghost k: nat)
    requires 1 <= distance <= put0 && distance <= |h| && put0 + len0 <= out.Length && SoFar(before, out[..], put0, h, distance, k)
    modifies out
    ensures SoFar(before, out[..], put0 + len0, h, distance, k + len0)
  {
    hide SoFar;
    var put, len := put0, len0;
    while len > 2
      invariant 0 <= len <= len0 && put + len == put0 + len0
      invariant SoFar(before, out[..], put, h, distance, k + (len0 - len))
      decreases len
    {
      ghost var d := k + (len0 - len);
      OneByte(out, put, distance, before, h, d);
      OneByte(out, put + 1, distance, before, h, d + 1);
      OneByte(out, put + 2, distance, before, h, d + 2);
      put := put + 3;
      len := len - 3;
    }
    if len != 0 {
      ghost var d := k + (len0 - len);
      OneByte(out, put, distance, before, h, d);
      if len > 1 { OneByte(out, put + 1, distance, before, h, d + 1); }
    }
  }

  /** The rest of a match from the window, three bytes at a time. */
  method ThreesFromWindow(window: array<nat>, from0: nat, out: array<nat>, put0: nat, len0: nat)
    requires window != out && from0 + len0 <= window.Length && put0 + len0 <= out.Length
    modifies out
    ensures out[..put0 + len0] == old(out[..put0]) + window[from0..from0 + len0]
  {
    var from, put, len := from0, put0, len0;
    while len > 2
      invariant 0 <= len <= len0 && put + len == put0 + len0 && from + len == from0 + len0
      invariant forall i :: 0 <= i < put0 ==> out[i] == old(out[i])
      invariant forall i :: put0 <= i < put ==> out[i] == window[from0 + (i - put0)]
      decreases len
    {
      out[put] := window[from];
      out[put + 1] := window[from + 1];
      out[put + 2] := window[from + 2];
      from, put, len := from + 3, put + 3, len - 3;
    }
    if len != 0 {
      out[put] := window[from];
      if len > 1 { out[put + 1] := window[from + 1]; }
    }
  }

  /** A piece of a match from the window. */
  method Piece(window: array<nat>, wnext: nat, whave: nat, from: nat, out: array<nat>, put: nat, distance: nat, n: nat,
               ghost before: seq<nat>, ghost h: seq<nat>, ghost k: nat)
    requires window != out && Circular(window[..], wnext, whave, before) && put < distance <= put + whave
    requires from == From(wnext, window.Length, distance - put) && n <= Run(wnext, distance - put) && put + n <= out.Length
    requires distance <= |h| && SoFar(before, out[..], put, h, distance, k)
    modifies out
    ensures SoFar(before, out[..], put + n, h, distance, k + n)
  {
    hide Circular, CopyFrom;
    ghost var o, w := out[..put], window[..];
    WindowCopy(w, wnext, whave, before, o, distance, from, n);
    CopySplit(h, distance, k, n);
    CopyWindow(window, from, out, put, n);
    assert window[from..from + n] == w[from..from + n];
  }

  /** The last piece of a match, all of it from the window. */
  method LastPiece(window: array<nat>, wnext: nat, whave: nat, from: nat, out: array<nat>, put: nat, distance: nat, n: nat,
                   ghost before: seq<nat>, ghost h: seq<nat>, ghost k: nat)
    requires window != out && Circular(window[..], wnext, whave, before) && put < distance <= put + whave
    requires from == From(wnext, window.Length, distance - put) && n <= Run(wnext, distance - put) && put + n <= out.Length
    requires distance <= |h| && SoFar(before, out[..], put, h, distance, k)
    modifies out
    ensures SoFar(before, out[..], put + n, h, distance, k + n)
  {
    hide Circular, CopyFrom;
    ghost var o, w := out[..put], window[..];
    WindowCopy(w, wnext, whave, before, o, distance, from, n);
    CopySplit(h, distance, k, n);
    ThreesFromWindow(window, from, out, put, n);
    assert window[from..from + n] == w[from..from + n];
  }

  /**
    The match copy of inflate_fast: from the window, in up to two pieces, then
    from the output; or all from the output.
   */
  method FastCopy(window: array<nat>, wnext: nat, whave: nat, out: array<nat>, put0: nat, distance: nat, len0: nat, ghost before: seq<nat>)
    requires window != out && Circular(window[..], wnext, whave, before)
    requires 1 <= distance && (distance > put0 ==> distance - put0 <= whave) && put0 + len0 <= out.Length
    modifies out
    ensures before + out[..put0 + len0] == CopyFrom(before + old(out[..put0]), distance, len0)
  {
    hide Circular, SoFar, CopyFrom;
    CircularSizes(window[..], wnext, whave, before);
    ghost var h := before + out[..put0];
    StartSoFar(before, out[..], put0, distance);
    var put, len := put0, len0;
    if distance > put {
      var op := distance - put;
      var wsize := window.Length;
      var from;
      var inWindow := true;
      if wnext == 0 {
        from := wsize - op;
        if op < len {
          Piece(window, wnext, whave, from, out, put, distance, op, before, h, 0);
          put, len := put + op, len - op;
          inWindow := false;
        }
      } else if wnext < op {
        from := wsize + wnext - op;
        op := op - wnext;
        if op < len {
          Piece(window, wnext, whave, from, out, put, distance, op, before, h, 0);
          put, len := put + op, len - op;
          from := 0;
          if wnext < len {
            op := wnext;
            Piece(window, wnext, whave, from, out, put, distance, op, before, h, put - put0);
            put, len := put + op, len - op;
            inWindow := false;
          }
        }
      } else {
        from := wnext - op;
        if op < len {
          Piece(window, wnext, whave, from, out, put, distance, op, before, h, 0);
          put, len := put + op, len - op;
          inWindow := false;
        }
      }
      if inWindow {
        LastPiece(window, wnext, whave, from, out, put, distance, len, before, h, put - put0);
      } else {
        ThreesFromOutput(out, put, distance, len, before, h, put - put0);
      }
    } else {
      ThreesFromOutput(out, put, distance, len, before, h, 0);
    }
    EndSoFar(before, out[..], put0 + len0, h, distance, len0);
    assert out[..][..put0 + len0] == out[..put0 + len0];
  }

  lemma StartSoFar(before: seq<nat>, out: seq<nat>, put: nat, distance: nat)
    requires put <= |out|
    ensures SoFar(before, out, put, before + out[..put], distance, 0)
  {
  }

  lemma EndSoFar(before: seq<nat>, out: seq<nat>, put: nat, h: seq<nat>, distance: nat, k: nat)
    requires SoFar(before, out, put, h, distance, k)
    ensures put <= |out| && before + out[..put] == CopyFrom(h, distance, k)
  {
  }
}
