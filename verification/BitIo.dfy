/**
  Bits on their way: the 16-bit buffer of send_bits in deps/zlib/trees.c, and the
  accumulator of NEEDBITS, BITS and DROPBITS in deps/zlib/inflate.c.  What
  travels is a list of fields, each a value and a width, packed from the low bit
  of each byte up as section 3.1.1 of RFC 1951 says.
 */
module BitIo {
  import opened Bits

  datatype Field = Field(value: nat, width: nat)

  predicate FieldFits(f: Field) {
    f.value < Pow2(f.width)
  }

  ghost predicate AllFit(fields: seq<Field>) {
    forall i :: 0 <= i < |fields| ==> FieldFits(fields[i])
  }

  /** The fields as one number, the first in the lowest bits. */
  function Value(fields: seq<Field>): nat {
    if fields == [] then 0 else fields[0].value + Shl(Value(fields[1..]), fields[0].width)
  }

  function Width(fields: seq<Field>): nat {
    if fields == [] then 0 else fields[0].width + Width(fields[1..])
  }

  lemma {:induction false} ValueAppend(a: seq<Field>, b: seq<Field>)
    ensures Value(a + b) == Value(a) + Shl(Value(b), Width(a)) && Width(a + b) == Width(a) + Width(b)
    decreases |a|
  {
    if a == [] {
      assert a + b == b;
    } else {
      hide Shl;
      assert (a + b)[1..] == a[1..] + b;
      ValueAppend(a[1..], b);
      ShlAdd(Value(a[1..]), Shl(Value(b), Width(a[1..])), a[0].width);
      ShlShl(Value(b), Width(a[1..]), a[0].width);
    }
  }

  lemma ValueOne(f: Field)
    ensures Value([f]) == f.value && Width([f]) == f.width
  {
    assert [f][1..] == [];
    ShlOne(f.width);
  }

  lemma {:induction false} ValueFits(fields: seq<Field>)
    requires AllFit(fields)
    ensures Value(fields) < Pow2(Width(fields))
    decreases |fields|
  {
    if fields != [] {
      hide Shl, Pow2;
      ValueFits(fields[1..]);
      assert FieldFits(fields[0]);
      var w := fields[0].width;
      ShlMono(Value(fields[1..]), Pow2(Width(fields[1..])), w);
      ShlPow2(Width(fields[1..]), w);
    } else {
      assert Pow2(0) == 1;
    }
  }

  /** The first field in a stream that goes on with something else. */
  lemma FirstField(f: Field, rest: nat)
    requires FieldFits(f)
    ensures Low(f.value + Shl(rest, f.width), f.width) == f.value
    ensures Shr(f.value + Shl(rest, f.width), f.width) == rest
  {
    Join(rest, f.value, f.width);
  }

  // ----- bytes ---------------------------------------------------------------------------

  function OfBytes(bytes: seq<nat>): (fields: seq<Field>)
    ensures |fields| == |bytes|
  {
    seq(|bytes|, i requires 0 <= i < |bytes| => Field(bytes[i], 8))
  }

  /** A list of bytes as one number, little-endian. */
  function Number(bytes: seq<nat>): nat {
    Value(OfBytes(bytes))
  }

  lemma {:induction false} WidthOfBytes(bytes: seq<nat>)
    ensures Width(OfBytes(bytes)) == 8 * |bytes|
    decreases |bytes|
  {
    if bytes != [] {
      assert OfBytes(bytes)[1..] == OfBytes(bytes[1..]);
      WidthOfBytes(bytes[1..]);
    }
  }

  lemma OfBytesAppend(a: seq<nat>, b: seq<nat>)
    ensures OfBytes(a + b) == OfBytes(a) + OfBytes(b)
  {
  }

  lemma NumberAppend(a: seq<nat>, b: seq<nat>)
    ensures Number(a + b) == Number(a) + Shl(Number(b), 8 * |a|)
  {
    hide Value, Width, Shl, OfBytes;
    OfBytesAppend(a, b);
    ValueAppend(OfBytes(a), OfBytes(b));
    WidthOfBytes(a);
  }

  lemma NumberOne(byte: nat)
    ensures Number([byte]) == byte
  {
    assert OfBytes([byte]) == [Field(byte, 8)];
    ValueOne(Field(byte, 8));
  }

  lemma NumberFirst(bytes: seq<nat>)
    requires bytes != []
    ensures Number(bytes) == bytes[0] + Shl(Number(bytes[1..]), 8)
  {
    assert OfBytes(bytes)[1..] == OfBytes(bytes[1..]);
  }

  // ----- the writer ------------------------------------------------------------------------

  const BUF_SIZE: nat := 16

  /** What was sent is what is pending followed by what is in the buffer; above bi_valid the buffer is zero. */
  ghost predicate Holds(pending: seq<nat>, buf: nat, valid: nat, sent: seq<Field>) {
    && valid <= BUF_SIZE && buf < Pow2(valid)
    && Value(sent) == Number(pending) + Shl(buf, 8 * |pending|)
    && Width(sent) == 8 * |pending| + valid
  }

  /** Bytes go out at the low end. */
  lemma PutBytes(pending: seq<nat>, out: seq<nat>, y: nat)
    requires Number(out) == Low(y, 8 * |out|)
    ensures Number(pending + out) + Shl(Shr(y, 8 * |out|), 8 * |pending + out|) == Number(pending) + Shl(y, 8 * |pending|)
  {
    hide Shl, Shr, Low;
    var n, k := 8 * |pending|, 8 * |out|;
    NumberAppend(pending, out);
    Split(y, k);
    ShlShl(Shr(y, k), k, n);
    ShlAdd(Shl(Shr(y, k), k), Low(y, k), n);
  }

  lemma ShortBytes(x: nat)
    requires x < 0x1_0000
    ensures Number([x % 256, x / 256]) == x
  {
    NumberFirst([x % 256, x / 256]);
    NumberOne(x / 256);
    assert [x % 256, x / 256][1..] == [x / 256];
    Split(x, 8);
    Shr8(x);
  }

  lemma SendFits(pending: seq<nat>, buf: nat, valid: nat, sent: seq<Field>, f: Field, y: nat)
    requires Holds(pending, buf, valid, sent) && FieldFits(f) && y == buf + Shl(f.value, valid)
    ensures Value(sent + [f]) == Number(pending) + Shl(y, 8 * |pending|)
    ensures Width(sent + [f]) == 8 * |pending| + valid + f.width
    ensures y < Pow2(valid + f.width)
  {
    hide Shl, Pow2, Value, Width;
    ValueAppend(sent, [f]);
    ValueOne(f);
    var n := 8 * |pending|;
    ShlAdd(buf, Shl(f.value, valid), n);
    ShlShl(f.value, valid, n);
    ShlMono(f.value, Pow2(f.width), valid);
    ShlPow2(f.width, valid);
  }

  ghost predicate Bytes(s: seq<nat>) {
    forall i :: 0 <= i < |s| ==> s[i] < 256
  }

  /** Not enough room: a full buffer goes out, the rest of the value stays. */
  lemma SendOver(pending: seq<nat>, buf: nat, valid: nat, sent: seq<Field>, f: Field, full: nat, rest: nat)
    requires Holds(pending, buf, valid, sent) && FieldFits(f) && f.width <= BUF_SIZE && valid + f.width > BUF_SIZE
    requires full == Low(Or(buf, Shl(f.value, valid)), BUF_SIZE) && rest == Shr(f.value, BUF_SIZE - valid)
    ensures full < 0x1_0000 && Holds(pending + [full % 256, full / 256], rest, valid + f.width - BUF_SIZE, sent + [f])
  {
    hide Shl, Shr, Low, Pow2, Value, Width;
    var y := buf + Shl(f.value, valid);
    OrDisjoint(f.value, buf, valid);
    SendFits(pending, buf, valid, sent, f, y);
    LowBound(y, BUF_SIZE);
    Pow2Bytes();
    ShortBytes(full);
    PutBytes(pending, [full % 256, full / 256], y);
    Join(f.value, buf, valid);
    ShrShr(y, valid, BUF_SIZE - valid);
    ShrBound(y, valid + f.width, BUF_SIZE);
  }

  lemma ShrBound(x: nat, n: nat, k: nat)
    requires x < Pow2(n) && k <= n
    ensures Shr(x, k) < Pow2(n - k)
  {
    hide Shr, Pow2, Shl;
    Split(x, k);
    if Shr(x, k) >= Pow2(n - k) {
      ShlMono(Pow2(n - k), Shr(x, k), k);
      ShlPow2(n - k, k);
    }
  }

  lemma SendRoom(pending: seq<nat>, buf: nat, valid: nat, sent: seq<Field>, f: Field)
    requires Holds(pending, buf, valid, sent) && FieldFits(f) && valid + f.width <= BUF_SIZE
    ensures Holds(pending, Or(buf, Shl(f.value, valid)), valid + f.width, sent + [f])
  {
    hide Shl, Pow2, Value, Width;
    OrDisjoint(f.value, buf, valid);
    SendFits(pending, buf, valid, sent, f, buf + Shl(f.value, valid));
  }

  /** Bytes leave the buffer. */
  lemma FlushBytes(pending: seq<nat>, buf: nat, valid: nat, sent: seq<Field>, out: seq<nat>)
    requires Holds(pending, buf, valid, sent) && 8 * |out| <= valid && Number(out) == Low(buf, 8 * |out|)
    ensures Holds(pending + out, Shr(buf, 8 * |out|), valid - 8 * |out|, sent)
  {
    hide Shl, Shr, Low, Pow2, Value, Width;
    PutBytes(pending, out, buf);
    ShrBound(buf, valid, 8 * |out|);
  }

  /** Zeros fill the last byte. */
  lemma PadBits(pending: seq<nat>, buf: nat, valid: nat, sent: seq<Field>, pad: nat)
    requires Holds(pending, buf, valid, sent) && valid + pad <= BUF_SIZE
    ensures Holds(pending, buf, valid + pad, Padded(sent, pad))
  {
    hide Shl, Value, Width;
    ShlOne(valid);
    SendFits(pending, buf, valid, sent, Field(0, pad), buf);
  }

  function Padded(sent: seq<Field>, pad: nat): seq<Field> {
    if pad == 0 then sent else sent + [Field(0, pad)]
  }

  class BitWriter {
    var pending: seq<nat>
    var buf: nat
    var valid: nat
    ghost var sent: seq<Field>

    ghost predicate Valid()
      reads this
    {
      Holds(pending, buf, valid, sent) && AllFit(sent) && Bytes(pending)
    }

    constructor ()
      ensures Valid() && sent == [] && pending == [] && valid == 0
    {
      pending, buf, valid, sent := [], 0, 0, [];
      ShlOne(0);
    }

    /** send_bits */
    method SendBits(value: nat, length: nat)
      requires Valid() && length <= BUF_SIZE && value < Pow2(length)
      modifies this
      ensures Valid() && sent == old(sent) + [Field(value, length)]
    {
      hide Holds, Or, Shl, Shr, Low, Pow2;
      ghost var f := Field(value, length);
      HoldsValid(pending, buf, valid, sent);
      if valid > BUF_SIZE - length {
        SendOver(pending, buf, valid, sent, f, Low(Or(buf, Shl(value, valid)), BUF_SIZE), Shr(value, BUF_SIZE - valid));
        buf := Low(Or(buf, Shl(value, valid)), BUF_SIZE);
        pending := pending + [buf % 256, buf / 256];
        buf := Shr(value, BUF_SIZE - valid);
        valid := valid + length - BUF_SIZE;
      } else {
        SendRoom(pending, buf, valid, sent, f);
        buf := Or(buf, Shl(value, valid));
        valid := valid + length;
      }
      sent := sent + [f];
    }

    /** bi_flush */
    method BiFlush()
      requires Valid()
      modifies this
      ensures Valid() && sent == old(sent) && valid <= 7
    {
      hide Holds, Shr, Low, Pow2;
      HoldsValid(pending, buf, valid, sent);
      LowAll(buf, valid);
      if valid == 16 {
        ShortBytes(buf);
        FlushBytes(pending, buf, valid, sent, [buf % 256, buf / 256]);
        pending := pending + [buf % 256, buf / 256];
        buf, valid := 0, 0;
      } else if valid >= 8 {
        Shr8(buf);
        NumberOne(buf % 256);
        FlushBytes(pending, buf, valid, sent, [buf % 256]);
        pending := pending + [buf % 256];
        buf, valid := buf / 256, valid - 8;
      }
    }

    /** bi_windup: zeros up to the next byte boundary. */
    method BiWindup()
      requires Valid()
      modifies this
      ensures Valid() && valid == 0 && Width(sent) == 8 * |pending|
      ensures exists pad: nat :: pad < 8 && sent == Padded(old(sent), pad)
    {
      hide Shr, Low, Pow2, Shl, Value, Width;
      ghost var pad: nat := if valid > 8 then 16 - valid else if valid > 0 then 8 - valid else 0;
      PadBits(pending, buf, valid, sent, pad);
      PowZero();
      if valid > 8 {
        LowAll(buf, valid + pad);
        ShortBytes(buf);
        FlushBytes(pending, buf, valid + pad, Padded(sent, pad), [buf % 256, buf / 256]);
        pending := pending + [buf % 256, buf / 256];
      } else if valid > 0 {
        LowAll(buf, valid + pad);
        Shr8(buf);
        NumberOne(buf % 256);
        FlushBytes(pending, buf, valid + pad, Padded(sent, pad), [buf % 256]);
        pending := pending + [buf % 256];
      }
      sent := Padded(sent, pad);
      buf := 0;
      valid := 0;
    }
  }

  lemma HoldsValid(pending: seq<nat>, buf: nat, valid: nat, sent: seq<Field>)
    requires Holds(pending, buf, valid, sent)
    ensures valid <= BUF_SIZE && buf < Pow2(valid)
  {
  }

  lemma LowAll(x: nat, n: nat)
    requires x < Pow2(n) && n <= 16
    ensures Low(x, 16) == x && x < 0x1_0000 && Shr(x, 16) == 0
    ensures n <= 8 ==> Low(x, 8) == x && x < 256 && Shr(x, 8) == 0
  {
    hide Pow2, Low, Shr;
    Pow2Bytes();
    Pow2Mono(n, 16);
    LowSmall(x, 16);
    if n <= 8 {
      Pow2Mono(n, 8);
      LowSmall(x, 8);
    }
  }

  // ----- the reader ---------------------------------------------------------------------------

  /** The bits still to come: those in the accumulator, then those of the bytes not yet pulled. */
  function Rest(hold: nat, bits: nat, source: seq<nat>): nat {
    hold + Shl(Number(source), bits)
  }

  /** PULLBYTE moves the next byte behind the bits in the accumulator. */
  lemma PullByte(hold: nat, bits: nat, source: seq<nat>)
    requires source != [] && hold < Pow2(bits) && Bytes(source)
    ensures Rest(hold + Shl(source[0], bits), bits + 8, source[1..]) == Rest(hold, bits, source)
    ensures hold + Shl(source[0], bits) < Pow2(bits + 8)
  {
    hide Shl, Pow2;
    NumberFirst(source);
    ShlAdd(source[0], Shl(Number(source[1..]), 8), bits);
    ShlShl(Number(source[1..]), 8, bits);
    Pow2Bytes();
    ShlMono(source[0], Pow2(8), bits);
    ShlPow2(8, bits);
  }

  /** BITS: the accumulator's low bits are the stream's. */
  lemma HoldBits(hold: nat, bits: nat, source: seq<nat>, n: nat)
    requires hold < Pow2(bits) && n <= bits
    ensures Low(hold, n) == Low(Rest(hold, bits, source), n)
  {
    hide Low, Shl, Pow2;
    var v := Rest(hold, bits, source);
    Join(Number(source), hold, bits);
    LowShr(v, n, bits - n);
  }

  /** DROPBITS */
  lemma DropBits(hold: nat, bits: nat, source: seq<nat>, n: nat)
    requires hold < Pow2(bits) && n <= bits
    ensures Rest(Shr(hold, n), bits - n, source) == Shr(Rest(hold, bits, source), n)
    ensures Shr(hold, n) < Pow2(bits - n)
  {
    hide Low, Shl, Shr, Pow2;
    ShrBound(hold, bits, n);
    var x := Number(source);
    Split(hold, n);
    LowBound(hold, n);
    ShlShl(x, bits - n, n);
    ShlAdd(Shr(hold, n), Shl(x, bits - n), n);
    Join(Shr(hold, n) + Shl(x, bits - n), Low(hold, n), n);
  }

  lemma NumberBound(bytes: seq<nat>)
    requires Bytes(bytes)
    ensures Number(bytes) < Pow2(8 * |bytes|)
  {
    hide Pow2, Value;
    Pow2Bytes();
    forall i | 0 <= i < |bytes| ensures FieldFits(OfBytes(bytes)[i]) { assert bytes[i] < 256; }
    ValueFits(OfBytes(bytes));
    WidthOfBytes(bytes);
  }

  /** Dropping whole bytes. */
  lemma DropBytes(bytes: seq<nat>, k: nat)
    requires Bytes(bytes) && k <= |bytes|
    ensures Shr(Number(bytes), 8 * k) == Number(bytes[k..])
  {
    hide Pow2, Number, Shl, Shr;
    assert bytes == bytes[..k] + bytes[k..];
    NumberAppend(bytes[..k], bytes[k..]);
    NumberBound(bytes[..k]);
    Join(Number(bytes[k..]), Number(bytes[..k]), 8 * k);
  }

  /**
    Unused bytes are given back: if the stream was at v0 with b0 bits held and
    `all` unread, and c bits were dropped and `read` bytes pulled since, then all
    whole bytes that are held may be put back, provided fewer than eight of the
    b0 bits are still there; with b0 < 8 that is always so.
   */
  lemma PutBack(hold0: nat, b0: nat, all: seq<nat>, hold: nat, bits: nat, read: nat, c: nat)
    requires Bytes(all) && hold0 < Pow2(b0) && hold < Pow2(bits) && read <= |all|
    requires c + bits == b0 + 8 * read && Rest(hold, bits, all[read..]) == Shr(Rest(hold0, b0, all), c)
    requires b0 < c + 8
    ensures bits / 8 <= read
    ensures Rest(Low(hold, bits % 8), bits % 8, all[read - bits / 8..]) == Rest(hold, bits, all[read..])
    ensures Low(hold, bits % 8) < Pow2(bits % 8)
  {
    hide Pow2, Number, Shl, Shr, Low;
    var b1, k, v := bits % 8, read - bits / 8, Rest(hold, bits, all[read..]);
    LowBound(hold, b1);
    HoldBits(hold, bits, all[read..], b1);
    Split(v, b1);
    ShrShr(Rest(hold0, b0, all), c, b1);
    ShrShr(Rest(hold0, b0, all), b0, 8 * k);
    Join(Number(all), hold0, b0);
    DropBytes(all, k);
  }

  /**
    Reading byte by byte leaves fewer than eight bits, and at each place of the
    stream there is one state that does: whoever gets there, gets to the same one.
   */
  lemma OneState(all: seq<nat>, hold: nat, bits: nat, read: nat, hold': nat, bits': nat, read': nat)
    requires read <= |all| && hold < Pow2(bits) && bits < 8
    requires read' <= |all| && hold' < Pow2(bits') && bits' < 8
    requires 8 * read - bits == 8 * read' - bits'
    requires Rest(hold, bits, all[read..]) == Rest(hold', bits', all[read'..])
    ensures hold == hold' && bits == bits' && read == read'
  {
  }

  /** Reading fields of the given widths from a stream. */
  function Taken(v: nat, widths: seq<nat>): (values: seq<nat>)
    ensures |values| == |widths|
    decreases |widths|
  {
    if widths == [] then [] else [Low(v, widths[0])] + Taken(Shr(v, widths[0]), widths[1..])
  }

  function Widths(fields: seq<Field>): (widths: seq<nat>)
    ensures |widths| == |fields|
  {
    seq(|fields|, i requires 0 <= i < |fields| => fields[i].width)
  }

  function Values(fields: seq<Field>): (values: seq<nat>)
    ensures |values| == |fields|
  {
    seq(|fields|, i requires 0 <= i < |fields| => fields[i].value)
  }

  /** What was sent is what is taken, whatever comes after it. */
  lemma {:induction false} TakenSent(fields: seq<Field>, after: nat)
    requires AllFit(fields)
    ensures Taken(Value(fields) + Shl(after, Width(fields)), Widths(fields)) == Values(fields)
    decreases |fields|
  {
    if fields != [] {
      hide Low, Shr, Shl;
      var f, rest := fields[0], fields[1..];
      assert FieldFits(f);
      TakenSent(rest, after);
      ShlAdd(Value(rest), Shl(after, Width(rest)), f.width);
      ShlShl(after, Width(rest), f.width);
      FirstField(f, Value(rest) + Shl(after, Width(rest)));
      assert Widths(fields)[1..] == Widths(rest);
      assert Values(fields) == [f.value] + Values(rest);
    }
  }

  function Sum(widths: seq<nat>): nat {
    if widths == [] then 0 else widths[0] + Sum(widths[1..])
  }

  lemma {:induction false} SumWidths(fields: seq<Field>)
    ensures Sum(Widths(fields)) == Width(fields)
    decreases |fields|
  {
    if fields != [] {
      assert Widths(fields)[1..] == Widths(fields[1..]);
      SumWidths(fields[1..]);
    }
  }

  lemma TakenMore(v: nat, widths: seq<nat>, i: nat, values: seq<nat>, u: nat)
    requires i < |widths| && Taken(v, widths) == values + Taken(u, widths[i..])
    ensures Taken(v, widths) == values + [Low(u, widths[i])] + Taken(Shr(u, widths[i]), widths[i + 1..])
  {
    assert widths[i..][1..] == widths[i + 1..];
  }

  /** Read fields as the states of inflate do: NEEDBITS, BITS, DROPBITS; false if there is not enough input. */
  method ReadFields(bytes: seq<nat>, widths: seq<nat>) returns (ok: bool, values: seq<nat>)
    requires Bytes(bytes) && forall i :: 0 <= i < |widths| ==> widths[i] <= BUF_SIZE
    ensures ok <==> Sum(widths) <= 8 * |bytes|
    ensures ok ==> values == Taken(Number(bytes), widths)
  {
    hide Low, Shl, Shr, Pow2, Taken, Number;
    var next: nat, hold: nat, bits: nat := 0, 0, 0;
    values := [];
    var i := 0;
    assert widths[0..] == widths && bytes[0..] == bytes;
    StartReading(bytes);
    while i < |widths|
      invariant 0 <= i <= |widths| && 0 <= next <= |bytes| && hold < Pow2(bits) && bits < 8
      invariant Taken(Number(bytes), widths) == values + Taken(Rest(hold, bits, bytes[next..]), widths[i..])
      invariant Sum(widths) - Sum(widths[i..]) == 8 * next - bits
    {
      var n := widths[i];
      assert widths[i..][1..] == widths[i + 1..];
      while bits < n
        invariant 0 <= next <= |bytes| && hold < Pow2(bits) && bits < BUF_SIZE + 8
        invariant bits < 8 || bits < n + 8
        invariant Taken(Number(bytes), widths) == values + Taken(Rest(hold, bits, bytes[next..]), widths[i..])
        invariant Sum(widths) - Sum(widths[i..]) == 8 * next - bits
        decreases |bytes| - next
      {
        if next == |bytes| { return false, values; }
        PullByte(hold, bits, bytes[next..]);
        assert bytes[next..][1..] == bytes[next + 1..];
        hold := hold + Shl(bytes[next], bits);
        bits := bits + 8;
        next := next + 1;
      }
      TakenMore(Number(bytes), widths, i, values, Rest(hold, bits, bytes[next..]));
      HoldBits(hold, bits, bytes[next..], n);
      DropBits(hold, bits, bytes[next..], n);
      values := values + [Low(hold, n)];
      hold := Shr(hold, n);
      bits := bits - n;
      i := i + 1;
    }
    EndReading(Rest(hold, bits, bytes[next..]), widths, i);
    ok := true;
  }

  lemma StartReading(bytes: seq<nat>)
    ensures Rest(0, 0, bytes) == Number(bytes) && 0 < Pow2(0)
  {
  }

  lemma EndReading(v: nat, widths: seq<nat>, i: nat)
    requires i == |widths|
    ensures Taken(v, widths[i..]) == [] && Sum(widths[i..]) == 0
  {
  }

  /** Send fields, align, and read them back with the same widths. */
  method SendAndRead(fields: seq<Field>) returns (bytes: seq<nat>, values: seq<nat>)
    requires AllFit(fields) && forall i :: 0 <= i < |fields| ==> fields[i].width <= BUF_SIZE
    ensures values == Values(fields) && |bytes| == (Width(fields) + 7) / 8
  {
    hide Value, Width, Holds, Shl, Number, Taken;
    var w := new BitWriter();
    var i := 0;
    while i < |fields|
      invariant 0 <= i <= |fields| && w.Valid() && w.sent == fields[..i] && fresh(w)
    {
      assert FieldFits(fields[i]);
      w.SendBits(fields[i].value, fields[i].width);
      i := i + 1;
    }
    assert fields[..i] == fields;
    w.BiWindup();
    bytes := w.pending;
    ghost var pad: nat :| pad < 8 && w.sent == Padded(fields, pad);
    PaddedValue(fields, pad);
    HoldsAll(w.pending, w.buf, w.valid, w.sent);
    TakenSent(fields, 0);
    ShlOne(Width(fields));
    SumWidths(fields);
    var ok;
    ok, values := ReadFields(bytes, Widths(fields));
  }

  lemma PaddedValue(fields: seq<Field>, pad: nat)
    ensures Value(Padded(fields, pad)) == Value(fields) && Width(Padded(fields, pad)) == Width(fields) + pad
  {
    hide Shl;
    ValueAppend(fields, [Field(0, pad)]);
    ValueOne(Field(0, pad));
    ShlOne(Width(fields));
  }

  lemma HoldsAll(pending: seq<nat>, buf: nat, valid: nat, sent: seq<Field>)
    requires Holds(pending, buf, valid, sent) && valid == 0
    ensures Number(pending) == Value(sent) && Width(sent) == 8 * |pending|
  {
    ShlOne(8 * |pending|);
  }
}
