/**
  deps/zlib/adler32.c: sums whose reduction modulo 65521 is put off for as long as
  32 bits allow, against the definition in section 9 of RFC 1950 that reduces
  after every byte.
 */
module Adler32 {

  const BASE: nat := 65521
  const NMAX: nat := 5552
  const LIMIT: nat := 0x1_0000_0000

  /** The two sums: the low and the high half of the checksum. */
  datatype Sums = Sums(a: nat, b: nat)

  predicate Reduced(s: Sums) {
    s.a < BASE && s.b < BASE
  }

  /** Both sums fit a 32-bit word. */
  predicate Small(s: Sums) {
    s.a < LIMIT && s.b < LIMIT
  }

  /** The definition: both sums are reduced after every byte. */
  function Reference(s: Sums, buf: seq<nat>): Sums
    decreases |buf|
  {
    if buf == [] then s
    else
      var p := Reference(s, buf[..|buf| - 1]);
      var a := (p.a + buf[|buf| - 1]) % BASE;
      Sums(a, (p.b + a) % BASE)
  }

  /** The sums without any reduction. */
  function Raw(s: Sums, buf: seq<nat>): Sums
    decreases |buf|
  {
    if buf == [] then s
    else
      var p := Raw(s, buf[..|buf| - 1]);
      Sums(p.a + buf[|buf| - 1], p.b + p.a + buf[|buf| - 1])
  }

  function Mod(s: Sums): Sums {
    Sums(s.a % BASE, s.b % BASE)
  }

  ghost predicate Bytes(s: seq<nat>) {
    forall i :: 0 <= i < |s| ==> s[i] < 256
  }

  // ----- putting off the reduction -------------------------------------------------------------

  lemma ModSum(x: nat, y: nat)
    ensures (x % 65521 + y) % 65521 == (x + y) % 65521
    ensures (x % 65521 + y % 65521) % 65521 == (x + y) % 65521
  {
  }

  lemma ReferenceStep(p: Sums, c: nat)
    ensures var a := (p.a % 65521 + c) % 65521;
            a == (p.a + c) % 65521 && (p.b % 65521 + a) % 65521 == (p.b + p.a + c) % 65521
  {
    ModSum(p.a, c);
    ModSum(p.b, p.a + c);
  }

  lemma {:induction false} RawIsReference(s: Sums, buf: seq<nat>)
    requires Reduced(s)
    ensures Mod(Raw(s, buf)) == Reference(s, buf) && Reduced(Reference(s, buf))
    decreases |buf|
  {
    if buf != [] {
      var k := |buf| - 1;
      RawIsReference(s, buf[..k]);
      var p := Raw(s, buf[..k]);
      ReferenceStep(p, buf[k]);
    }
  }

  lemma {:induction false} RawAppend(s: Sums, x: seq<nat>, y: seq<nat>)
    ensures Raw(s, x + y) == Raw(Raw(s, x), y)
    decreases |y|
  {
    if y == [] {
      assert x + y == x;
    } else {
      var k := |y| - 1;
      assert (x + y)[..|x| + k] == x + y[..k];
      RawAppend(s, x, y[..k]);
    }
  }

  lemma {:induction false} ReferenceAppend(s: Sums, x: seq<nat>, y: seq<nat>)
    ensures Reference(s, x + y) == Reference(Reference(s, x), y)
    decreases |y|
  {
    if y == [] {
      assert x + y == x;
    } else {
      var k := |y| - 1;
      assert (x + y)[..|x| + k] == x + y[..k];
      ReferenceAppend(s, x, y[..k]);
    }
  }

  // ----- how long it can be put off ---------------------------------------------------------------

  /** The largest unreduced sums after n bytes. */
  function MaxA(n: nat): nat {
    BASE - 1 + 255 * n
  }

  function MaxB(n: nat): nat {
    if n == 0 then BASE - 1 else MaxB(n - 1) + MaxA(n)
  }

  lemma {:induction false} RawBound(s: Sums, buf: seq<nat>)
    requires Reduced(s) && Bytes(buf)
    ensures Raw(s, buf).a <= MaxA(|buf|) && Raw(s, buf).b <= MaxB(|buf|)
    decreases |buf|
  {
    if buf != [] { RawBound(s, buf[..|buf| - 1]); }
  }

  /** Twice the bound, in closed form. */
  lemma {:induction false} MaxBIs(n: nat)
    ensures 2 * MaxB(n) == 2 * (BASE - 1) * (n + 1) + 255 * (n * (n + 1))
    decreases n
  {
    if n > 0 {
      MaxBIs(n - 1);
      assert n * (n + 1) == (n - 1) * n + 2 * n;
    }
  }

  lemma {:induction false} MaxBMono(m: nat, n: nat)
    requires m <= n
    ensures MaxB(m) <= MaxB(n)
    decreases n
  {
    if m < n { MaxBMono(m, n - 1); }
  }

  /** NMAX bytes always fit 32 bits. */
  lemma BlockFits(s: Sums, buf: seq<nat>)
    requires Reduced(s) && Bytes(buf) && |buf| <= NMAX
    ensures Small(Raw(s, buf))
  {
    hide MaxB, Raw;
    RawBound(s, buf);
    MaxBMono(|buf|, NMAX);
    MaxBIs(NMAX);
  }

  function Repeated(x: nat, n: nat): (s: seq<nat>)
    ensures |s| == n
  {
    seq(n, _ => x)
  }

  lemma {:induction false} WorstCase(n: nat)
    ensures Raw(Sums(BASE - 1, BASE - 1), Repeated(255, n)) == Sums(MaxA(n), MaxB(n))
    decreases n
  {
    if n > 0 {
      assert Repeated(255, n)[..n - 1] == Repeated(255, n - 1);
      WorstCase(n - 1);
    }
  }

  /** NMAX is exactly how many bytes may be added before the sums have to be reduced. */
  lemma NmaxIsLargest(n: nat)
    ensures (forall s, buf :: Reduced(s) && Bytes(buf) && |buf| == n ==> Small(Raw(s, buf))) <==> n <= NMAX
  {
    hide MaxB, Raw;
    if n <= NMAX {
      forall s, buf | Reduced(s) && Bytes(buf) && |buf| == n ensures Small(Raw(s, buf)) { BlockFits(s, buf); }
    } else {
      WorstCase(n);
      MaxBMono(NMAX + 1, n);
      MaxBIs(NMAX + 1);
      assert Reduced(Sums(BASE - 1, BASE - 1)) && Bytes(Repeated(255, n)) && |Repeated(255, n)| == n;
    }
  }

  // ----- reduction without division --------------------------------------------------------------

  /** CHOP */
  function Chop(a: nat): nat {
    a % 0x1_0000 + (16 * (a / 0x1_0000) - a / 0x1_0000)
  }

  lemma ChopKeeps(a: nat)
    ensures Chop(a) % BASE == a % BASE
  {
    var q, r := a / 0x1_0000, a % 0x1_0000;
    assert a == 65521 * q + Chop(a);
    Multiple(q, Chop(a));
  }

  lemma Multiple(q: nat, x: nat)
    ensures (65521 * q + x) % 65521 == x % 65521
  {
  }

  /** MOD28 */
  function Mod28(a: nat): nat {
    var c := Chop(a);
    if c >= BASE then c - BASE else c
  }

  lemma Mod28Is(a: nat)
    requires a < 0x1000_0000
    ensures Mod28(a) == a % BASE
  {
    ChopKeeps(a);
    var c := Chop(a);
    assert c < 2 * 65521;
  }

  /** MOD */
  function Mod32(a: nat): nat {
    Mod28(Chop(a))
  }

  lemma Mod32Is(a: nat)
    requires a < LIMIT
    ensures Mod32(a) == a % BASE
  {
    ChopKeeps(a);
    Mod28Is(Chop(a));
  }

  /** MOD63 */
  function Mod63(a: nat): nat {
    var x := a % LIMIT + (256 * (a / LIMIT) - 32 * (a / LIMIT) + a / LIMIT);
    Mod28(Chop(x))
  }

  lemma Mod63Is(a: nat)
    requires a < 0x8000_0000_0000_0000
    ensures Mod63(a) == a % BASE
  {
    var q := a / LIMIT;
    var x := a % LIMIT + (256 * q - 32 * q + q);
    assert a == 65521 * (65551 * q) + x;
    Multiple(65551 * q, x);
    ChopKeeps(x);
    assert x < 0x80_0000_0000;
    Mod28Is(Chop(x));
  }

  // ----- adler32_z ----------------------------------------------------------------------------------

  /** Sums only grow. */
  lemma {:induction false} RawGrows(s: Sums, buf: seq<nat>, k: nat)
    requires k <= |buf|
    ensures Raw(s, buf[..k]).a <= Raw(s, buf).a && Raw(s, buf[..k]).b <= Raw(s, buf).b
    decreases |buf|
  {
    if k < |buf| {
      var m := |buf| - 1;
      assert buf[..m][..k] == buf[..k];
      RawGrows(s, buf[..m], k);
    } else {
      assert buf[..k] == buf;
    }
  }

  /** A sum in an unsigned 32-bit word. */
  function Word(x: nat): nat {
    x % LIMIT
  }

  lemma NoWrap(x: nat)
    requires x < LIMIT
    ensures Word(x) == x
  {
  }

  lemma RawStep(s: Sums, buf: seq<nat>, i: nat)
    requires i < |buf| && Small(Raw(s, buf))
    ensures var p := Raw(s, buf[..i]); Raw(s, buf[..i + 1]) == Sums(p.a + buf[i], p.b + p.a + buf[i])
    ensures Small(Raw(s, buf[..i + 1]))
  {
    assert buf[..i + 1][..i] == buf[..i];
    RawGrows(s, buf, i + 1);
  }

  /** Add bytes without reducing, in 32-bit words: no sum wraps around if the last ones do not. */
  method AddBytes(s: Sums, buf: seq<nat>) returns (r: Sums)
    requires Small(Raw(s, buf))
    ensures r == Raw(s, buf)
  {
    hide Raw, Word;
    var adler: nat, sum2: nat := s.a, s.b;
    var i := 0;
    RawOfNothing(s, buf);
    while i < |buf|
      invariant 0 <= i <= |buf| && Raw(s, buf[..i]) == Sums(adler, sum2)
    {
      RawStep(s, buf, i);
      NoWrap(adler + buf[i]);
      NoWrap(sum2 + adler + buf[i]);
      adler := Word(adler + buf[i]);
      sum2 := Word(sum2 + adler);
      i := i + 1;
    }
    assert buf[..i] == buf;
    r := Sums(adler, sum2);
  }

  /** Add a multiple of sixteen bytes, sixteen at a time. */
  method AddSixteens(s: Sums, buf: seq<nat>, n: nat) returns (r: Sums)
    requires |buf| == 16 * n && Small(Raw(s, buf))
    ensures r == Raw(s, buf)
  {
    hide Raw;
    r := s;
    var k := 0;
    RawOfNothing(s, buf);
    while k < n
      invariant 0 <= k <= n && r == Raw(s, buf[..16 * k])
    {
      assert buf[..16 * k] + buf[16 * k..16 * k + 16] == buf[..16 * (k + 1)];
      RawAppend(s, buf[..16 * k], buf[16 * k..16 * k + 16]);
      RawGrows(s, buf, 16 * (k + 1));
      r := AddBytes(r, buf[16 * k..16 * k + 16]);
      k := k + 1;
    }
    assert buf[..16 * n] == buf;
  }

  lemma RawOfNothing(s: Sums, buf: seq<nat>)
    ensures Raw(s, buf[..0]) == s
  {
  }

  /** The blocks of NMAX bytes. */
  method AddBlocks(s: Sums, buf: seq<nat>) returns (r: Sums, rest: seq<nat>)
    requires Reduced(s) && Bytes(buf)
    ensures Reduced(r) && |rest| < NMAX && Bytes(rest)
    ensures Reference(r, rest) == Reference(s, buf)
  {
    hide Raw, Reference;
    r, rest := s, buf;
    while |rest| >= NMAX
      invariant Reduced(r) && Bytes(rest) && Reference(r, rest) == Reference(s, buf)
      decreases |rest|
    {
      var block := rest[..NMAX];
      BlockFits(r, block);
      RawIsReference(r, block);
      assert rest == block + rest[NMAX..];
      ReferenceAppend(r, block, rest[NMAX..]);
      var raw := AddSixteens(r, block, NMAX / 16);
      Mod32Is(raw.a);
      Mod32Is(raw.b);
      r := Sums(Mod32(raw.a), Mod32(raw.b));
      rest := rest[NMAX..];
    }
  }

  /** Less than sixteen bytes. */
  method AddFew(s: Sums, buf: seq<nat>) returns (r: Sums)
    requires Reduced(s) && Bytes(buf) && |buf| < 16
    ensures r == Reference(s, buf)
  {
    hide Raw, Reference, Mod28;
    ShortSums(s, buf);
    RawIsReference(s, buf);
    r := AddBytes(s, buf);
    if r.a >= BASE { r := r.(a := r.a - BASE); }
    Mod28Is(r.b);
    r := r.(b := Mod28(r.b));
  }

  /** What remains after the blocks. */
  method AddRest(s: Sums, buf: seq<nat>) returns (r: Sums)
    requires Reduced(s) && Bytes(buf) && |buf| < NMAX
    ensures r == Reference(s, buf)
  {
    hide Raw, Reference, Mod32;
    BlockFits(s, buf);
    RawIsReference(s, buf);
    var n := |buf| / 16;
    assert buf == buf[..16 * n] + buf[16 * n..];
    RawAppend(s, buf[..16 * n], buf[16 * n..]);
    RawGrows(s, buf, 16 * n);
    r := AddSixteens(s, buf[..16 * n], n);
    r := AddBytes(r, buf[16 * n..]);
    Mod32Is(r.a);
    Mod32Is(r.b);
    r := Sums(Mod32(r.a), Mod32(r.b));
  }

  function Join(s: Sums): nat {
    s.a + s.b * 0x1_0000
  }

  function Parts(adler: nat): Sums {
    Sums(adler % 0x1_0000, (adler / 0x1_0000) % 0x1_0000)
  }

  /**
    adler32_z for a buffer: the checksum continued by the bytes, as the definition
    has it, for every length.
   */
  method Adler32Z(adler: nat, buf: seq<nat>) returns (r: nat)
    requires Reduced(Parts(adler)) && Bytes(buf)
    ensures r == Join(Reference(Parts(adler), buf)) && r < LIMIT
  {
    hide Raw, Reference;
    var s := Parts(adler);
    RawIsReference(s, buf);
    if |buf| == 1 {
      OneByte(s, buf);
      var a := s.a + buf[0];
      if a >= BASE { a := a - BASE; }
      var b := s.b + a;
      if b >= BASE { b := b - BASE; }
      return Join(Sums(a, b));
    }
    if |buf| < 16 {
      var t := AddFew(s, buf);
      return Join(t);
    }
    var t, rest := AddBlocks(s, buf);
    if |rest| != 0 {
      t := AddRest(t, rest);
    } else {
      Nothing(t, rest);
    }
    r := Join(t);
  }

  lemma Nothing(s: Sums, buf: seq<nat>)
    requires buf == []
    ensures Reference(s, buf) == s
  {
  }

  lemma OneByte(s: Sums, buf: seq<nat>)
    requires Reduced(s) && |buf| == 1
    ensures Reference(s, buf) == Sums((s.a + buf[0]) % BASE, (s.b + (s.a + buf[0]) % BASE) % BASE)
  {
    assert buf[..0] == [];
  }

  /** Fifteen bytes stay far from 2^28, and the first sum below twice the modulus. */
  lemma ShortSums(s: Sums, buf: seq<nat>)
    requires Reduced(s) && Bytes(buf) && |buf| < 16
    ensures Raw(s, buf).a < 2 * BASE && Raw(s, buf).b < 0x1000_0000
  {
    hide Raw, MaxB;
    RawBound(s, buf);
    MaxBMono(|buf|, 15);
    MaxBIs(15);
  }

  // ----- combination ---------------------------------------------------------------------------------

  /** The sums from any start, by the sums from zero. */
  lemma {:induction false} RawLinear(s: Sums, buf: seq<nat>)
    ensures var z := Raw(Sums(0, 0), buf);
            Raw(s, buf) == Sums(s.a + z.a, s.b + |buf| * s.a + z.b)
    decreases |buf|
  {
    if buf != [] {
      var k := |buf| - 1;
      RawLinear(s, buf[..k]);
      assert |buf| * s.a == k * s.a + s.a;
    }
  }

  const INITIAL := Sums(1, 0)

  /** The sums of a concatenation from those of its parts and the length of the second. */
  function Combined(p: Sums, q: Sums, n: nat): Sums {
    Sums((p.a + q.a + BASE - 1) % BASE, (n * p.a % BASE + p.b + q.b + BASE - n % BASE) % BASE)
  }

  lemma CombineLaw(x: seq<nat>, y: seq<nat>)
    ensures Reference(INITIAL, x + y) == Combined(Reference(INITIAL, x), Reference(INITIAL, y), |y|)
  {
    hide Raw, Reference;
    var p, z, n := Reference(INITIAL, x), Raw(Sums(0, 0), y), |y|;
    ReferenceAppend(INITIAL, x, y);
    RawIsReference(INITIAL, x);
    RawIsReference(p, y);
    RawLinear(p, y);
    RawIsReference(INITIAL, y);
    RawLinear(INITIAL, y);
    CombineLow(p.a, z.a);
    CombineHigh(n * p.a, p.b, z.b, n);
  }

  lemma CombineLow(a: nat, z: nat)
    ensures (a + (1 + z) % 65521 + 65521 - 1) % 65521 == (a + z) % 65521
  {
    ModSum(1 + z, a + 65520);
    Multiple(1, a + z);
  }

  lemma CombineHigh(product: nat, b: nat, z: nat, n: nat)
    ensures (product % 65521 + b + (n + z) % 65521 + 65521 - n % 65521) % 65521 == (b + product + z) % 65521
  {
    var rest := b + (n + z) % 65521 + 65521 - n % 65521;
    ModSum(product, rest);
    ModSum(n + z, product + b + 65521 - n % 65521);
    Multiple(n / 65521 + 1, product + b + z);
  }

  /** The product is reduced before it is formed. */
  lemma SmallFactor(n: nat, a: nat)
    ensures n % BASE * a % BASE == n * a % BASE
  {
    assert n == BASE * (n / BASE) + n % BASE;
    assert (BASE * (n / BASE) + n % BASE) * a == BASE * (n / BASE * a) + n % BASE * a;
    Multiple(n / BASE * a, n % BASE * a);
  }

  lemma MulMono(x: nat, m: nat, y: nat)
    requires x <= m
    ensures x * y <= m * y
  {
    assert m * y - x * y == (m - x) * y;
  }

  lemma ProductFits(x: nat, y: nat)
    requires x < BASE && y < BASE
    ensures x * y < LIMIT
  {
    MulMono(x, 65520, y);
  }

  /** Two conditional subtractions reduce. */
  lemma Subtractions(x: nat)
    ensures x < 3 * 65521 ==>
              x % 65521 == (var y := if x >= 65521 then x - 65521 else x; if y >= 65521 then y - 65521 else y)
    ensures x < 4 * 65521 ==>
              x % 65521 == (var y := if x >= 2 * 65521 then x - 2 * 65521 else x; if y >= 65521 then y - 65521 else y)
  {
  }

  /** The sums of adler32_combine_, without a division by anything but 2^16. */
  method CombineSums(p: Sums, q: Sums, len2: nat) returns (sum1: nat, sum2: nat)
    requires Reduced(p) && Reduced(q) && len2 < 0x8000_0000_0000_0000
    ensures Sums(sum1, sum2) == Combined(p, q, len2) && Reduced(Sums(sum1, sum2))
  {
    hide Mod63, Mod32;
    Mod63Is(len2);
    var rem := Mod63(len2);
    ProductFits(rem, p.a);
    Mod32Is(rem * p.a);
    SmallFactor(len2, p.a);
    sum1 := p.a + q.a + BASE - 1;
    sum2 := Mod32(rem * p.a) + p.b + q.b + BASE - rem;
    Subtractions(sum1);
    Subtractions(sum2);
    if sum1 >= BASE { sum1 := sum1 - BASE; }
    if sum1 >= BASE { sum1 := sum1 - BASE; }
    if sum2 >= 2 * BASE { sum2 := sum2 - 2 * BASE; }
    if sum2 >= BASE { sum2 := sum2 - BASE; }
  }

  lemma PartsOfJoin(s: Sums)
    requires Reduced(s)
    ensures Parts(Join(s)) == s
  {
  }

  /** adler32_combine_ */
  method Combine(adler1: nat, adler2: nat, len2: int) returns (r: nat)
    requires Reduced(Parts(adler1)) && Reduced(Parts(adler2)) && len2 < 0x8000_0000_0000_0000
    ensures len2 < 0 ==> r == 0xffff_ffff
    ensures forall x, y :: |y| == len2 && adler1 == Join(Reference(INITIAL, x)) && adler2 == Join(Reference(INITIAL, y))
              ==> r == Join(Reference(INITIAL, x + y))
  {
    hide Raw, Reference, Combined, Parts, Join;
    if len2 < 0 { return 0xffff_ffff; }
    var sum1, sum2 := CombineSums(Parts(adler1), Parts(adler2), len2);
    r := Join(Sums(sum1, sum2));
    forall x, y | |y| == len2 && adler1 == Join(Reference(INITIAL, x)) && adler2 == Join(Reference(INITIAL, y))
      ensures r == Join(Reference(INITIAL, x + y))
    {
      RawIsReference(INITIAL, x);
      RawIsReference(INITIAL, y);
      PartsOfJoin(Reference(INITIAL, x));
      PartsOfJoin(Reference(INITIAL, y));
      CombineLaw(x, y);
    }
  }

  // ----- a known checksum -----------------------------------------------------------------------

  /** "Wikipedia" */
  const EXAMPLE: seq<nat> := [0x57, 0x69, 0x6b, 0x69, 0x70, 0x65, 0x64, 0x69, 0x61]

  lemma ExampleStart()
    ensures Parts(1) == INITIAL && Reference(INITIAL, EXAMPLE[..0]) == INITIAL
  {
  }

  lemma ExampleStep(k: nat, p: Sums, r: Sums)
    requires k < 9 && Reference(INITIAL, EXAMPLE[..k]) == p
    requires p.a + EXAMPLE[k] == r.a < 65521 && p.b + r.a == r.b < 65521
    ensures Reference(INITIAL, EXAMPLE[..k + 1]) == r
  {
    assert EXAMPLE[..k + 1][..k] == EXAMPLE[..k] && EXAMPLE[..k + 1][k] == EXAMPLE[k];
  }

  /** The checksum starts from 1 and has the sum of the sums in its upper half. */
  lemma ExampleValue()
    ensures Join(Reference(Parts(1), EXAMPLE)) == 0x11e6_0398
  {
    hide Reference;
    ExampleStart();
    ExampleStep(0, Sums(1, 0), Sums(88, 88));
    ExampleStep(1, Sums(88, 88), Sums(193, 281));
    ExampleStep(2, Sums(193, 281), Sums(300, 581));
    ExampleStep(3, Sums(300, 581), Sums(405, 986));
    ExampleStep(4, Sums(405, 986), Sums(517, 1503));
    ExampleStep(5, Sums(517, 1503), Sums(618, 2121));
    ExampleStep(6, Sums(618, 2121), Sums(718, 2839));
    ExampleStep(7, Sums(718, 2839), Sums(823, 3662));
    ExampleStep(8, Sums(823, 3662), Sums(920, 4582));
    assert EXAMPLE[..9] == EXAMPLE;
  }
}
