/** CRC-32 as PNG uses it: the table-driven form against the bit-serial shift register. A 32-bit word
    is its bits, least significant first. */
module Crc {
  import opened Limbs
  import opened BitStrings

  /** 0xEDB88320, the reflected polynomial. */
  const POLY: Bits := [0, 0, 0, 0, 0, 1, 0, 0, 1, 1, 0, 0, 0, 0, 0, 1, 0, 0, 0, 1, 1, 1, 0, 1, 1, 0, 1, 1, 0, 1, 1, 1]

  lemma PolyIs()
    ensures |POLY| == 32
  {
  }

  function Xor(a: Bits, b: Bits): (r: Bits)
    requires |a| == |b|
    ensures |r| == |a|
  {
    seq(|a|, i requires 0 <= i < |a| => if a[i] == b[i] then 0 else 1)
  }

  function Shr(c: Bits): (r: Bits)
    requires |c| == 32
    ensures |r| == 32
  {
    c[1..] + [0]
  }

  /** One turn of the register with no input. */
  function Step(c: Bits): (r: Bits)
    requires |c| == 32
    ensures |r| == 32
  {
    PolyIs();
    if c[0] == 1 then Xor(POLY, Shr(c)) else Shr(c)
  }

  lemma StepAt(c: Bits, i: nat)
    requires |c| == 32 && i < 32 && |POLY| == 32
    ensures Step(c)[i] == (if c[0] == 1 && POLY[i] != Shr(c)[i] then 1 else if c[0] == 1 then 0 else Shr(c)[i])
  {
  }

  /** The register is linear. */
  lemma StepAdd(a: Bits, b: Bits)
    requires |a| == |b| == 32
    ensures Step(Xor(a, b)) == Xor(Step(a), Step(b))
  {
    PolyIs();
    var l, r := Step(Xor(a, b)), Xor(Step(a), Step(b));
    forall i | 0 <= i < 32 ensures l[i] == r[i] {
      StepAt(Xor(a, b), i);
      StepAt(a, i);
      StepAt(b, i);
      assert Shr(Xor(a, b))[i] == if Shr(a)[i] == Shr(b)[i] then 0 else 1;
    }
  }

  function StepN(c: Bits, n: nat): (r: Bits)
    requires |c| == 32
    ensures |r| == 32
    decreases n
  {
    if n == 0 then c else StepN(Step(c), n - 1)
  }

  lemma {:induction false} StepNAdd(a: Bits, b: Bits, n: nat)
    requires |a| == |b| == 32
    ensures StepN(Xor(a, b), n) == Xor(StepN(a, n), StepN(b, n))
    decreases n
  {
    if n > 0 {
      StepAdd(a, b);
      StepNAdd(Step(a), Step(b), n - 1);
    }
  }

  /** n places to the right. */
  function ShrN(c: Bits, n: nat): (r: Bits)
    requires |c| == 32 && n <= 32
    ensures |r| == 32
  {
    c[n..] + Zeros(n)
  }

  function Zeros(n: nat): (r: Bits)
    ensures |r| == n && forall i :: 0 <= i < n ==> r[i] == 0
  {
    seq(n, i => 0)
  }

  /** While the low bits are zero, turning only shifts. */
  lemma {:induction false} StepNShifts(c: Bits, n: nat)
    requires |c| == 32 && n <= 32 && forall i :: 0 <= i < n ==> c[i] == 0
    ensures StepN(c, n) == ShrN(c, n)
    decreases n
  {
    if n == 0 {
      assert c[0..] + Zeros(0) == c;
    } else {
      StepNShifts(Step(c), n - 1);
      assert ShrN(Shr(c), n - 1) == ShrN(c, n);
    }
  }

  function Low(c: Bits, n: nat): (r: Bits)
    requires |c| == 32 && n <= 32
    ensures |r| == 32
  {
    c[..n] + Zeros(32 - n)
  }

  function High(c: Bits, n: nat): (r: Bits)
    requires |c| == 32 && n <= 32
    ensures |r| == 32
  {
    Zeros(n) + c[n..]
  }

  /** n turns act on the low n bits and shift the rest: what a table of the low part is for. */
  lemma TableStep(c: Bits, n: nat)
    requires |c| == 32 && n <= 32
    ensures StepN(c, n) == Xor(StepN(Low(c, n), n), ShrN(c, n))
  {
    assert c == Xor(Low(c, n), High(c, n));
    StepNAdd(Low(c, n), High(c, n), n);
    StepNShifts(High(c, n), n);
    assert ShrN(High(c, n), n) == ShrN(c, n);
  }

  // ---------- the bit-serial reference ----------

  /** One turn of the register with an input bit. */
  ghost function Feed(c: Bits, bit: Bit): (r: Bits)
    requires |c| == 32
    ensures |r| == 32
  {
    Step(Xor(c, [bit] + Zeros(31)))
  }

  ghost function FeedAll(c: Bits, bits: Bits): (r: Bits)
    requires |c| == 32
    ensures |r| == 32
    decreases |bits|
  {
    if bits == [] then c else FeedAll(Feed(c, bits[0]), bits[1..])
  }

  /** Feeding bits one at a time is adding them all first and then turning. */
  lemma {:induction false} FeedAllIs(c: Bits, bits: Bits, n: nat)
    requires |c| == 32 && n == |bits| <= 32
    ensures FeedAll(c, bits) == StepN(Xor(c, bits + Zeros(32 - n)), n)
    decreases n
  {
    if n == 0 {
      assert Xor(c, [] + Zeros(32)) == c;
    } else {
      var first, rest := [bits[0]] + Zeros(31), [0] + bits[1..] + Zeros(32 - n);
      assert bits + Zeros(32 - n) == Xor(first, rest);
      assert Xor(c, Xor(first, rest)) == Xor(Xor(c, first), rest);
      StepAdd(Xor(c, first), rest);
      assert Step(rest) == bits[1..] + Zeros(32 - (n - 1));
      FeedAllIs(Feed(c, bits[0]), bits[1..], n - 1);
    }
  }

  // ---------- bytes and the table ----------

  const BYTE: nat := 8

  /** The eight bits of a byte, first the least significant. */
  ghost function ByteBits(d: Byte): (b: Bits)
    ensures |b| == BYTE
  {
    seq(BYTE, i requires 0 <= i < BYTE => d / Pow2(i) % 2)
  }

  ghost function ByteWord(d: Byte): (w: Bits)
    ensures |w| == 32
  {
    ByteBits(d) + Zeros(32 - BYTE)
  }

  /** The reference: the message fed to the register bit by bit. */
  ghost function Serial(c: Bits, data: seq<Byte>): (r: Bits)
    requires |c| == 32
    ensures |r| == 32
    decreases |data|
  {
    if data == [] then c else Serial(FeedAll(c, ByteBits(data[0])), data[1..])
  }

  /** Entry n of the table: the byte n turned eight times. */
  ghost predicate TableAt(table: seq<Bits>, n: nat) {
    n < 256 && |table| == 256 ==> table[n] == StepN(ByteWord(n), BYTE)
  }

  ghost predicate IsTable(table: seq<Bits>) {
    |table| == 256 && forall n: nat {:trigger TableAt(table, n)} :: TableAt(table, n)
  }

  lemma NumberOfLow(x: Bits)
    requires |x| == 32
    ensures FromBits(x[..BYTE]) < 256 && ByteWord(FromBits(x[..BYTE])) == Low(x, BYTE)
  {
    var b := x[..BYTE];
    assert Pow2(BYTE) == 256;
    var n := FromBits(b);
    forall i | 0 <= i < BYTE ensures ByteBits(n)[i] == b[i] {
      FromBitsAt(b, i);
    }
    assert ByteBits(n) == b;
  }

  lemma HighUnchanged(c: Bits, d: Byte)
    requires |c| == 32
    ensures ShrN(Xor(c, ByteWord(d)), BYTE) == ShrN(c, BYTE)
  {
  }

  /** Looking up the low byte and shifting is feeding the byte's bits. */
  lemma LookupFeeds(c: Bits, d: Byte, x: Bits, n: Byte, entry: Bits)
    requires |c| == 32 && x == Xor(c, ByteWord(d)) && n == FromBits(x[..BYTE]) && entry == StepN(ByteWord(n), BYTE)
    ensures Xor(entry, ShrN(c, BYTE)) == FeedAll(c, ByteBits(d))
  {
    NumberOfLow(x);
    TableStep(x, BYTE);
    FeedAllIs(c, ByteBits(d), BYTE);
    HighUnchanged(c, d);
  }

  // ---------- computing it ----------

  /** The word's low byte as an index. */
  method LowByte(x: Bits) returns (n: Byte)
    requires |x| == 32
    ensures n == FromBits(x[..BYTE])
  {
    NumberOfLow(x);
    var v: nat, i := 0, 8;
    while i > 0
      invariant 0 <= i <= 8 && v == FromBits(x[i..BYTE])
    {
      i := i - 1;
      assert x[i..BYTE] == [x[i]] + x[i + 1..BYTE];
      v := 2 * v + x[i] as nat;
    }
    assert x[0..BYTE] == x[..BYTE];
    n := v;
  }

  method ToWord(d: Byte) returns (w: Bits)
    ensures w == ByteWord(d)
  {
    w := [];
    var i, v := 0, d as nat;
    while i < 8
      invariant 0 <= i <= 8 && |w| == i && v == d / Pow2(i) && forall j :: 0 <= j < i ==> w[j] == ByteBits(d)[j]
    {
      HalveAgain(d, i);
      w := w + [v % 2];
      v := v / 2;
      i := i + 1;
    }
    w := w + Zeros(32 - BYTE);
  }

  lemma HalveAgain(d: nat, i: nat)
    ensures d / Pow2(i) / 2 == d / Pow2(i + 1)
  {
    var w := Pow2(i);
    var q, r := d / w, d % w;
    MulCommutes(q, w);
    var h, b := q / 2, q % 2;
    MulAdd(2 * h, b, w);
    MulCommutes(2, h);
    MulAssoc(h, 2, w);
    DivModUnique(d, 2 * w, h, b * w + r);
  }

  /** The table, each entry by eight conditional shifts. */
  method Crc32Init() returns (table: array<Bits>)
    ensures fresh(table) && IsTable(table[..])
  {
    table := new Bits[256];
    var n := 0;
    while n < 256
      invariant 0 <= n <= 256 && forall m: nat {:trigger TableAt(table[..], m)} :: m < n ==> TableAt(table[..], m)
    {
      var c := ToWord(n);
      c := EightTurns(c);
      ghost var before := table[..];
      table[n] := c;
      ghost var now := table[..];
      forall m: nat | m < n + 1 ensures TableAt(now, m) {
        assert m < n ==> TableAt(before, m);
      }
      n := n + 1;
    }
    ghost var done := table[..];
    forall m: nat ensures TableAt(done, m) {
      assert m < 256 ==> TableAt(table[..], m);
    }
  }

  method EightTurns(w: Bits) returns (c: Bits)
    requires |w| == 32
    ensures c == StepN(w, BYTE)
  {
    c := w;
    var k := 0;
    ghost var left := BYTE;
    PolyIs();
    while k < 8
      invariant 0 <= k <= 8 && left == 8 - k && |c| == 32 && StepN(c, left) == StepN(w, BYTE)
    {
      ghost var rest := left - 1;
      StepNFirst(c, left, rest);
      c := if c[0] == 1 then Xor(POLY, Shr(c)) else Shr(c);
      k, left := k + 1, rest;
    }
    assert left == 0;
  }

  lemma StepNFirst(c: Bits, n: nat, rest: nat)
    requires |c| == 32 && n == rest + 1
    ensures StepN(c, n) == StepN(Step(c), rest)
  {
  }

  /** The table-driven loop computes the bit-serial CRC of every message. */
  method Crc32Of(table: array<Bits>, data: seq<Byte>) returns (c: Bits)
    requires IsTable(table[..])
    ensures |c| == 32 && c == Xor(Serial(Ones(), data), Ones())
  {
    c := Ones();
    var i := 0;
    assert data[0..] == data;
    while i < |data|
      invariant 0 <= i <= |data| && |c| == 32 && Serial(c, data[i..]) == Serial(Ones(), data)
    {
      var w := ToWord(data[i]);
      var x := Xor(c, w);
      var n := LowByte(x);
      assert TableAt(table[..], n);
      LookupFeeds(c, data[i], x, n, table[n]);
      c := Xor(table[n], ShrN(c, BYTE));
      assert data[i..][0] == data[i] && data[i..][1..] == data[i + 1..];
      i := i + 1;
    }
    c := Xor(c, Ones());
  }

  function Ones(): (r: Bits)
    ensures |r| == 32 && forall i :: 0 <= i < 32 ==> r[i] == 1
  {
    seq(32, i => 1)
  }

  // ---------- what the polynomial is, and what it is for ----------

  /** x^32 + x^26 + x^23 + x^22 + x^16 + x^12 + x^11 + x^10 + x^8 + x^7 + x^5 + x^4 + x^2 + x + 1, without its first term. */
  lemma PolyTerms(e: nat)
    requires e < 32
    ensures |POLY| == 32 && (POLY[31 - e] == 1 <==> e in {26, 23, 22, 16, 12, 11, 10, 8, 7, 5, 4, 2, 1, 0})
  {
  }

  lemma StepZero(c: Bits)
    requires |c| == 32 && Step(c) == Zeros(32)
    ensures c == Zeros(32)
  {
    PolyIs();
    StepAt(c, 31);
    PolyTerms(0);
    assert c[0] == 0;
    forall i | 0 <= i < 32 ensures c[i] == 0 {
      if i > 0 {
        StepAt(c, i - 1);
        assert Shr(c)[i - 1] == c[i];
      }
    }
  }

  /** A turn loses nothing: different registers stay different. */
  lemma StepInjective(a: Bits, b: Bits)
    requires |a| == |b| == 32 && Step(a) == Step(b)
    ensures a == b
  {
    StepAdd(a, b);
    assert Xor(Step(a), Step(b)) == Zeros(32);
    StepZero(Xor(a, b));
    forall i | 0 <= i < 32 ensures a[i] == b[i] {
      assert Xor(a, b)[i] == 0;
    }
  }

  lemma {:induction false} StepNInjective(a: Bits, b: Bits, n: nat)
    requires |a| == |b| == 32 && StepN(a, n) == StepN(b, n)
    ensures a == b
    decreases n
  {
    if n > 0 {
      StepNInjective(Step(a), Step(b), n - 1);
      StepInjective(a, b);
    }
  }

  lemma XorInjective(a: Bits, b: Bits, d: Bits)
    requires |a| == |b| == |d| && Xor(a, d) == Xor(b, d)
    ensures a == b
  {
    forall i | 0 <= i < |a| ensures a[i] == b[i] {
      assert Xor(a, d)[i] == Xor(b, d)[i];
    }
  }

  lemma {:induction false} FeedAllInjective(a: Bits, b: Bits, bits: Bits)
    requires |a| == |b| == 32 && FeedAll(a, bits) == FeedAll(b, bits)
    ensures a == b
    decreases |bits|
  {
    if bits != [] {
      var d := [bits[0]] + Zeros(31);
      FeedAllInjective(Feed(a, bits[0]), Feed(b, bits[0]), bits[1..]);
      StepInjective(Xor(a, d), Xor(b, d));
      XorInjective(a, b, d);
    }
  }

  lemma {:induction false} FeedAllAppend(c: Bits, x: Bits, y: Bits)
    requires |c| == 32
    ensures FeedAll(c, x + y) == FeedAll(FeedAll(c, x), y)
    decreases |x|
  {
    if x == [] {
      assert x + y == y;
    } else {
      assert (x + y)[1..] == x[1..] + y;
      FeedAllAppend(Feed(c, x[0]), x[1..], y);
    }
  }

  lemma XorCommutes(a: Bits, b: Bits)
    requires |a| == |b|
    ensures Xor(a, b) == Xor(b, a)
  {
  }

  /** Every burst of errors of at most 32 bits changes the register, whatever precedes and follows it. */
  lemma BurstDetected(before: Bits, x: Bits, y: Bits, rest: Bits)
    requires |x| == |y| <= 32 && x != y
    ensures FeedAll(Ones(), before + x + rest) != FeedAll(Ones(), before + y + rest)
  {
    var c, n := FeedAll(Ones(), before), |x|;
    FeedAllAppend(Ones(), before + x, rest);
    FeedAllAppend(Ones(), before + y, rest);
    FeedAllAppend(Ones(), before, x);
    FeedAllAppend(Ones(), before, y);
    if FeedAll(FeedAll(c, x), rest) == FeedAll(FeedAll(c, y), rest) {
      FeedAllInjective(FeedAll(c, x), FeedAll(c, y), rest);
      BurstFed(c, x, y, n);
    }
  }

  lemma BurstFed(c: Bits, x: Bits, y: Bits, n: nat)
    requires |c| == 32 && |x| == |y| == n <= 32 && FeedAll(c, x) == FeedAll(c, y)
    ensures x == y
  {
    var p, q := x + Zeros(32 - n), y + Zeros(32 - n);
    FeedAllIs(c, x, n);
    FeedAllIs(c, y, n);
    StepNInjective(Xor(c, p), Xor(c, q), n);
    XorCommutes(c, p);
    XorCommutes(c, q);
    XorInjective(p, q, c);
    assert p[..n] == x && q[..n] == y;
  }

  /** The register after a message and its own CRC does not depend on the message. */
  lemma Residue(c: Bits, n: nat)
    requires |c| == n == 32
    ensures FeedAll(c, Xor(c, Ones())) == StepN(Ones(), n)
  {
    var crc := Xor(c, Ones());
    FeedAllIs(c, crc, n);
    assert Xor(c, crc + Zeros(0)) == Ones();
  }

  /** The bits of a message, byte by byte. */
  ghost function DataBits(data: seq<Byte>): Bits {
    if data == [] then [] else ByteBits(data[0]) + DataBits(data[1..])
  }

  lemma {:induction false} SerialIs(c: Bits, data: seq<Byte>)
    requires |c| == 32
    ensures Serial(c, data) == FeedAll(c, DataBits(data))
    decreases |data|
  {
    if data != [] {
      SerialIs(FeedAll(c, ByteBits(data[0])), data[1..]);
      FeedAllAppend(c, ByteBits(data[0]), DataBits(data[1..]));
    }
  }

  lemma {:induction false} DataBitsAppend(a: seq<Byte>, b: seq<Byte>)
    ensures DataBits(a + b) == DataBits(a) + DataBits(b) && |DataBits(a)| == 8 * |a|
    decreases |a|
  {
    if a == [] {
      assert a + b == b;
    } else {
      assert (a + b)[1..] == a[1..] + b;
      DataBitsAppend(a[1..], b);
    }
  }

  lemma {:induction false} SameNumber(d: nat, e: nat, n: nat)
    requires d < Pow2(n) && e < Pow2(n) && forall i :: 0 <= i < n ==> d / Pow2(i) % 2 == e / Pow2(i) % 2
    ensures d == e
  {
    if n > 0 {
      var m := n - 1;
      assert d / Pow2(0) % 2 == e / Pow2(0) % 2;
      forall i | 0 <= i < m ensures d / 2 / Pow2(i) % 2 == e / 2 / Pow2(i) % 2 {
        HalveFirst(d, i);
        HalveFirst(e, i);
        assert d / Pow2(i + 1) % 2 == e / Pow2(i + 1) % 2;
      }
      SameNumber(d / 2, e / 2, m);
    }
  }

  lemma HalveFirst(d: nat, i: nat)
    ensures d / 2 / Pow2(i) == d / Pow2(i + 1)
  {
    HalveDiv(d / 2, d % 2, Pow2(i));
  }

  lemma {:induction false} DataBitsInjective(a: seq<Byte>, b: seq<Byte>)
    requires |a| == |b| && DataBits(a) == DataBits(b)
    ensures a == b
    decreases |a|
  {
    if a != [] {
      var x, y := DataBits(a), DataBits(b);
      assert x[..8] == ByteBits(a[0]) && y[..8] == ByteBits(b[0]);
      assert x[8..] == DataBits(a[1..]) && y[8..] == DataBits(b[1..]);
      DataBitsInjective(a[1..], b[1..]);
      assert Pow2(8) == 256;
      forall i | 0 <= i < 8 ensures a[0] / Pow2(i) % 2 == b[0] / Pow2(i) % 2 {
        assert ByteBits(a[0])[i] == ByteBits(b[0])[i];
      }
      SameNumber(a[0], b[0], 8);
    }
  }

  /** Messages that differ in up to four neighbouring bytes have different CRCs. */
  lemma FourBytesDetected(before: seq<Byte>, x: seq<Byte>, y: seq<Byte>, rest: seq<Byte>)
    requires |x| == |y| <= 4 && x != y
    ensures Xor(Serial(Ones(), before + x + rest), Ones()) != Xor(Serial(Ones(), before + y + rest), Ones())
  {
    var p, q := Serial(Ones(), before + x + rest), Serial(Ones(), before + y + rest);
    MessageBits(before, x, rest);
    MessageBits(before, y, rest);
    if DataBits(x) == DataBits(y) {
      DataBitsInjective(x, y);
    }
    BurstDetected(DataBits(before), DataBits(x), DataBits(y), DataBits(rest));
    if Xor(p, Ones()) == Xor(q, Ones()) {
      XorInjective(p, q, Ones());
    }
  }

  lemma MessageBits(before: seq<Byte>, x: seq<Byte>, rest: seq<Byte>)
    ensures Serial(Ones(), before + x + rest) == FeedAll(Ones(), DataBits(before) + DataBits(x) + DataBits(rest))
    ensures |DataBits(x)| == 8 * |x|
  {
    DataBitsAppend(before + x, rest);
    DataBitsAppend(before, x);
    DataBitsAppend(x, rest);
    SerialIs(Ones(), before + x + rest);
  }
}
