/** The limb-array routines under RSA: every routine is proved against exact
    natural-number arithmetic on the values its arrays denote. Shifts and masks are
    written as division, remainder and multiplication by powers of two; every
    bitwise-or in the routines joins fields that do not overlap, so it is a sum. */
module Bignum {
  import opened Limbs

  const BIGNUM_LIMBS: nat := 128
  const WIDE_LIMBS: nat := 256

  // ---------- comparison, subtraction, shifts ----------

  method CmpLimbs(a: array<U32>, b: array<U32>, n: nat) returns (r: int)
    requires n <= a.Length && n <= b.Length
    ensures r == 1 <==> Val(a[..], n) > Val(b[..], n)
    ensures r == 0 <==> Val(a[..], n) == Val(b[..], n)
    ensures r == -1 <==> Val(a[..], n) < Val(b[..], n)
  {
    var i := n - 1;
    while i >= 0
      invariant -1 <= i < n
      invariant forall k :: i < k < n ==> a[k] == b[k]
    {
      if a[i] != b[i] {
        DecidedAtLimb(a[..], b[..], i, n);
        return if a[i] > b[i] then 1 else -1;
      }
      i := i - 1;
    }
    ValFrame(a[..], b[..], n);
    return 0;
  }

  lemma DecidedAtLimb(a: seq<U32>, b: seq<U32>, i: nat, n: nat)
    requires i < n <= |a| && n <= |b| && a[i] != b[i]
    requires forall k :: i < k < n ==> a[k] == b[k]
    ensures a[i] > b[i] <==> Val(a, n) > Val(b, n)
    ensures Val(a, n) != Val(b, n)
  {
    ValSameHigh(a, b, i + 1, n);
    ValBound(a, i);
    ValBound(b, i);
    if a[i] > b[i] {
      MulLe(b[i] + 1, a[i], Weight(i));
      MulAdd(b[i], 1, Weight(i));
    } else {
      MulLe(a[i] + 1, b[i], Weight(i));
      MulAdd(a[i], 1, Weight(i));
    }
  }

  /** r := a - b over n limbs; r may be either operand. */
  method SubLimbs(r: array<U32>, a: array<U32>, b: array<U32>, n: nat)
    requires n <= r.Length && n <= a.Length && n <= b.Length
    requires Val(a[..], n) >= Val(b[..], n)
    modifies r
    ensures Val(r[..], n) == old(Val(a[..], n)) - old(Val(b[..], n))
    ensures forall k :: n <= k < r.Length ==> r[k] == old(r[k])
  {
    ghost var x, y := a[..], b[..];
    var borrow := 0;
    var i := 0;
    while i < n
      invariant 0 <= i <= n && 0 <= borrow <= 1
      invariant forall k :: i <= k < a.Length ==> a[k] == x[k]
      invariant forall k :: i <= k < b.Length ==> b[k] == y[k]
      invariant forall k :: n <= k < r.Length ==> r[k] == old(r[k])
      invariant Val(r[..], i) == Val(x, i) - Val(y, i) + borrow * Weight(i)
    {
      var diff := a[i] - b[i] - borrow;
      ghost var before, borrowIn := r[..], borrow;
      if diff < 0 {
        diff := diff + 0x1_0000_0000;
        borrow := 1;
      } else {
        borrow := 0;
      }
      r[i] := diff;
      ValFrame(before, r[..], i);
      SubStep(x[i], y[i], borrowIn, diff, borrow, Weight(i));
      i := i + 1;
    }
    ValBound(r[..], n);
    ValBound(x, n);
    ValBound(y, n);
  }

  lemma SubStep(x: int, y: int, borrowIn: int, diff: int, borrowOut: int, w: int)
    requires diff == x - y - borrowIn + borrowOut * BASE
    ensures borrowIn * w + diff * w == x * w - y * w + borrowOut * (BASE * w)
  {
    assert borrowOut * (BASE * w) == borrowOut * BASE * w;
    assert (diff + borrowIn) * w == (x - y + borrowOut * BASE) * w;
    MulAdd(diff, borrowIn, w);
    MulAdd(x - y, borrowOut * BASE, w);
    MulAdd(x - y, y, w);
  }

  method Shr1Limbs(a: array<U32>, n: nat)
    requires n <= a.Length
    modifies a
    ensures Val(a[..], n) == old(Val(a[..], n)) / 2
    ensures forall k :: n <= k < a.Length ==> a[k] == old(a[k])
  {
    ghost var s := a[..];
    var carry := 0;
    var i := n - 1;
    while i >= 0
      invariant -1 <= i < n && 0 <= carry <= 1
      invariant forall k :: 0 <= k <= i ==> a[k] == s[k]
      invariant forall k :: n <= k < a.Length ==> a[k] == s[k]
      invariant 2 * Val(a[..], n) + carry * Weight(i + 1) == Val(s, n) + Val(s, i + 1)
    {
      var newCarry := a[i] % 2;
      ghost var before := a[..];
      var half := a[i] / 2 + carry * 0x8000_0000;
      a[i] := half;
      ValUpdate(before, i, half, n);
      assert a[..] == before[i := half];
      ShrStep(s[i], carry, half, newCarry, Weight(i));
      carry := newCarry;
      i := i - 1;
    }
  }

  lemma ShrStep(x: int, carryIn: int, half: int, carryOut: int, w: int)
    requires 2 * half + carryOut == x + carryIn * BASE
    ensures 2 * ((half - x) * w) + carryOut * w + x * w == carryIn * (BASE * w)
  {
    assert carryIn * (BASE * w) == carryIn * BASE * w;
    assert 2 * ((half - x) * w) == (2 * half - 2 * x) * w;
    MulAdd(2 * half - 2 * x, carryOut, w);
    MulAdd(2 * half - 2 * x + carryOut, x, w);
  }

  /** a := a * 2^bits, truncated to n limbs. */
  method ShlLimbs(a: array<U32>, n: nat, bits: nat)
    requires n <= a.Length && bits <= 32 * n
    modifies a
    ensures Val(a[..], n) == old(Val(a[..], n)) * Pow2(bits) % Weight(n)
    ensures forall k :: n <= k < a.Length ==> a[k] == old(a[k])
  {
    ghost var s := a[..];
    var limbShift := bits / 32;
    var bitShift := bits % 32;
    if limbShift > 0 {
      ShlWholeLimbs(a, n, limbShift);
    }
    ghost var t := a[..];
    ghost var lost := LimbShiftValue(s, t, limbShift, n);
    ghost var spilled := 0;
    if bitShift > 0 {
      spilled := ShlWithinLimbs(a, n, bitShift);
    }
    ValBound(a[..], n);
    ShlTotal(Val(s, n), Val(t, n), Val(a[..], n), bits, lost, spilled, n);
  }

  method ShlWholeLimbs(a: array<U32>, n: nat, limbShift: nat)
    requires limbShift <= n <= a.Length
    modifies a
    ensures forall k :: 0 <= k < limbShift ==> a[k] == 0
    ensures forall k :: limbShift <= k < n ==> a[k] == old(a[k - limbShift])
    ensures forall k :: n <= k < a.Length ==> a[k] == old(a[k])
  {
    ghost var s := a[..];
    var i := n - 1;
    while i >= limbShift
      invariant limbShift - 1 <= i < n
      invariant forall k :: 0 <= k <= i ==> a[k] == s[k]
      invariant forall k :: i < k < n ==> a[k] == s[k - limbShift]
      invariant forall k :: n <= k < a.Length ==> a[k] == s[k]
    {
      a[i] := a[i - limbShift];
      i := i - 1;
    }
    i := 0;
    while i < limbShift
      invariant 0 <= i <= limbShift
      invariant forall k :: 0 <= k < i ==> a[k] == 0
      invariant forall k :: limbShift <= k < n ==> a[k] == s[k - limbShift]
      invariant forall k :: n <= k < a.Length ==> a[k] == s[k]
    {
      a[i] := 0;
      i := i + 1;
    }
  }

  method ShlWithinLimbs(a: array<U32>, n: nat, bitShift: nat) returns (ghost spilled: nat)
    requires n <= a.Length && 0 < bitShift < 32
    modifies a
    ensures Val(a[..], n) + spilled * Weight(n) == old(Val(a[..], n)) * Pow2(bitShift)
    ensures forall k :: n <= k < a.Length ==> a[k] == old(a[k])
  {
    ghost var t := a[..];
    var p, q := Pow2(bitShift), Pow2(32 - bitShift);
    Pow2Add(bitShift, 32 - bitShift);
    Pow2Of32();
    var carry := 0;
    var i := 0;
    while i < n
      invariant 0 <= i <= n && 0 <= carry < p
      invariant forall k :: i <= k < a.Length ==> a[k] == t[k]
      invariant Val(a[..], i) + carry * Weight(i) == Val(t, i) * p
    {
      ghost var before := a[..];
      ShlLimb(a[i], p, q, carry);
      MulLe(0, a[i], p);
      var scaled := a[i] * p;
      var newCarry := a[i] / q;
      var limb := scaled % 0x1_0000_0000 + carry;
      ShlStep(before, t, i, p, carry, limb, newCarry);
      a[i] := limb;
      assert a[..] == before[i := limb];
      carry := newCarry;
      i := i + 1;
    }
    spilled := carry;
  }

  /** Moving limbs up by d multiplies by Weight(d), losing what leaves the top. */
  lemma LimbShiftValue(s: seq<U32>, t: seq<U32>, d: nat, n: nat) returns (lost: nat)
    requires d <= n <= |s| == |t|
    requires forall k :: 0 <= k < d ==> t[k] == 0
    requires forall k :: d <= k < n ==> t[k] == s[k - d]
    ensures Val(t, n) + lost * Weight(n) == Val(s, n) * Weight(d)
  {
    ShiftedLow(s, t, d, n);
    lost := ValSplit(s, n - d, n);
    MulAdd(Val(s, n - d), lost * Weight(n - d), Weight(d));
    MulAssoc(lost, Weight(n - d), Weight(d));
    WeightAdd(n - d, d);
  }

  lemma {:induction false} ShiftedLow(s: seq<U32>, t: seq<U32>, d: nat, n: nat)
    requires d <= n <= |s| == |t|
    requires forall k :: 0 <= k < d ==> t[k] == 0
    requires forall k :: d <= k < n ==> t[k] == s[k - d]
    ensures Val(t, n) == Val(s, n - d) * Weight(d)
  {
    if n == d {
      ValZero(t, 0, n);
    } else {
      ShiftedLow(s, t, d, n - 1);
      WeightAdd(n - 1 - d, d);
      MulAdd(Val(s, n - 1 - d), s[n - 1 - d] * Weight(n - 1 - d), Weight(d));
      MulAssoc(s[n - 1 - d], Weight(n - 1 - d), Weight(d));
    }
  }

  /** Splitting x * p at 2^32, for p * q == 2^32: the bits that stay and the bits that leave. */
  lemma ShlLimb(x: nat, p: nat, q: nat, carry: nat)
    requires p > 0 && q > 0 && p * q == BASE && x < BASE && carry < p
    ensures x / q < p
    ensures x * p == x * p % BASE + x / q * BASE
    ensures x * p % BASE + carry < BASE
  {
    var h, l := x / q, x % q;
    DivModFacts(x, q);
    QuotientBelow(x, q, p);
    MulAdd(h * q, l, p);
    assert h * q * p == h * BASE by { MulAssoc(h, q, p); MulCommutes(q, p); }
    MulLe(l + 1, q, p);
    MulAdd(l, 1, p);
    MulCommutes(q, p);
    MulLe(0, l, p);
    DivModUnique(x * p, BASE, h, l * p);
  }

  lemma ShlStep(before: seq<U32>, t: seq<U32>, i: nat, p: nat, carry: nat, limb: U32, newCarry: nat)
    requires i < |before| == |t| && before[i] == t[i]
    requires Val(before, i) + carry * Weight(i) == Val(t, i) * p
    requires limb + newCarry * BASE == t[i] * p + carry
    ensures Val(before[i := limb], i + 1) + newCarry * Weight(i + 1) == Val(t, i + 1) * p
  {
    ValFrame(before, before[i := limb], i);
    ShlArith(Val(before, i), Val(t, i), t[i], p, carry, limb, newCarry, Weight(i));
  }

  lemma ShlArith(low: int, source: int, x: int, p: int, carry: int, limb: int, newCarry: int, w: int)
    requires low + carry * w == source * p
    requires limb + newCarry * BASE == x * p + carry
    ensures low + limb * w + newCarry * (BASE * w) == (source + x * w) * p
  {
    assert newCarry * (BASE * w) == newCarry * BASE * w;
    MulAdd(limb, newCarry * BASE, w);
    MulAdd(x * p, carry, w);
    MulAdd(source, x * w, p);
    assert x * w * p == x * p * w;
  }

  lemma ShlTotal(before: nat, moved: nat, after: nat, bits: nat, lost: nat, spilled: nat, n: nat)
    requires moved + lost * Weight(n) == before * Weight(bits / 32)
    requires after + spilled * Weight(n) == moved * Pow2(bits % 32)
    requires after < Weight(n)
    ensures after == before * Pow2(bits) % Weight(n)
  {
    var k, r := bits / 32, bits % 32;
    WeightIsPow2(k);
    Pow2Add(32 * k, r);
    assert bits == 32 * k + r;
    Truncated(before, moved, after, Weight(k), Pow2(r), Weight(n), lost, spilled);
  }

  lemma Truncated(before: nat, moved: nat, after: nat, d: nat, p: nat, w: nat, lost: nat, spilled: nat)
    requires moved + lost * w == before * d
    requires after + spilled * w == moved * p
    requires after < w
    ensures after == before * (d * p) % w
  {
    MulAssoc(before, d, p);
    MulAdd(moved, lost * w, p);
    assert lost * w * p == lost * p * w;
    MulAdd(spilled, lost * p, w);
    DivModUnique(before * (d * p), w, spilled + lost * p, after);
  }

  // ---------- bit positions ----------

  method HighestBitIndex(a: array<U32>, n: nat) returns (r: int)
    requires n <= a.Length
    ensures r == -1 <==> Val(a[..], n) == 0
    ensures r >= -1
    ensures r >= 0 ==> Pow2(r) <= Val(a[..], n) < Pow2(r + 1) && r < 32 * n
  {
    var i := n - 1;
    while i >= 0
      invariant -1 <= i < n
      invariant forall k :: i < k < n ==> a[k] == 0
    {
      ValZero(a[..], i + 1, n);
      if a[i] != 0 {
        var v := a[i];
        var bit := 31;
        Pow2Of32();
        while v / Pow2(bit) % 2 == 0
          invariant 0 <= bit <= 31 && v < Pow2(bit + 1)
          decreases bit
        {
          assert v / Pow2(bit) < 2 by { QuotientBelow(v, Pow2(bit), 2); }
          assert v < Pow2(bit) by { DivModFacts(v, Pow2(bit)); }
          bit := bit - 1;
        }
        assert v >= Pow2(bit) by {
          if v < Pow2(bit) { DivModUnique(v, Pow2(bit), 0, v); }
        }
        TopLimbBounds(a[..], i, bit);
        return i * 32 + bit;
      }
      i := i - 1;
    }
    ValZero(a[..], 0, n);
    return -1;
  }

  lemma DivModFacts(x: nat, m: nat)
    requires m > 0
    ensures x == x / m * m + x % m && 0 <= x % m < m
  {
    MulCommutes(x / m, m);
  }

  lemma QuotientBelow(x: nat, m: nat, q: nat)
    requires m > 0 && x < q * m
    ensures x / m < q
  {
    DivModFacts(x, m);
    if x / m >= q { MulLe(q, x / m, m); }
  }

  lemma TopLimbBounds(s: seq<U32>, i: nat, bit: nat)
    requires i < |s| && Pow2(bit) <= s[i] < Pow2(bit + 1)
    ensures Pow2(32 * i + bit) <= Val(s, i + 1) < Pow2(32 * i + bit + 1)
  {
    var e := 32 * i;
    WeightIsPow2(i);
    Pow2Add(bit, e);
    Pow2Add(bit + 1, e);
    ValBound(s, i);
    BetweenMultiples(Val(s, i), s[i], Weight(i), Pow2(bit), Pow2(bit + 1));
  }

  lemma BetweenMultiples(low: nat, x: nat, w: nat, p: nat, q: nat)
    requires low < w && p <= x < q
    ensures p * w <= low + x * w < q * w
  {
    MulLe(p, x, w);
    MulLe(x + 1, q, w);
    MulAdd(x, 1, w);
  }

  method TestBit(s: array<U32>, bitIndex: nat) returns (bit: nat)
    requires s.Length == BIGNUM_LIMBS && bitIndex < 32 * BIGNUM_LIMBS
    ensures bit == Val(s[..], BIGNUM_LIMBS) / Pow2(bitIndex) % 2
  {
    var limbIndex := bitIndex / 32;
    var shift := bitIndex % 32;
    BitOfValue(s[..], limbIndex, shift, BIGNUM_LIMBS);
    return s[limbIndex] / Pow2(shift) % 2;
  }

  lemma BitOfValue(s: seq<U32>, k: nat, shift: nat, n: nat)
    requires k < n <= |s| && shift < 32
    ensures Val(s, n) / Pow2(32 * k + shift) % 2 == s[k] / Pow2(shift) % 2
  {
    var high := ValSplit(s, k, n);
    var q: nat :| high == s[k] + q * BASE;
    var e := 32 * k;
    ValBound(s, k);
    WeightIsPow2(k);
    Pow2Add(e, shift);
    Pow2Add(31 - shift, shift + 1);
    Pow2Add(31, 1);
    Pow2Of32();
    QuotientOfQuotient(Val(s, n), Weight(k), Pow2(shift), high, Val(s, k));
    MulAssoc(Pow2(31 - shift), 2, Pow2(shift));
    BitBelowBase(s[k], q, Pow2(shift), Pow2(31 - shift));
  }

  lemma BitBelowBase(x: nat, q: nat, p: nat, r: nat)
    requires p > 0 && r * 2 * p == BASE
    ensures (x + q * BASE) / p % 2 == x / p % 2
  {
    DivModFacts(x, p);
    assert q * BASE == q * (r * 2) * p by { MulAssoc(q, r * 2, p); }
    MulAdd(x / p, q * (r * 2), p);
    DivModUnique(x + q * BASE, p, x / p + q * (r * 2), x % p);
    assert q * (r * 2) == 2 * (q * r);
    EvenSum(x / p, q * r, q * (r * 2));
  }

  lemma EvenSum(x: nat, h: nat, e: nat)
    requires e == 2 * h
    ensures (x + e) % 2 == x % 2
  {
  }

  lemma QuotientOfQuotient(x: nat, w: nat, p: nat, high: nat, low: nat)
    requires w > 0 && p > 0 && x == low + high * w && low < w
    ensures w * p > 0
    ensures x / (w * p) == high / p
  {
    MulLe(1, p, w);
    MulCommutes(w, p);
    var h, l := high / p, high % p;
    DivModFacts(high, p);
    MulAdd(h * p, l, w);
    assert h * p * w == h * (w * p) by { MulAssoc(h, p, w); }
    MulLe(l + 1, p, w);
    MulAdd(l, 1, w);
    MulLe(0, l, w);
    DivModUnique(x, w * p, h, l * w + low);
  }

  // ---------- multiplication ----------

  method MulLimbs(out: array<U32>, a: array<U32>, an: nat, b: array<U32>, bn: nat)
    requires an <= a.Length && bn <= b.Length && an + bn <= out.Length
    requires out != a && out != b
    modifies out
    ensures Val(out[..], an + bn) == Val(a[..], an) * Val(b[..], bn)
  {
    var n := an + bn;
    var k := 0;
    while k < n
      invariant 0 <= k <= n
      invariant forall j :: 0 <= j < k ==> out[j] == 0
    {
      out[k] := 0;
      k := k + 1;
    }
    ValZero(out[..], 0, n);
    var i := 0;
    while i < an
      invariant 0 <= i <= an
      invariant a[..] == old(a[..]) && b[..] == old(b[..])
      invariant forall k :: i + bn <= k < n ==> out[k] == 0
      invariant Val(out[..], n) == Val(a[..], i) * Val(b[..], bn)
    {
      MulRow(out, a[i], i, b, bn, n);
      RowTotal(Val(a[..], i), a[i], Weight(i), Val(b[..], bn));
      i := i + 1;
    }
  }

  lemma RowTotal(va: int, x: int, w: int, vb: int)
    ensures va * vb + x * w * vb == (va + x * w) * vb
  {
    MulAdd(va, x * w, vb);
  }

  /** One row of the schoolbook product: out += x * b * Weight(i), carries included. */
  method MulRow(out: array<U32>, x: U32, i: nat, b: array<U32>, bn: nat, ghost n: nat)
    requires bn <= b.Length && i + bn < n <= out.Length && out != b
    requires forall k :: i + bn <= k < n ==> out[k] == 0
    modifies out
    ensures forall k :: i + 1 + bn <= k < n ==> out[k] == 0
    ensures Val(out[..], n) == old(Val(out[..], n)) + x * Weight(i) * Val(b[..], bn)
  {
    ghost var o, bs := out[..], b[..];
    ghost var total := Val(o, n);
    var carry := 0;
    var j := 0;
    while j < bn
      invariant 0 <= j <= bn && 0 <= carry < BASE
      invariant b[..] == bs
      invariant forall k :: i + j <= k < n ==> out[k] == o[k]
      invariant total == Val(o, n) + x * Weight(i) * Val(bs, j)
      invariant Val(out[..], n) + carry * Weight(i + j) == total
    {
      ghost var before := out[..];
      var prod := x * b[j] + out[i + j] + carry;
      ProductFits(x, b[j], prod, out[i + j], carry);
      RowStep(before, x, i, bs, j, carry, n);
      out[i + j] := prod % 0x1_0000_0000;
      carry := prod / 0x1_0000_0000;
      assert out[..] == before[i + j := prod % 0x1_0000_0000];
      total := total + x * bs[j] * Weight(i + j);
      j := j + 1;
    }
    var idx := i + bn;
    while carry != 0
      invariant 0 <= carry < BASE
      invariant carry != 0 ==> idx == i + bn && out[idx] == 0
      invariant forall k :: i + 1 + bn <= k < n ==> out[k] == 0
      invariant Val(out[..], n) + carry * Weight(i + bn) == total
      decreases carry
    {
      ghost var before := out[..];
      var sum := out[idx] + carry;
      out[idx] := sum % 0x1_0000_0000;
      ValUpdate(before, idx, sum % 0x1_0000_0000, n);
      assert out[..] == before[idx := sum % 0x1_0000_0000];
      carry := sum / 0x1_0000_0000;
      idx := idx + 1;
    }
  }

  /** A limb product plus two limbs never leaves 64 bits. */
  lemma ProductFits(x: U32, y: U32, prod: nat, o: U32, carry: U32)
    requires prod == x * y + o + carry
    ensures prod < 0x1_0000_0000_0000_0000 && prod / BASE < BASE
  {
    MulLe(0, x, y);
    MulLe(x, 0xFFFF_FFFF, y);
    BelowSquare(prod, x * y, y);
  }

  lemma BelowSquare(prod: nat, xy: nat, y: U32)
    requires xy <= 0xFFFF_FFFF * y && prod <= xy + 2 * 0xFFFF_FFFF
    ensures prod < 0x1_0000_0000_0000_0000 && prod / BASE < BASE
  {
  }

  lemma RowStep(before: seq<U32>, x: U32, i: nat, b: seq<U32>, j: nat, carry: U32, n: nat)
    requires j < |b| && i + j < n <= |before|
    ensures var prod := x * b[j] + before[i + j] + carry;
      && Val(before[i + j := prod % BASE], n) + prod / BASE * Weight(i + j + 1)
         == Val(before, n) + carry * Weight(i + j) + x * b[j] * Weight(i + j)
    ensures x * Weight(i) * Val(b, j + 1) == x * Weight(i) * Val(b, j) + x * b[j] * Weight(i + j)
  {
    var prod := x * b[j] + before[i + j] + carry;
    ValUpdate(before, i + j, prod % BASE, n);
    CarryStep(before[i + j], x * b[j] + carry, prod % BASE, prod / BASE, Weight(i + j));
    MulAdd(x * b[j], carry, Weight(i + j));
    WeightAdd(i, j);
    RowSum(x, Weight(i), Val(b, j), b[j], Weight(j));
  }

  lemma CarryStep(o: int, addend: int, lo: int, hi: int, w: int)
    requires lo + hi * BASE == o + addend
    ensures (lo - o) * w + hi * (BASE * w) == addend * w
  {
    assert hi * (BASE * w) == hi * BASE * w;
    MulAdd(lo - o, hi * BASE, w);
  }

  lemma RowSum(x: int, wi: int, vb: int, bj: int, wj: int)
    ensures x * wi * (vb + bj * wj) == x * wi * vb + x * bj * (wi * wj)
  {
    assert x * bj * (wi * wj) == x * wi * (bj * wj);
    MulAdd(vb, bj * wj, x * wi);
  }

  // ---------- reduction ----------

  /** What reduction computes: the remainder, or truncation to n limbs for modulus zero. */
  ghost function Reduced(x: nat, m: nat, n: nat): nat {
    if m == 0 then x % Weight(n) else x % m
  }

  method CopyLimbs(dst: array<U32>, src: array<U32>, n: nat)
    requires n <= dst.Length && n <= src.Length
    modifies dst
    ensures forall k :: 0 <= k < n ==> dst[k] == old(src[k])
    ensures forall k :: n <= k < dst.Length ==> dst[k] == old(dst[k])
  {
    var i := 0;
    while i < n
      invariant 0 <= i <= n
      invariant forall k :: 0 <= k < i ==> dst[k] == old(src[k])
      invariant forall k :: n <= k < dst.Length ==> dst[k] == old(dst[k])
      invariant forall k :: i <= k < n ==> src[k] == old(src[k])
    {
      dst[i] := src[i];
      i := i + 1;
    }
  }

  /** Bit-serial restoring division; `wide` is scratch. */
  method ModReduceWide(wide: array<U32>, wideN: nat, mod: array<U32>, modN: nat, out: array<U32>)
    requires modN <= wideN <= wide.Length && wideN <= WIDE_LIMBS
    requires modN <= mod.Length && modN <= out.Length
    requires wide != mod && wide != out
    modifies wide, out
    ensures Val(out[..], modN) == Reduced(old(Val(wide[..], wideN)), old(Val(mod[..], modN)), modN)
  {
    ghost var x, m := Val(wide[..], wideN), Val(mod[..], modN);
    var topRem := HighestBitIndex(wide, wideN);
    var topMod := HighestBitIndex(mod, modN);
    ValBound(mod[..], modN);
    if topRem < 0 || topRem < topMod {
      if topRem >= 0 { Pow2Monotone(topRem + 1, topMod); }
      CopyLimbs(out, wide, modN);
      ValFrame(out[..], wide[..], modN);
      LowLimbsAreReduced(wide[..], modN, wideN, x, m, 0);
      return;
    }

    var shifted := new U32[WIDE_LIMBS];
    LoadModulus(shifted, mod, modN, wideN);
    var shift := topRem - topMod;
    ShlLimbs(shifted, wideN, shift);
    StartOfDivision(x, m, topRem, topMod, wideN);
    ghost var q := RestoringDivision(wide, shifted, wideN, shift, m);
    LowLimbsAreReduced(wide[..], modN, wideN, x, m, q);
    CopyLimbs(out, wide, modN);
    ValFrame(out[..], wide[..], modN);
  }

  method LoadModulus(shifted: array<U32>, mod: array<U32>, modN: nat, wideN: nat)
    requires modN <= wideN <= shifted.Length && modN <= mod.Length && shifted != mod
    modifies shifted
    ensures Val(shifted[..], wideN) == Val(mod[..], modN)
  {
    CopyLimbs(shifted, mod, modN);
    var i := modN;
    while i < wideN
      invariant modN <= i <= wideN
      invariant forall k :: 0 <= k < modN ==> shifted[k] == mod[k]
      invariant forall k :: modN <= k < i ==> shifted[k] == 0
    {
      shifted[i] := 0;
      i := i + 1;
    }
    ValFrame(shifted[..], mod[..], modN);
    ValZero(shifted[..], modN, wideN);
  }

  /** The compare-subtract-halve loop; the remainder stays below twice the shifted modulus. */
  method RestoringDivision(wide: array<U32>, shifted: array<U32>, n: nat, shift: nat, ghost m: nat)
    returns (ghost q: nat)
    requires n <= wide.Length && n <= shifted.Length && wide != shifted
    requires Val(shifted[..], n) == m * Pow2(shift)
    requires m > 0 ==> Val(wide[..], n) < m * Pow2(shift + 1)
    modifies wide, shifted
    ensures old(Val(wide[..], n)) == Val(wide[..], n) + q * m
    ensures m > 0 ==> Val(wide[..], n) < m
  {
    ghost var x := Val(wide[..], n);
    q := 0;
    var s: int := shift;
    while s >= 0
      invariant -1 <= s
      invariant s >= 0 ==> Val(shifted[..], n) == m * Pow2(s)
      invariant m > 0 ==> Val(wide[..], n) < m * Pow2(s + 1)
      invariant x == Val(wide[..], n) + q * m
    {
      DivisionStep(m, s, q);
      var c := CmpLimbs(wide, shifted, n);
      if c >= 0 {
        SubLimbs(wide, wide, shifted, n);
        q := q + Pow2(s);
      }
      if s > 0 {
        Shr1Limbs(shifted, n);
      }
      s := s - 1;
    }
  }

  /** A remainder left in `wide` is read off its low limbs. */
  lemma LowLimbsAreReduced(wide: seq<U32>, modN: nat, wideN: nat, x: nat, m: nat, q: nat)
    requires modN <= wideN <= |wide|
    requires x == Val(wide, wideN) + q * m
    requires m > 0 ==> Val(wide, wideN) < m <= Weight(modN)
    ensures Val(wide, modN) == Reduced(x, m, modN)
  {
    if m > 0 {
      ValFitsLow(wide, modN, wideN);
      DivModUnique(x, m, q, Val(wide, wideN));
    } else {
      var high := ValSplit(wide, modN, wideN);
      ValBound(wide, modN);
      DivModUnique(x, Weight(modN), high, Val(wide, modN));
    }
  }

  lemma StartOfDivision(x: nat, m: nat, topRem: nat, topMod: int, n: nat)
    requires Pow2(topRem) <= x < Pow2(topRem + 1) && topRem < 32 * n && -1 <= topMod <= topRem
    requires topMod == -1 <==> m == 0
    requires topMod >= 0 ==> Pow2(topMod) <= m < Pow2(topMod + 1)
    ensures m * Pow2(topRem - topMod) % Weight(n) == m * Pow2(topRem - topMod)
    ensures m > 0 ==> x < m * Pow2(topRem - topMod + 1)
  {
    WeightIsPow2(n);
    var shift := topRem - topMod;
    if m > 0 {
      Pow2Add(topMod + 1, shift);
      Pow2Add(topMod, shift + 1);
      MulLe(m, Pow2(topMod + 1) - 1, Pow2(shift));
      MulAdd(Pow2(topMod + 1), -1, Pow2(shift));
      MulLe(Pow2(topMod), m, Pow2(shift + 1));
      Pow2Monotone(topRem + 1, 32 * n);
      MulLe(0, m, Pow2(shift));
    }
    DivModUnique(m * Pow2(shift), Weight(n), 0, m * Pow2(shift));
  }

  lemma DivisionStep(m: nat, s: nat, q: nat)
    ensures m * Pow2(s + 1) == 2 * (m * Pow2(s))
    ensures s > 0 ==> m * Pow2(s) / 2 == m * Pow2(s - 1)
    ensures (q + Pow2(s)) * m == q * m + m * Pow2(s)
  {
    assert m * (2 * Pow2(s)) == 2 * (m * Pow2(s));
    if s > 0 { assert m * (2 * Pow2(s - 1)) == 2 * (m * Pow2(s - 1)); }
    MulAdd(q, Pow2(s), m);
  }

  // ---------- modular multiplication and exponentiation ----------

  /** The number a full-width bignum denotes. */
  ghost function Num(s: seq<U32>): nat
    requires |s| == BIGNUM_LIMBS
  {
    Val(s, BIGNUM_LIMBS)
  }

  ghost function Pow(b: nat, e: nat): nat {
    if e == 0 then 1 else b * Pow(b, e - 1)
  }

  /** The modulus the arithmetic really uses: with modulus zero nothing is ever
      subtracted, and products are truncated to the width of a bignum. */
  ghost function Effective(m: nat): (r: nat)
    ensures r > 0 && forall x: nat :: Reduced(x, m, BIGNUM_LIMBS) == x % r
  {
    if m == 0 then Weight(BIGNUM_LIMBS) else m
  }

  /** What square-and-multiply returns. The accumulator starts at 1 and is reduced
      only by a multiplication, so exponent zero gives 1 whatever the modulus. */
  ghost function ModExpResult(b: nat, e: nat, m: nat): nat {
    if e == 0 then 1 else Pow(b, e) % Effective(m)
  }

  /** result := a * b mod m; result may be a, b or mod itself. */
  method MulMod(result: array<U32>, a: array<U32>, b: array<U32>, mod: array<U32>)
    requires result.Length == a.Length == b.Length == mod.Length == BIGNUM_LIMBS
    modifies result
    ensures Num(result[..]) == old(Num(a[..]) * Num(b[..]) % Effective(Num(mod[..])))
  {
    var wide := new U32[WIDE_LIMBS];
    MulLimbs(wide, a, BIGNUM_LIMBS, b, BIGNUM_LIMBS);
    var reduced := new U32[BIGNUM_LIMBS];
    ModReduceWide(wide, WIDE_LIMBS, mod, BIGNUM_LIMBS, reduced);
    CopyLimbs(result, reduced, BIGNUM_LIMBS);
    ValFrame(result[..], reduced[..], BIGNUM_LIMBS);
  }

  method SetU32(n: array<U32>, value: U32)
    requires n.Length == BIGNUM_LIMBS
    modifies n
    ensures Num(n[..]) == value
  {
    var i := 0;
    while i < BIGNUM_LIMBS
      invariant 0 <= i <= BIGNUM_LIMBS
      invariant forall k :: 0 <= k < i ==> n[k] == 0
    {
      n[i] := 0;
      i := i + 1;
    }
    n[0] := value;
    ValZero(n[..], 1, BIGNUM_LIMBS);
    assert Val(n[..], 1) == Val(n[..], 0) + n[0] * Weight(0);
  }

  method ModExp(result: array<U32>, base: array<U32>, exp: array<U32>, mod: array<U32>)
    requires result.Length == base.Length == exp.Length == mod.Length == 128
    modifies result
    ensures Num(result[..]) == old(ModExpResult(Num(base[..]), Num(exp[..]), Num(mod[..])))
  {
    ghost var e, r := Num(exp[..]), Effective(Num(mod[..]));
    var acc := new U32[BIGNUM_LIMBS];
    SetU32(acc, 1);
    var b := new U32[BIGNUM_LIMBS];
    CopyLimbs(b, base, BIGNUM_LIMBS);
    ValFrame(b[..], base[..], BIGNUM_LIMBS);
    ghost var x := Num(b[..]);
    var top := HighestBitIndex(exp, BIGNUM_LIMBS);
    ghost var prefix := 0;
    if top >= 0 { DivModUnique(e, Pow2(top + 1), 0, e); }
    var i := top;
    while i >= 0
      invariant -1 <= i <= top
      invariant exp[..] == old(exp[..]) && mod[..] == old(mod[..]) && Num(b[..]) == x
      invariant prefix == e / Pow2(i + 1)
      invariant Num(acc[..]) % r == Pow(x, prefix) % r
      invariant if i == top then Num(acc[..]) == 1 else Num(acc[..]) < r
    {
      PrefixStep(e, i);
      var bit := TestBit(exp, i);
      SquareAndMultiply(acc, b, mod, bit, prefix);
      prefix := 2 * prefix + bit;
      i := i - 1;
    }
    if top >= 0 { DivModUnique(Num(acc[..]), r, 0, Num(acc[..])); }
    CopyLimbs(result, acc, BIGNUM_LIMBS);
    ValFrame(result[..], acc[..], BIGNUM_LIMBS);
  }

  /** One exponent bit: acc := acc^2, times the base when the bit is set. */
  method SquareAndMultiply(acc: array<U32>, b: array<U32>, mod: array<U32>, bit: nat, ghost prefix: nat)
    requires acc.Length == b.Length == mod.Length == BIGNUM_LIMBS && acc != b && acc != mod && bit <= 1
    requires Num(acc[..]) % Effective(Num(mod[..])) == Pow(Num(b[..]), prefix) % Effective(Num(mod[..]))
    modifies acc
    ensures var r := Effective(Num(mod[..]));
      Num(acc[..]) < r && Num(acc[..]) % r == Pow(Num(b[..]), 2 * prefix + bit) % r
  {
    ghost var x, r := Num(b[..]), Effective(Num(mod[..]));
    SquareStep(x, prefix, Num(acc[..]), r);
    MulMod(acc, acc, acc, mod);
    if bit != 0 {
      MultiplyStep(x, 2 * prefix, Num(acc[..]), r);
      MulMod(acc, acc, b, mod);
    }
  }

  lemma PrefixStep(e: nat, i: nat)
    ensures e / Pow2(i) == 2 * (e / Pow2(i + 1)) + e / Pow2(i) % 2
  {
    var p := Pow2(i);
    DivModFacts(e, p);
    QuotientOfQuotient(e, p, 2, e / p, e % p);
    MulCommutes(p, 2);
  }

  lemma {:induction false} PowAdd(b: nat, i: nat, j: nat)
    ensures Pow(b, i + j) == Pow(b, i) * Pow(b, j)
  {
    if i == 0 {
    } else {
      PowAdd(b, i - 1, j);
      MulAssoc(b, Pow(b, i - 1), Pow(b, j));
    }
  }

  lemma ModProduct(x: nat, y: nat, m: nat)
    requires m > 0
    ensures (x % m) * (y % m) % m == x * y % m
  {
    var q, r, s, t := x / m, x % m, y / m, y % m;
    DivModFacts(x, m);
    DivModFacts(y, m);
    MulAdd(q * m, r, y);
    MulAdd(s * m, t, r);
    assert q * m * y == q * y * m;
    assert s * m * r == s * r * m;
    MulCommutes(r, y);
    MulCommutes(t, r);
    MulAdd(q * y, s * r, m);
    var d := r * t / m;
    DivModFacts(r * t, m);
    MulAdd(q * y + s * r, d, m);
    DivModUnique(x * y, m, q * y + s * r + d, r * t % m);
  }

  lemma SquareStep(x: nat, e: nat, acc: nat, r: nat)
    requires r > 0 && acc % r == Pow(x, e) % r
    ensures 0 <= acc * acc % r < r
    ensures acc * acc % r % r == Pow(x, 2 * e) % r
  {
    MulLe(0, acc, acc);
    PowAdd(x, e, e);
    ModProduct(acc, acc, r);
    ModProduct(Pow(x, e), Pow(x, e), r);
    DivModUnique(acc * acc % r, r, 0, acc * acc % r);
  }

  lemma MultiplyStep(x: nat, e: nat, acc: nat, r: nat)
    requires r > 0 && acc % r == Pow(x, e) % r
    ensures 0 <= acc * x % r < r
    ensures acc * x % r % r == Pow(x, e + 1) % r
  {
    MulLe(0, acc, x);
    ModProduct(acc, x, r);
    ModProduct(Pow(x, e), x, r);
    MulCommutes(Pow(x, e), x);
    DivModUnique(acc * x % r, r, 0, acc * x % r);
  }

  /** RSAEP (section 5.1.1 of RFC 8017): for a modulus above zero the result is the
      power's remainder exactly when the modulus exceeds 1 or the exponent is not zero. */
  lemma ModExpIsPowerModM(b: nat, e: nat, m: nat)
    requires m > 0
    ensures ModExpResult(b, e, m) == Pow(b, e) % m <==> m > 1 || e > 0
  {
    if e == 0 && m > 1 { DivModUnique(1, m, 0, 1); }
  }
}
