/** Big-endian byte import and export of bignums. */
module BignumBytes {
  import opened Limbs
  import opened Bignum

  /** The number a big-endian byte string denotes. */
  ghost function BeVal(bs: seq<Byte>): nat {
    if bs == [] then 0 else BeVal(bs[..|bs| - 1]) * 256 + bs[|bs| - 1]
  }

  lemma Pow2Of8(i: nat)
    ensures Pow2(8 * (i + 1)) == 256 * Pow2(8 * i)
  {
    var e := 8 * i;
    assert Pow2(4) == 16;
    Pow2Add(4, 4);
    Pow2Add(8, e);
  }

  lemma {:induction false} BeValCons(x: Byte, bs: seq<Byte>)
    ensures BeVal([x] + bs) == x * Pow2(8 * |bs|) + BeVal(bs)
  {
    if bs == [] {
      assert ([x] + bs)[..0] == [];
    } else {
      var init, last := bs[..|bs| - 1], bs[|bs| - 1];
      assert ([x] + bs)[..|bs|] == [x] + init;
      BeValCons(x, init);
      Pow2Of8(|init|);
      MulAdd(x * Pow2(8 * |init|), BeVal(init), 256);
      assert x * Pow2(8 * |init|) * 256 == x * (256 * Pow2(8 * |init|));
    }
  }

  lemma {:induction false} BeValBound(bs: seq<Byte>)
    ensures BeVal(bs) < Pow2(8 * |bs|)
  {
    if bs != [] {
      BeValBound(bs[..|bs| - 1]);
      Pow2Of8(|bs| - 1);
    }
  }

  lemma {:induction false} BeValInjective(bs: seq<Byte>, cs: seq<Byte>)
    requires |bs| == |cs| && BeVal(bs) == BeVal(cs)
    ensures bs == cs
  {
    if bs != [] {
      var n := |bs| - 1;
      BeValInjective(bs[..n], cs[..n]);
      assert bs == bs[..n] + [bs[n]] && cs == cs[..n] + [cs[n]];
    }
  }

  /** Only the i low bytes of s may be set. */
  ghost predicate Filled(s: seq<U32>, i: nat) {
    && |s| == BIGNUM_LIMBS
    && (forall k :: 0 <= k < BIGNUM_LIMBS && i <= 4 * k ==> s[k] == 0)
    && (i % 4 != 0 && i < 4 * BIGNUM_LIMBS ==> s[i / 4] < Pow2(8 * (i % 4)))
  }

  method FromBytesBe(out: array<U32>, bytes: seq<Byte>)
    requires out.Length == BIGNUM_LIMBS && |bytes| <= 4 * BIGNUM_LIMBS
    modifies out
    ensures Num(out[..]) == BeVal(bytes)
  {
    SetU32(out, 0);
    NumZero(out[..]);
    var len := |bytes|;
    var i := 0;
    assert bytes[len..] == [];
    while i < len
      invariant 0 <= i <= len
      invariant Num(out[..]) == BeVal(bytes[len - i..])
      invariant Filled(out[..], i)
    {
      var byteIndex := len - 1 - i;
      var b := bytes[byteIndex];
      var limbIndex := i / 4;
      var shift := (i % 4) * 8;
      ghost var before := out[..];
      var p := Pow2(shift);
      MulLe(0, b, p);
      ImportByte(before, bytes, i, p);
      var limb := out[limbIndex] + b * p;
      out[limbIndex] := limb;
      assert out[..] == before[limbIndex := limb];
      i := i + 1;
    }
    assert bytes[0..] == bytes;
  }

  lemma NumZero(s: seq<U32>)
    requires |s| == BIGNUM_LIMBS && Num(s) == 0
    ensures forall k :: 0 <= k < BIGNUM_LIMBS ==> s[k] == 0
  {
    forall k | 0 <= k < BIGNUM_LIMBS ensures s[k] == 0 {
      ValPrefixLe(s, k + 1, BIGNUM_LIMBS);
      if s[k] != 0 { MulLe(1, s[k], Weight(k)); }
    }
  }

  lemma ByteFitsLimb(limb: U32, b: Byte, r: nat)
    requires r < 4 && (if r == 0 then limb == 0 else limb < Pow2(8 * r))
    ensures 0 <= limb + b * Pow2(8 * r) < Pow2(8 * (r + 1)) <= BASE
  {
    Pow2Of8(r);
    Pow2Of32();
    MulLe(b, 255, Pow2(8 * r));
    MulLe(0, b, Pow2(8 * r));
    Pow2Monotone(8 * (r + 1), 32);
  }

  /** Or-ing byte r of limb k into place adds it to the number at its place value. */
  lemma ImportStep(s: seq<U32>, b: Byte, k: nat, r: nat, p: nat)
    requires k < BIGNUM_LIMBS && r < 4 && p == Pow2(r * 8) && Filled(s, 4 * k + r)
    ensures 0 <= s[k] + b * p < BASE
    ensures Filled(s[k := s[k] + b * p], 4 * k + r + 1)
    ensures Num(s[k := s[k] + b * p]) == Num(s) + b * Pow2(8 * (4 * k + r))
  {
    ByteFitsLimb(s[k], b, r);
    var x := s[k] + b * p;
    FilledStep(s, x, k, r);
    ValUpdate(s, k, x, BIGNUM_LIMBS);
    BytePlace(b, k, r);
  }

  lemma ImportByte(s: seq<U32>, bytes: seq<Byte>, i: nat, p: nat)
    requires i < |bytes| <= 4 * BIGNUM_LIMBS && p == Pow2(i % 4 * 8)
    requires Filled(s, i) && Num(s) == BeVal(bytes[|bytes| - i..])
    ensures var k, b := i / 4, bytes[|bytes| - 1 - i];
      && 0 <= s[k] + b * p < BASE
      && Filled(s[k := s[k] + b * p], i + 1)
      && Num(s[k := s[k] + b * p]) == BeVal(bytes[|bytes| - 1 - i..])
  {
    var b, rest := bytes[|bytes| - 1 - i], bytes[|bytes| - i..];
    var k, r := i / 4, i % 4;
    assert i == 4 * k + r;
    MulLe(0, b, p);
    ImportStep(s, b, k, r, p);
    assert bytes[|bytes| - 1 - i..] == [b] + rest;
    BeValCons(b, rest);
  }

  lemma FilledStep(s: seq<U32>, x: U32, k: nat, r: nat)
    requires k < BIGNUM_LIMBS && r < 4 && Filled(s, 4 * k + r) && x < Pow2(8 * (r + 1))
    ensures Filled(s[k := x], 4 * k + r + 1)
  {
  }

  lemma BytePlace(b: Byte, k: nat, r: nat)
    requires r < 4
    ensures b * Pow2(r * 8) * Weight(k) == b * Pow2(8 * (4 * k + r))
  {
    WeightIsPow2(k);
    Pow2Add(r * 8, 32 * k);
    assert 8 * (4 * k + r) == r * 8 + 32 * k;
    MulAssoc(b, Pow2(r * 8), Weight(k));
  }

  method ToBytesBe(n: array<U32>, out: array<Byte>, len: nat)
    requires n.Length == BIGNUM_LIMBS && len <= out.Length && len <= 4 * BIGNUM_LIMBS
    modifies out
    ensures BeVal(out[..len]) == Num(n[..]) % Pow2(8 * len)
  {
    var i := 0;
    assert out[len..len] == [];
    while i < len
      invariant 0 <= i <= len
      invariant n[..] == old(n[..])
      invariant BeVal(out[len - i..len]) == Num(n[..]) % Pow2(8 * i)
    {
      var byteIndex := len - 1 - i;
      var limbIndex := i / 4;
      var shift := (i % 4) * 8;
      ghost var tail := out[len - i..len];
      out[byteIndex] := n[limbIndex] / Pow2(shift) % 256;
      ByteOfValue(n[..], limbIndex, i % 4);
      assert 32 * limbIndex + 8 * (i % 4) == 8 * i;
      assert out[byteIndex..len] == [out[byteIndex]] + tail;
      BeValCons(out[byteIndex], tail);
      NextByte(Num(n[..]), i);
      i := i + 1;
    }
  }

  lemma ByteOfValue(s: seq<U32>, k: nat, r: nat)
    requires k < BIGNUM_LIMBS == |s| && r < 4
    ensures Num(s) / Pow2(32 * k + 8 * r) % 256 == s[k] / Pow2(8 * r) % 256
  {
    var high := ValSplit(s, k, BIGNUM_LIMBS);
    var q: nat :| high == s[k] + q * BASE;
    var e, p := 32 * k, Pow2(8 * r);
    ValBound(s, k);
    WeightIsPow2(k);
    Pow2Add(e, 8 * r);
    QuotientOfQuotient(Num(s), Weight(k), p, high, Val(s, k));
    Pow2Of8(r);
    Pow2Add(8 * (3 - r), 8 * (r + 1));
    Pow2Of32();
    MulAssoc(Pow2(8 * (3 - r)), 256, p);
    ByteBelowBase(s[k], q, p, Pow2(8 * (3 - r)));
  }

  lemma ByteBelowBase(x: nat, q: nat, p: nat, r: nat)
    requires p > 0 && r * 256 * p == BASE
    ensures (x + q * BASE) / p % 256 == x / p % 256
  {
    DivModFacts(x, p);
    assert q * BASE == q * (r * 256) * p by { MulAssoc(q, r * 256, p); }
    MulAdd(x / p, q * (r * 256), p);
    DivModUnique(x + q * BASE, p, x / p + q * (r * 256), x % p);
    assert q * (r * 256) == 256 * (q * r);
    SameLowByte(x / p, q * r, q * (r * 256));
  }

  lemma SameLowByte(x: nat, h: nat, e: nat)
    requires e == 256 * h
    ensures (x + e) % 256 == x % 256
  {
  }

  lemma NextByte(x: nat, i: nat)
    ensures x % Pow2(8 * (i + 1)) == x / Pow2(8 * i) % 256 * Pow2(8 * i) + x % Pow2(8 * i)
  {
    var p := Pow2(8 * i);
    Pow2Of8(i);
    DivModFacts(x, p);
    var d := x / p;
    DivModFacts(d, 256);
    MulAdd(d / 256 * 256, d % 256, p);
    MulAssoc(d / 256, 256, p);
    MulLe(d % 256, 255, p);
    DivModUnique(x, 256 * p, d / 256, d % 256 * p + x % p);
  }

  /** Exporting what was imported from the same number of bytes gives those bytes back. */
  lemma ByteRoundTrip(imported: seq<Byte>, exported: seq<Byte>)
    requires |exported| == |imported|
    requires BeVal(exported) == BeVal(imported) % Pow2(8 * |imported|)
    ensures exported == imported
  {
    BeValBound(imported);
    DivModUnique(BeVal(imported), Pow2(8 * |imported|), 0, BeVal(imported));
    BeValInjective(exported, imported);
  }
}
