/** What the substitution table computes: inversion in GF(2^8) followed by an affine map (section 5.1.1 of FIPS 197). */
module SBoxLaw {
  import opened GaloisField
  import opened SBox

  /** Each bit is the sum of itself, the four bits after it in cyclic order, and a bit of 0x63. */
  function Affine(y: bv8): bv8 {
    y ^ ((y << 1) | (y >> 7)) ^ ((y << 2) | (y >> 6)) ^ ((y << 3) | (y >> 5)) ^ ((y << 4) | (y >> 4)) ^ 0x63
  }

  ghost function InvAffine(s: bv8): bv8 {
    ((s << 1) | (s >> 7)) ^ ((s << 3) | (s >> 5)) ^ ((s << 6) | (s >> 2)) ^ 0x05
  }

  lemma AffineOf(s: bv8)
    ensures Affine(InvAffine(s)) == s
  {
  }

  lemma AffineInverse(y: bv8)
    ensures InvAffine(Affine(y)) == y
  {
  }

  // ---------- the field ----------

  lemma {:induction false} MulZeroLeft(b: bv8, n: nat)
    ensures MulBits(0, b, n) == 0
  {
    if n > 0 {
      MulZeroLeft(b >> 1, n - 1);
    }
  }

  lemma {:induction false} MulAdd(p: bv8, q: bv8, b: bv8, n: nat)
    ensures MulBits(Xor(p, q), b, n) == Xor(MulBits(p, b, n), MulBits(q, b, n))
    decreases n
  {
    if n > 0 {
      XtimeAdd(p, q);
      MulAdd(Xtime(p), Xtime(q), b >> 1, n - 1);
      Interchange(p, q, MulBits(Xtime(p), b >> 1, n - 1), MulBits(Xtime(q), b >> 1, n - 1));
    }
  }

  lemma {:induction false} MulXtime(a: bv8, b: bv8, n: nat)
    ensures MulBits(Xtime(a), b, n) == Xtime(MulBits(a, b, n))
    decreases n
  {
    if n > 0 {
      MulXtime(Xtime(a), b >> 1, n - 1);
      XtimeAdd(a, MulBits(Xtime(a), b >> 1, n - 1));
    }
  }

  /** Two factors can be multiplied in either order. */
  lemma {:induction false} MulSwap(a: bv8, b: bv8, c: bv8, n: nat)
    ensures MulBits(MulBits(a, b, 8), c, n) == MulBits(MulBits(a, c, n), b, 8)
    decreases n
  {
    if n == 0 {
      MulZeroLeft(b, 8);
    } else {
      MulXtime(a, b, 8);
      MulSwap(Xtime(a), b, c >> 1, n - 1);
      MulAdd(a, MulBits(Xtime(a), c >> 1, n - 1), b, 8);
    }
  }

  // ---------- the product without a branch ----------

  /** All ones if the lowest bit of b is set. */
  ghost function Mask(b: bv8): bv8 {
    0 - (b & 1)
  }

  ghost function Product(a: bv8, b: bv8, n: nat): bv8
    decreases n
  {
    if n == 0 then 0 else (a & Mask(b)) ^ Product(Xtime(a), b >> 1, n - 1)
  }

  lemma {:induction false} ProductIs(a: bv8, b: bv8, n: nat)
    ensures MulBits(a, b, n) == Product(a, b, n)
    decreases n
  {
    if n > 0 {
      ProductIs(Xtime(a), b >> 1, n - 1);
      MaskIs(a, b, Product(Xtime(a), b >> 1, n - 1));
    }
  }

  lemma MaskIs(a: bv8, b: bv8, rest: bv8)
    ensures (a & Mask(b)) ^ rest == if b & 1 == 1 then Xor(a, rest) else rest
  {
  }

  lemma OneLeft(b: bv8)
    ensures MulBits(1, b, 8) == b
  {
    ProductIs(1, b, 8);
  }

  // ---------- the table ----------

  /** What the low two bits of b add to the rest. */
  ghost function Two(a: bv8, a1: bv8, b: bv8, b1: bv8, rest: bv8): bv8 {
    (a & Mask(b)) ^ ((a1 & Mask(b1)) ^ rest)
  }

  ghost function Product8(a: bv8, b: bv8): bv8 {
    var a1, b1 := Xtime(a), b >> 1;
    var a2, b2 := Xtime(a1), b1 >> 1;
    var a3, b3 := Xtime(a2), b2 >> 1;
    var a4, b4 := Xtime(a3), b3 >> 1;
    var a5, b5 := Xtime(a4), b4 >> 1;
    var a6, b6 := Xtime(a5), b5 >> 1;
    var a7, b7 := Xtime(a6), b6 >> 1;
    Two(a, a1, b, b1, Two(a2, a3, b2, b3, Two(a4, a5, b4, b5, Two(a6, a7, b6, b7, 0))))
  }

  lemma OneMore(a: bv8, b: bv8, a1: bv8, b1: bv8, n: nat, m: nat)
    requires n == m + 1 && a1 == Xtime(a) && b1 == b >> 1
    ensures Product(a, b, n) == (a & Mask(b)) ^ Product(a1, b1, m)
  {
  }

  lemma TwoMore(a: bv8, b: bv8, a1: bv8, b1: bv8, a2: bv8, b2: bv8, n: nat, l: nat, m: nat)
    requires n == l + 1 && l == m + 1 && a1 == Xtime(a) && b1 == b >> 1 && a2 == Xtime(a1) && b2 == b1 >> 1
    ensures Product(a, b, n) == Two(a, a1, b, b1, Product(a2, b2, m))
  {
    OneMore(a, b, a1, b1, n, l);
    OneMore(a1, b1, a2, b2, l, m);
  }

  lemma Product8Is(a: bv8, b: bv8, n: nat)
    requires n == 8
    ensures Product(a, b, n) == Product8(a, b)
  {
    var a1, b1 := Xtime(a), b >> 1;
    var a2, b2 := Xtime(a1), b1 >> 1;
    var a3, b3 := Xtime(a2), b2 >> 1;
    var a4, b4 := Xtime(a3), b3 >> 1;
    var a5, b5 := Xtime(a4), b4 >> 1;
    var a6, b6 := Xtime(a5), b5 >> 1;
    var a7, b7 := Xtime(a6), b6 >> 1;
    var a8, b8 := Xtime(a7), b7 >> 1;
    TwoMore(a, b, a1, b1, a2, b2, n, 7, 6);
    TwoMore(a2, b2, a3, b3, a4, b4, 6, 5, 4);
    TwoMore(a4, b4, a5, b5, a6, b6, 4, 3, 2);
    TwoMore(a6, b6, a7, b7, a8, b8, 2, 1, 0);
  }

  lemma InverseOf(x: bv8)
    requires x != 0
    ensures Product8(x, InvAffine(Sub(x))) == 1
  {
  }

  /** An inverse is the only one. */
  lemma OneInverse(x: bv8, y: bv8, z: bv8, n: nat)
    requires n == 8 && MulBits(x, y, n) == 1 && MulBits(x, z, n) == 1
    ensures y == z
  {
    MulSwap(x, z, y, n);
    OneLeft(y);
    OneLeft(z);
  }

  /** Every byte but 0 has an inverse. */
  lemma InverseExists(x: bv8, n: nat) returns (y: bv8)
    requires x != 0 && n == 8
    ensures MulBits(x, y, n) == 1 && Sub(x) == Affine(y)
  {
    y := InvAffine(Sub(x));
    InverseOf(x);
    Product8Is(x, y, n);
    ProductIs(x, y, n);
    AffineOf(Sub(x));
  }

  lemma SubInverts(x: bv8, y: bv8, n: nat)
    requires n == 8
    ensures MulBits(x, y, n) == 1 <==> x != 0 && Sub(x) == Affine(y)
  {
    if x == 0 {
      MulZeroLeft(y, n);
    } else {
      var z := InverseExists(x, n);
      if MulBits(x, y, n) == 1 {
        OneInverse(x, y, z, n);
      } else if Sub(x) == Affine(y) {
        AffineInverse(y);
        AffineInverse(z);
      }
    }
  }

  /** Every byte but 0 is sent to the affine image of its inverse in the field, and 0 to that of 0. */
  lemma SubLaw(x: bv8, y: bv8)
    ensures MulBits(x, y, 8) == 1 <==> x != 0 && Sub(x) == Affine(y)
    ensures x == 0 ==> Sub(x) == Affine(0) == 0x63
  {
    SubInverts(x, y, 8);
  }
}
