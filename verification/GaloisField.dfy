/** Multiplication in GF(2^8) as AES uses it, and the inverse of the column mix. */
module GaloisField {

  /** Addition in the field. */
  function Xor(x: bv8, y: bv8): bv8 {
    x ^ y
  }

  lemma XorLaws(x: bv8, y: bv8, z: bv8)
    ensures Xor(x, Xor(y, z)) == Xor(Xor(x, y), z)
    ensures Xor(x, y) == Xor(y, x)
    ensures Xor(Xor(x, y), y) == x
    ensures Xor(x, 0) == x
  {
    XorAssociates(x, y, z);
    XorCommutes(x, y);
    XorCancels(x, y);
    XorZero(x);
  }

  lemma XorAssociates(x: bv8, y: bv8, z: bv8)
    ensures Xor(x, Xor(y, z)) == Xor(Xor(x, y), z)
  {
    XorAssoc(x, y, z, Xor(x, y), Xor(y, z));
  }

  lemma XorCommutes(x: bv8, y: bv8)
    ensures Xor(x, y) == Xor(y, x)
  {
  }

  lemma XorCancels(x: bv8, y: bv8)
    ensures Xor(Xor(x, y), y) == x
  {
    XorCancel(x, y, Xor(x, y));
  }

  lemma XorZero(x: bv8)
    ensures Xor(x, 0) == x
  {
  }

  lemma XorAssoc(x: bv8, y: bv8, z: bv8, xy: bv8, yz: bv8)
    requires xy == x ^ y && yz == y ^ z
    ensures x ^ yz == xy ^ z
  {
  }

  lemma XorCancel(x: bv8, y: bv8, xy: bv8)
    requires xy == x ^ y
    ensures xy ^ y == x
  {
  }

  /** Sums of two pairs can be taken the other way round. */
  lemma Interchange(a: bv8, b: bv8, c: bv8, d: bv8)
    ensures Xor(Xor(a, b), Xor(c, d)) == Xor(Xor(a, c), Xor(b, d))
  {
    PairsInterchange(a, b, c, d, a ^ b, c ^ d, a ^ c, b ^ d);
  }

  lemma PairsInterchange(a: bv8, b: bv8, c: bv8, d: bv8, ab: bv8, cd: bv8, ac: bv8, bd: bv8)
    requires ab == a ^ b && cd == c ^ d && ac == a ^ c && bd == b ^ d
    ensures ab ^ cd == ac ^ bd
  {
  }

  /** Times x, reduced by x^8 + x^4 + x^3 + x + 1. */
  function Xtime(a: bv8): bv8 {
    (a << 1) ^ ((a >> 7) * 0x1b)
  }

  lemma XtimeAdd(x: bv8, y: bv8)
    ensures Xtime(Xor(x, y)) == Xor(Xtime(x), Xtime(y))
  {
  }

  /** The sum of a, a*x, a*x^2, ... over the low n bits set in b. */
  ghost function MulBits(a: bv8, b: bv8, n: nat): bv8
    decreases n
  {
    if n == 0 then 0
    else if b & 1 == 1 then Xor(a, MulBits(Xtime(a), b >> 1, n - 1))
    else MulBits(Xtime(a), b >> 1, n - 1)
  }

  method GfMul(a: bv8, b: bv8) returns (result: bv8)
    ensures result == MulBits(a, b, 8)
  {
    result := 0;
    var aa, bb, i := a, b, 0;
    XorLaws(0, MulBits(a, b, 8), 0);
    while i < 8
      invariant 0 <= i <= 8 && Xor(result, MulBits(aa, bb, 8 - i)) == MulBits(a, b, 8)
    {
      if bb & 1 == 1 {
        XorLaws(result, aa, MulBits(Xtime(aa), bb >> 1, 7 - i));
        result := Xor(result, aa);
      }
      aa := Doubled(aa);
      bb, i := bb >> 1, i + 1;
    }
    XorLaws(result, 0, 0);
  }

  method Doubled(a: bv8) returns (r: bv8)
    ensures r == Xtime(a)
  {
    var hi := a & 0x80;
    r := a << 1;
    if hi != 0 {
      r := r ^ 0x1b;
    }
  }

  // ---------- the multipliers of the mix matrices ----------

  function Times2(a: bv8): bv8 { Xtime(a) }

  function Times3(a: bv8): bv8 { Xor(a, Times2(a)) }

  function Times4(a: bv8): bv8 { Times2(Xtime(a)) }

  function Times5(a: bv8): bv8 { Xor(a, Times2(Xtime(a))) }

  function Times6(a: bv8): bv8 { Times3(Xtime(a)) }

  function Times7(a: bv8): bv8 { Xor(a, Times3(Xtime(a))) }

  function Times9(a: bv8): bv8 { Xor(a, Times4(Xtime(a))) }

  function Times11(a: bv8): bv8 { Xor(a, Times5(Xtime(a))) }

  function Times13(a: bv8): bv8 { Xor(a, Times6(Xtime(a))) }

  function Times14(a: bv8): bv8 { Times7(Xtime(a)) }

  lemma {:induction false} MulZero(a: bv8, n: nat)
    ensures MulBits(a, 0, n) == 0
    decreases n
  {
    if n > 0 {
      MulZero(Xtime(a), n - 1);
    }
  }

  lemma MulOne(a: bv8, n: nat)
    requires n > 0
    ensures MulBits(a, 1, n) == a
  {
    MulZero(Xtime(a), n - 1);
    XorLaws(a, 0, 0);
  }

  lemma MulTwo(a: bv8, n: nat)
    requires n > 1
    ensures MulBits(a, 2, n) == Times2(a) && MulBits(a, 3, n) == Times3(a)
  {
    MulOne(Xtime(a), n - 1);
  }

  lemma MulFour(a: bv8, n: nat)
    requires n > 2
    ensures MulBits(a, 4, n) == Times4(a) && MulBits(a, 5, n) == Times5(a)
    ensures MulBits(a, 6, n) == Times6(a) && MulBits(a, 7, n) == Times7(a)
  {
    MulTwo(Xtime(a), n - 1);
  }

  lemma MulEight(a: bv8)
    ensures MulBits(a, 9, 8) == Times9(a) && MulBits(a, 11, 8) == Times11(a)
    ensures MulBits(a, 13, 8) == Times13(a) && MulBits(a, 14, 8) == Times14(a)
  {
    MulFour(Xtime(a), 7);
  }

  lemma Times2Add(x: bv8, y: bv8)
    ensures Times2(Xor(x, y)) == Xor(Times2(x), Times2(y)) && Times3(Xor(x, y)) == Xor(Times3(x), Times3(y))
  {
    XtimeAdd(x, y);
    Interchange(x, y, Times2(x), Times2(y));
  }

  lemma Times4Add(x: bv8, y: bv8)
    ensures Times4(Xor(x, y)) == Xor(Times4(x), Times4(y)) && Times5(Xor(x, y)) == Xor(Times5(x), Times5(y))
    ensures Times6(Xor(x, y)) == Xor(Times6(x), Times6(y)) && Times7(Xor(x, y)) == Xor(Times7(x), Times7(y))
  {
    XtimeAdd(x, y);
    Times2Add(Xtime(x), Xtime(y));
    Interchange(x, y, Times2(Xtime(x)), Times2(Xtime(y)));
    Interchange(x, y, Times3(Xtime(x)), Times3(Xtime(y)));
  }

  lemma Times8Add(x: bv8, y: bv8)
    ensures Times9(Xor(x, y)) == Xor(Times9(x), Times9(y)) && Times11(Xor(x, y)) == Xor(Times11(x), Times11(y))
    ensures Times13(Xor(x, y)) == Xor(Times13(x), Times13(y)) && Times14(Xor(x, y)) == Xor(Times14(x), Times14(y))
  {
    XtimeAdd(x, y);
    Times4Add(Xtime(x), Xtime(y));
    Interchange(x, y, Times4(Xtime(x)), Times4(Xtime(y)));
    Interchange(x, y, Times5(Xtime(x)), Times5(Xtime(y)));
    Interchange(x, y, Times6(Xtime(x)), Times6(Xtime(y)));
  }

  // ---------- mixing and unmixing a column ----------

  function Sum4(a: bv8, b: bv8, c: bv8, d: bv8): bv8 {
    Xor(Xor(a, b), Xor(c, d))
  }

  lemma Sum4Add(a: bv8, b: bv8, c: bv8, d: bv8, p: bv8, q: bv8, r: bv8, s: bv8)
    ensures Sum4(Xor(a, p), Xor(b, q), Xor(c, r), Xor(d, s)) == Xor(Sum4(a, b, c, d), Sum4(p, q, r, s))
  {
    Interchange(a, p, b, q);
    Interchange(c, r, d, s);
    Interchange(Xor(a, b), Xor(p, q), Xor(c, d), Xor(r, s));
  }

  /** One byte of a mixed column: the column is read cyclically from that byte's row. */
  function Mix(a: bv8, b: bv8, c: bv8, d: bv8): bv8 {
    Sum4(Times2(a), Times3(b), c, d)
  }

  function Unmix(a: bv8, b: bv8, c: bv8, d: bv8): bv8 {
    Sum4(Times14(a), Times11(b), Times13(c), Times9(d))
  }

  lemma MixAdd(a: bv8, b: bv8, c: bv8, d: bv8, p: bv8, q: bv8, r: bv8, s: bv8)
    ensures Mix(Xor(a, p), Xor(b, q), Xor(c, r), Xor(d, s)) == Xor(Mix(a, b, c, d), Mix(p, q, r, s))
  {
    Times2Add(a, p);
    Times2Add(b, q);
    Sum4Add(Times2(a), Times3(b), c, d, Times2(p), Times3(q), r, s);
  }

  lemma UnmixAdd(a: bv8, b: bv8, c: bv8, d: bv8, p: bv8, q: bv8, r: bv8, s: bv8)
    ensures Unmix(Xor(a, p), Xor(b, q), Xor(c, r), Xor(d, s)) == Xor(Unmix(a, b, c, d), Unmix(p, q, r, s))
  {
    Times8Add(a, p);
    Times8Add(b, q);
    Times8Add(c, r);
    Times8Add(d, s);
    Sum4Add(Times14(a), Times11(b), Times13(c), Times9(d), Times14(p), Times11(q), Times13(r), Times9(s));
  }

  /** A column with one nonzero byte. */
  lemma MixUnit(a: bv8)
    ensures Mix(a, 0, 0, 0) == Times2(a) && Mix(0, a, 0, 0) == Times3(a) && Mix(0, 0, a, 0) == a && Mix(0, 0, 0, a) == a
  {
  }

  /** The product of the two matrices: ones on the diagonal, zeros elsewhere. */
  lemma DiagonalIsOne(a: bv8)
    ensures Unmix(Times2(a), a, a, Times3(a)) == a
  {
  }

  lemma FirstOffIsZero(a: bv8)
    ensures Unmix(Times3(a), Times2(a), a, a) == 0
  {
  }

  lemma SecondOffIsZero(a: bv8)
    ensures Unmix(a, Times3(a), Times2(a), a) == 0
  {
  }

  lemma ThirdOffIsZero(a: bv8)
    ensures Unmix(a, a, Times3(a), Times2(a)) == 0
  {
  }

  /** Unmix of a whole mixed column, at the row that a came from. */
  ghost function Through(a: bv8, b: bv8, c: bv8, d: bv8): bv8 {
    Unmix(Mix(a, b, c, d), Mix(b, c, d, a), Mix(c, d, a, b), Mix(d, a, b, c))
  }

  lemma ThroughAdd(a: bv8, b: bv8, c: bv8, d: bv8, p: bv8, q: bv8, r: bv8, s: bv8)
    ensures Through(Xor(a, p), Xor(b, q), Xor(c, r), Xor(d, s)) == Xor(Through(a, b, c, d), Through(p, q, r, s))
  {
    MixAdd(a, b, c, d, p, q, r, s);
    MixAdd(b, c, d, a, q, r, s, p);
    MixAdd(c, d, a, b, r, s, p, q);
    MixAdd(d, a, b, c, s, p, q, r);
    UnmixAdd(Mix(a, b, c, d), Mix(b, c, d, a), Mix(c, d, a, b), Mix(d, a, b, c),
             Mix(p, q, r, s), Mix(q, r, s, p), Mix(r, s, p, q), Mix(s, p, q, r));
  }

  /** Unmixing undoes mixing. */
  lemma UnmixInvertsMix(a: bv8, b: bv8, c: bv8, d: bv8)
    ensures Unmix(Mix(a, b, c, d), Mix(b, c, d, a), Mix(c, d, a, b), Mix(d, a, b, c)) == a
  {
    ThroughUnits(a, b, c, d);
    ThroughAdd(a, 0, 0, 0, 0, b, 0, 0);
    ThroughAdd(0, 0, c, 0, 0, 0, 0, d);
    XorLaws(a, 0, 0);
    XorLaws(0, b, 0);
    XorLaws(c, 0, 0);
    XorLaws(0, d, 0);
    XorLaws(0, 0, 0);
    XorLaws(b, 0, 0);
    XorLaws(d, 0, 0);
    ThroughAdd(a, b, 0, 0, 0, 0, c, d);
    XorLaws(0, c, 0);
  }

  lemma ThroughUnits(a: bv8, b: bv8, c: bv8, d: bv8)
    ensures Through(a, 0, 0, 0) == a && Through(0, b, 0, 0) == 0 && Through(0, 0, c, 0) == 0 && Through(0, 0, 0, d) == 0
  {
    MixUnit(a);
    MixUnit(b);
    MixUnit(c);
    MixUnit(d);
    DiagonalIsOne(a);
    FirstOffIsZero(b);
    SecondOffIsZero(c);
    ThirdOffIsZero(d);
  }
}
