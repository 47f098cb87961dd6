/** Strings of bits and the numbers they stand for. */
module BitStrings {
  import opened Limbs

  type Bit = x: nat | x < 2
  type Bits = seq<Bit>

  ghost function ZeroBits(n: nat): (bits: Bits)
    ensures |bits| == n
  {
    seq(n, i => 0)
  }

  /** The number with these bits, first bit least significant. */
  ghost function FromBits(bits: Bits): (v: nat)
    ensures v < Pow2(|bits|)
  {
    if bits == [] then 0 else 2 * FromBits(bits[1..]) + bits[0]
  }

  lemma {:induction false} FromBitsAt(bits: Bits, i: nat)
    requires i < |bits|
    ensures FromBits(bits) / Pow2(i) % 2 == bits[i]
    decreases |bits|
  {
    if i > 0 {
      FromBitsAt(bits[1..], i - 1);
      HalveDiv(FromBits(bits[1..]), bits[0], Pow2(i - 1));
    }
  }

  lemma HalveDiv(x: nat, b: nat, w: nat)
    requires b < 2 && w > 0
    ensures (2 * x + b) / (2 * w) == x / w
  {
    var q, r := x / w, x % w;
    MulCommutes(q, w);
    assert x == q * w + r;
    MulCommutes(2, q);
    MulAssoc(q, 2, w);
    DivModUnique(2 * x + b, 2 * w, q, 2 * r + b);
  }
}
