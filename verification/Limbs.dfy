/** Little-endian base-2^32 limb sequences and the natural numbers they denote. */
module Limbs {

  const BASE: nat := 0x1_0000_0000

  type U32 = x: nat | x < 0x1_0000_0000
  type Byte = x: nat | x < 256

  function Pow2(n: nat): (r: nat)
    ensures r >= 1
  {
    if n == 0 then 1 else 2 * Pow2(n - 1)
  }

  /** The place value of limb k. */
  function Weight(k: nat): (w: nat)
    ensures w >= 1
  {
    if k == 0 then 1 else BASE * Weight(k - 1)
  }

  /** The number denoted by the n low limbs of s. */
  ghost function Val(s: seq<U32>, n: nat): nat
    requires n <= |s|
  {
    if n == 0 then 0 else Val(s, n - 1) + s[n - 1] * Weight(n - 1)
  }

  // ---------- products ----------

  lemma MulLe(x: int, y: int, w: int)
    requires x <= y && 0 <= w
    ensures x * w <= y * w
  {
  }

  lemma MulAdd(x: int, y: int, w: int)
    ensures (x + y) * w == x * w + y * w
  {
  }

  lemma MulAssoc(x: int, y: int, z: int)
    ensures x * y * z == x * (y * z)
  {
  }

  /** x == q * m + r with r in range determines quotient and remainder. */
  lemma DivModUnique(x: int, m: int, q: int, r: int)
    requires m > 0 && 0 <= r < m && x == q * m + r
    ensures x / m == q && x % m == r
  {
    var q', r' := x / m, x % m;
    assert x == q' * m + r' by { MulCommutes(q', m); }
    if q < q' { MulLe(q + 1, q', m); MulAdd(q, 1, m); }
    if q' < q { MulLe(q' + 1, q, m); MulAdd(q', 1, m); }
  }

  lemma MulCommutes(x: int, y: int)
    ensures x * y == y * x
  {
  }

  // ---------- powers ----------

  lemma {:induction false} Pow2Add(i: nat, j: nat)
    ensures Pow2(i + j) == Pow2(i) * Pow2(j)
  {
    if i == 0 {
    } else {
      Pow2Add(i - 1, j);
      MulAssoc(2, Pow2(i - 1), Pow2(j));
    }
  }

  lemma {:induction false} Pow2Monotone(i: nat, j: nat)
    requires i <= j
    ensures Pow2(i) <= Pow2(j)
  {
    if i < j { Pow2Monotone(i, j - 1); }
  }

  lemma {:induction false} WeightAdd(i: nat, j: nat)
    ensures Weight(i + j) == Weight(i) * Weight(j)
  {
    if i == 0 {
    } else {
      WeightAdd(i - 1, j);
      MulAssoc(BASE, Weight(i - 1), Weight(j));
    }
  }

  lemma Pow2Of32()
    ensures Pow2(32) == BASE
  {
    assert Pow2(4) == 16;
    Pow2Add(4, 4);
    Pow2Add(8, 8);
    Pow2Add(16, 16);
  }

  lemma {:induction false} WeightIsPow2(k: nat)
    ensures Weight(k) == Pow2(32 * k)
  {
    if k == 0 {
    } else {
      var j := 32 * (k - 1);
      WeightIsPow2(k - 1);
      Pow2Add(32, j);
      Pow2Of32();
      assert 32 * k == 32 + j;
    }
  }

  lemma {:induction false} WeightMonotone(i: nat, j: nat)
    requires i <= j
    ensures Weight(i) <= Weight(j)
  {
    if i < j { WeightMonotone(i, j - 1); }
  }

  // ---------- values of limb sequences ----------

  lemma {:induction false} ValBound(s: seq<U32>, n: nat)
    requires n <= |s|
    ensures Val(s, n) < Weight(n)
  {
    if n == 0 {
    } else {
      ValBound(s, n - 1);
      MulLe(s[n - 1], BASE - 1, Weight(n - 1));
    }
  }

  /** Only the n low limbs matter. */
  lemma {:induction false} ValFrame(s: seq<U32>, t: seq<U32>, n: nat)
    requires n <= |s| && n <= |t|
    requires forall k :: 0 <= k < n ==> s[k] == t[k]
    ensures Val(s, n) == Val(t, n)
  {
    if n > 0 { ValFrame(s, t, n - 1); }
  }

  /** Writing limb k moves the value by the difference at that place. */
  lemma {:induction false} ValUpdate(s: seq<U32>, k: nat, x: U32, n: nat)
    requires k < n <= |s|
    ensures Val(s[k := x], n) == Val(s, n) + (x - s[k]) * Weight(k)
  {
    if k == n - 1 {
      ValFrame(s, s[k := x], n - 1);
      MulAdd(x - s[k], s[k], Weight(k));
    } else {
      ValUpdate(s, k, x, n - 1);
    }
  }

  lemma {:induction false} ValZero(s: seq<U32>, k: nat, n: nat)
    requires k <= n <= |s|
    requires forall i :: k <= i < n ==> s[i] == 0
    ensures Val(s, n) == Val(s, k)
  {
    if k < n { ValZero(s, k, n - 1); }
  }

  /** The limbs above k contribute equally when they are equal. */
  lemma {:induction false} ValSameHigh(s: seq<U32>, t: seq<U32>, k: nat, n: nat)
    requires k <= n <= |s| && n <= |t|
    requires forall i :: k <= i < n ==> s[i] == t[i]
    ensures Val(s, n) - Val(s, k) == Val(t, n) - Val(t, k)
  {
    if k < n { ValSameHigh(s, t, k, n - 1); }
  }

  lemma {:induction false} ValPrefixLe(s: seq<U32>, k: nat, n: nat)
    requires k <= n <= |s|
    ensures Val(s, k) <= Val(s, n)
  {
    if k < n {
      ValPrefixLe(s, k, n - 1);
      MulLe(0, s[n - 1], Weight(n - 1));
    }
  }

  /** A value below Weight(k) lives in its k low limbs. */
  lemma {:induction false} ValFitsLow(s: seq<U32>, k: nat, n: nat)
    requires k <= n <= |s| && Val(s, n) < Weight(k)
    ensures Val(s, k) == Val(s, n)
  {
    if k < n {
      if s[n - 1] != 0 {
        MulLe(1, s[n - 1], Weight(n - 1));
        WeightMonotone(k, n - 1);
        assert false;
      }
      ValFitsLow(s, k, n - 1);
    }
  }

  /** Val(s, n) splits at limb k: the low limbs are its remainder modulo Weight(k). */
  lemma {:induction false} ValSplit(s: seq<U32>, k: nat, n: nat) returns (high: nat)
    requires k <= n <= |s|
    ensures Val(s, n) == Val(s, k) + high * Weight(k)
    ensures k < n ==> exists q: nat :: high == s[k] + q * BASE
  {
    if k == n {
      high := 0;
    } else if k == n - 1 {
      high := s[k];
      assert high == s[k] + 0 * BASE;
    } else {
      var h := ValSplit(s, k, n - 1);
      var q: nat :| h == s[k] + q * BASE;
      var d := n - 1 - k;
      WeightAdd(d, k);
      high := h + s[n - 1] * Weight(d);
      MulAdd(h, s[n - 1] * Weight(d), Weight(k));
      MulAssoc(s[n - 1], Weight(d), Weight(k));
      var q' := q + s[n - 1] * Weight(d - 1);
      HighStep(q, s[n - 1], Weight(d - 1));
      assert high == s[k] + q' * BASE;
    }
  }

  lemma HighStep(q: int, x: int, w: int)
    ensures q * BASE + x * (BASE * w) == (q + x * w) * BASE
  {
    assert x * (BASE * w) == (x * w) * BASE;
  }
}
