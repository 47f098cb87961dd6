/** Numbers as bytes, most significant first. */
module BigEndians {
  import opened Limbs
  import opened Octets

  function Low8(n: nat): bv8 {
    (n % 256) as bv8
  }

  /** n bytes of x, most significant first. */
  function BigEndian(x: nat, n: nat): (b: Bytes)
    ensures |b| == n
  {
    if n == 0 then [] else BigEndian(x / 256, n - 1) + [Low8(x)]
  }

  lemma Low8Injective(x: nat, y: nat)
    requires Low8(x) == Low8(y)
    ensures x % 256 == y % 256
  {
    ByteValue(x % 256);
    ByteValue(y % 256);
  }

  // A byte's number is that number, range by range.

  lemma ByteValue0(m: nat)
    requires 0 <= m < 32
    ensures (m as bv8) as nat == m
  {
  }

  lemma ByteValue1(m: nat)
    requires 32 <= m < 64
    ensures (m as bv8) as nat == m
  {
  }

  lemma ByteValue2(m: nat)
    requires 64 <= m < 96
    ensures (m as bv8) as nat == m
  {
  }

  lemma ByteValue3(m: nat)
    requires 96 <= m < 128
    ensures (m as bv8) as nat == m
  {
  }

  lemma ByteValue4(m: nat)
    requires 128 <= m < 160
    ensures (m as bv8) as nat == m
  {
  }

  lemma ByteValue5(m: nat)
    requires 160 <= m < 192
    ensures (m as bv8) as nat == m
  {
  }

  lemma ByteValue6(m: nat)
    requires 192 <= m < 224
    ensures (m as bv8) as nat == m
  {
  }

  lemma ByteValue7(m: nat)
    requires 224 <= m < 256
    ensures (m as bv8) as nat == m
  {
  }

  lemma ByteValue(m: nat)
    requires m < 256
    ensures (m as bv8) as nat == m
  {
    if m < 32 { ByteValue0(m); } else if m < 64 { ByteValue1(m); }
    else if m < 96 { ByteValue2(m); } else if m < 128 { ByteValue3(m); }
    else if m < 160 { ByteValue4(m); } else if m < 192 { ByteValue5(m); }
    else if m < 224 { ByteValue6(m); } else { ByteValue7(m); }
  }

  ghost function Pow256(n: nat): (p: nat)
    ensures p > 0
  {
    if n == 0 then 1 else 256 * Pow256(n - 1)
  }

  lemma {:induction false} BigEndianInjective(x: nat, y: nat, n: nat)
    requires x < Pow256(n) && y < Pow256(n) && BigEndian(x, n) == BigEndian(y, n)
    ensures x == y
    decreases n
  {
    if n > 0 {
      var a, b := BigEndian(x, n), BigEndian(y, n);
      assert a[..n - 1] == BigEndian(x / 256, n - 1) && b[..n - 1] == BigEndian(y / 256, n - 1);
      assert a[n - 1] == Low8(x) && b[n - 1] == Low8(y);
      BigEndianInjective(x / 256, y / 256, n - 1);
      Low8Injective(x, y);
    }
  }

  lemma Pow256Is()
    ensures Pow256(8) == 0x1_0000_0000_0000_0000
  {
    assert Pow256(4) == 0x1_0000_0000;
  }

  lemma DivDiv(x: nat, a: nat)
    requires a > 0
    ensures x / a / 256 == x / (256 * a)
  {
    var q, r := x / a, x % a;
    var h, b := q / 256, q % 256;
    MulCommutes(q, a);
    assert x == q * a + r;
    MulAdd(256 * h, b, a);
    MulCommutes(256, h);
    MulAssoc(h, 256, a);
    assert x == h * (256 * a) + (b * a + r);
    MulLe(b + 1, 256, a);
    MulAdd(b, 1, a);
    MulLe(0, b, a);
    DivModUnique(x, 256 * a, h, b * a + r);
  }

  /** Byte i of n is the digit of weight 256^(n - 1 - i). */
  lemma {:induction false} BigEndianAt(x: nat, n: nat, i: nat)
    requires i < n
    ensures BigEndian(x, n)[i] as nat == x / Pow256(n - 1 - i) % 256
    decreases n
  {
    if i == n - 1 {
      ByteValue(x % 256);
    } else {
      BigEndianAt(x / 256, n - 1, i);
      HundredsFirst(x, n - 2 - i);
    }
  }

  lemma HundredsFirst(x: nat, m: nat)
    ensures x / 256 / Pow256(m) == x / Pow256(m + 1)
  {
    var w := Pow256(m);
    var q, r := x / 256 / w, x / 256 % w;
    MulCommutes(q, w);
    MulCommutes(q, 256);
    MulAssoc(q, 256, w);
    assert x == 256 * (q * w + r) + x % 256;
    DivModUnique(x, 256 * w, q, 256 * r + x % 256);
  }

  lemma BigEndianSnoc(y: nat, k: nat, next: nat)
    requires next == k + 1
    ensures BigEndian(y, next) == BigEndian(y / 256, k) + [Low8(y)]
  {
  }

  method PutBigEndian(x: nat, n: nat) returns (b: Bytes)
    ensures b == BigEndian(x, n)
  {
    b := [];
    var i := n;
    ghost var k, y := 0, x / Pow256(n);
    while i > 0
      invariant 0 <= i <= n && k == n - i && y == x / Pow256(i) && b == BigEndian(y, k)
    {
      var shifted := ShiftRight(x, i - 1);
      DivDiv(x, Pow256(i - 1));
      BigEndianSnoc(shifted, k, k + 1);
      b := b + [Low8(shifted)];
      i, k, y := i - 1, k + 1, shifted;
    }
    assert Pow256(0) == 1;
  }

  method ShiftRight(x: nat, i: nat) returns (y: nat)
    ensures y == x / Pow256(i)
  {
    y := x;
    var j := 0;
    while j < i
      invariant 0 <= j <= i && y == x / Pow256(j)
    {
      DivDiv(x, Pow256(j));
      y := y / 256;
      j := j + 1;
    }
  }
}
