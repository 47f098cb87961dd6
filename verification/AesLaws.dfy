/** The cipher byte by byte, and where each round key enters it (section 5.1 of FIPS 197). */
module AesLaws {
  import opened GaloisField
  import opened Octets
  import opened SBox
  import opened Aes

  // ---------- the round keys ----------

  /** The round keys with d added to the r-th sixteen bytes. */
  ghost function Keyed(rk: Bytes, r: nat, d: Bytes): (rk': Bytes)
    requires |rk| == 176 && r <= 10 && |d| == 16
    ensures |rk'| == 176
  {
    rk[..16 * r] + XorBytes(rk[16 * r..16 * r + 16], d) + rk[16 * r + 16..]
  }

  lemma KeyedAt(rk: Bytes, r: nat, d: Bytes, q: nat)
    requires |rk| == 176 && r <= 10 && |d| == 16 && q <= 10
    ensures RoundKey(Keyed(rk, r, d), q) == if q == r then XorBytes(RoundKey(rk, r), d) else RoundKey(rk, q)
  {
  }

  lemma XorSwap(s: Bytes, k: Bytes, d: Bytes)
    requires |s| == |k| == |d|
    ensures XorBytes(s, XorBytes(k, d)) == XorBytes(XorBytes(s, k), d) == XorBytes(XorBytes(s, d), k)
  {
    forall i | 0 <= i < |s|
      ensures Xor(s[i], Xor(k[i], d[i])) == Xor(Xor(s[i], k[i]), d[i]) == Xor(Xor(s[i], d[i]), k[i])
    {
      XorLaws(s[i], k[i], d[i]);
      XorLaws(s[i], d[i], k[i]);
      XorLaws(k[i], d[i], 0);
    }
  }

  /** Adding to the first sixteen bytes of the keys is adding to the block. */
  lemma {:induction false} FirstKey(rk: Bytes, block: Bytes, d: Bytes, r: nat)
    requires |rk| == 176 && |block| == |d| == 16 && r < 10
    ensures EncRound(Keyed(rk, 0, d), block, r) == EncRound(rk, XorBytes(block, d), r)
  {
    KeyedAt(rk, 0, d, r);
    if r == 0 {
      XorSwap(block, RoundKey(rk, 0), d);
    } else {
      FirstKey(rk, block, d, r - 1);
    }
  }

  /** Keys of later rounds do not matter before. */
  lemma {:induction false} LaterKey(rk: Bytes, block: Bytes, d: Bytes, q: nat, r: nat)
    requires |rk| == 176 && |block| == |d| == 16 && r < q <= 10
    ensures EncRound(Keyed(rk, q, d), block, r) == EncRound(rk, block, r)
    decreases r
  {
    var rk' := Keyed(rk, q, d);
    KeyedAt(rk, q, d, r);
    if r > 0 {
      var p := r - 1;
      LaterKey(rk, block, d, q, p);
      EncRoundStep(rk, block, p, r);
      EncRoundStep(rk', block, p, r);
      SameRound(rk, rk', EncRound(rk, block, p), r);
    }
  }

  lemma SameRound(rk: Bytes, rk': Bytes, s: Bytes, r: nat)
    requires |rk| == |rk'| == 176 && |s| == 16 && r <= 10 && RoundKey(rk', r) == RoundKey(rk, r)
    ensures Round(rk', s, r) == Round(rk, s, r)
  {
  }

  lemma RoundKeyAdds(rk: Bytes, rk': Bytes, s: Bytes, r: nat, d: Bytes)
    requires |rk| == |rk'| == 176 && |s| == |d| == 16 && r <= 10 && RoundKey(rk', r) == XorBytes(RoundKey(rk, r), d)
    ensures Round(rk', s, r) == XorBytes(Round(rk, s, r), d)
  {
    XorSwap(MixColumns(ShiftRows(SubBytes(s))), RoundKey(rk, r), d);
  }

  /** Adding to the r-th sixteen bytes is adding to the state when round r is over, the column mix included. */
  lemma OwnKey(rk: Bytes, block: Bytes, d: Bytes, r: nat)
    requires |rk| == 176 && |block| == |d| == 16 && 0 < r < 10
    ensures EncRound(Keyed(rk, r, d), block, r) == XorBytes(EncRound(rk, block, r), d)
  {
    var p, rk' := r - 1, Keyed(rk, r, d);
    KeyedAt(rk, r, d, r);
    LaterKey(rk, block, d, r, p);
    EncRoundStep(rk, block, p, r);
    EncRoundStep(rk', block, p, r);
    RoundKeyAdds(rk, rk', EncRound(rk, block, p), r, d);
  }

  lemma FirstKeyIsBlock(rk: Bytes, block: Bytes, d: Bytes, last: nat)
    requires |rk| == 176 && |block| == |d| == 16 && last == 9
    ensures LastRound(Keyed(rk, 0, d), EncRound(Keyed(rk, 0, d), block, last)) == LastRound(rk, EncRound(rk, XorBytes(block, d), last))
  {
    FirstKey(rk, block, d, last);
    KeyedAt(rk, 0, d, 10);
  }

  lemma LastKeyIsOutput(rk: Bytes, block: Bytes, d: Bytes, last: nat)
    requires |rk| == 176 && |block| == |d| == 16 && last == 9
    ensures LastRound(Keyed(rk, 10, d), EncRound(Keyed(rk, 10, d), block, last)) == XorBytes(LastRound(rk, EncRound(rk, block, last)), d)
  {
    LaterKey(rk, block, d, 10, last);
    KeyedAt(rk, 10, d, 10);
    XorSwap(ShiftRows(SubBytes(EncRound(rk, block, last))), RoundKey(rk, 10), d);
  }

  /** The first key is added to the block, and the last to the ciphertext. */
  lemma OuterKeys(rk: Bytes, block: Bytes, d: Bytes)
    requires |rk| == 176 && |block| == |d| == 16
    ensures Encrypt(Keyed(rk, 0, d), block) == Encrypt(rk, XorBytes(block, d))
    ensures Encrypt(Keyed(rk, 10, d), block) == XorBytes(Encrypt(rk, block), d)
  {
    FirstKeyIsBlock(rk, block, d, 9);
    LastKeyIsOutput(rk, block, d, 9);
  }

  // ---------- a round, byte by byte ----------

  /** Encryption multiplies a column by the circulant matrix of 2, 3, 1, 1 and decryption by that of 14, 11, 13, 9. */
  lemma MatricesAre(a: bv8, b: bv8, c: bv8, d: bv8)
    ensures Mix(a, b, c, d) == Sum4(MulBits(a, 2, 8), MulBits(b, 3, 8), c, d)
    ensures Unmix(a, b, c, d) == Sum4(MulBits(a, 14, 8), MulBits(b, 11, 8), MulBits(c, 13, 8), MulBits(d, 9, 8))
  {
    MulTwo(a, 8);
    MulTwo(b, 8);
    MulEight(a);
    MulEight(b);
    MulEight(c);
    MulEight(d);
  }

  /** Where the row shift brings the byte in row j of column c from. */
  ghost function Diagonal(c: nat, j: nat): (i: nat)
    requires c < 4 && j < 4
    ensures i < 16
  {
    [0, 5, 10, 15, 4, 9, 14, 3, 8, 13, 2, 7, 12, 1, 6, 11][4 * c + j]
  }

  lemma ShiftedIs(t: Bytes, c: nat, j: nat)
    requires |t| == 16 && c < 4 && j < 4
    ensures ShiftRows(t)[4 * c + j] == t[Diagonal(c, j)]
  {
    var i := 4 * c + j;
    assert i % 4 == j && i / 4 == c;
    DiagonalIs(c, j);
  }

  lemma DiagonalIs(c: nat, j: nat)
    requires c < 4 && j < 4
    ensures Diagonal(c, j) == j + 4 * ((c + j) % 4)
  {
    assert c == 0 || c == 1 || c == 2 || c == 3;
    assert j == 0 || j == 1 || j == 2 || j == 3;
  }

  lemma MixedIs(t: Bytes, c: nat, i: nat)
    requires |t| == 16 && c < 4 && i < 4
    ensures MixColumns(t)[4 * c + i] == MixColumn(Column(t, c))[i]
  {
    var m0, m1, m2, m3 := MixColumn(Column(t, 0)), MixColumn(Column(t, 1)), MixColumn(Column(t, 2)), MixColumn(Column(t, 3));
    ColumnsOf(m0, m1, m2, m3);
    ByteOfColumn(MixColumns(t), c, i);
    assert c == 0 || c == 1 || c == 2 || c == 3;
  }

  lemma ByteOfColumn(t: Bytes, c: nat, i: nat)
    requires |t| == 16 && c < 4 && i < 4
    ensures t[4 * c + i] == Column(t, c)[i]
  {
  }

  /** Byte i of a mixed column: the column's bytes from row i on, times 2, 3, 1 and 1. */
  lemma MixRow(a: Bytes, i: nat)
    requires |a| == 4 && i < 4
    ensures MixColumn(a)[i] == Sum4(MulBits(a[i], 2, 8), MulBits(a[(i + 1) % 4], 3, 8), a[(i + 2) % 4], a[(i + 3) % 4])
  {
    if i == 0 {
      MatricesAre(a[0], a[1], a[2], a[3]);
    } else if i == 1 {
      MatricesAre(a[1], a[2], a[3], a[0]);
    } else if i == 2 {
      MatricesAre(a[2], a[3], a[0], a[1]);
    } else {
      MatricesAre(a[3], a[0], a[1], a[2]);
    }
  }

  /** The bytes of one diagonal, substituted. */
  ghost function Fetched(s: Bytes, c: nat): (a: Bytes)
    requires |s| == 16 && c < 4
    ensures |a| == 4
  {
    var t := SubBytes(s);
    [t[Diagonal(c, 0)], t[Diagonal(c, 1)], t[Diagonal(c, 2)], t[Diagonal(c, 3)]]
  }

  lemma FetchedIs(s: Bytes, c: nat)
    requires |s| == 16 && c < 4
    ensures Column(ShiftRows(SubBytes(s)), c) == Fetched(s, c)
  {
    var t := SubBytes(s);
    ShiftedIs(t, c, 0);
    ShiftedIs(t, c, 1);
    ShiftedIs(t, c, 2);
    ShiftedIs(t, c, 3);
  }

  /** Byte j of them is the table's entry for the state's byte in row j, j columns further on. */
  lemma FetchedByte(s: Bytes, c: nat, j: nat)
    requires |s| == 16 && c < 4 && j < 4
    ensures Fetched(s, c)[j] == Sub(s[4 * ((c + j) % 4) + j])
  {
    DiagonalIs(c, j);
    SubstitutedAt(s, Diagonal(c, j));
    assert j == 0 || j == 1 || j == 2 || j == 3;
  }

  lemma SubstitutedAt(s: Bytes, i: nat)
    requires |s| == 16 && i < 16
    ensures SubBytes(s)[i] == Sub(s[i])
  {
  }

  /** Each byte of a round's result is made of the four bytes on one diagonal of the state, substituted and mixed,
      and of the byte at its own place of the round's key. */
  lemma RoundByte(rk: Bytes, s: Bytes, r: nat, c: nat, i: nat)
    requires |rk| == 176 && |s| == 16 && r <= 10 && c < 4 && i < 4
    ensures Round(rk, s, r)[4 * c + i] == Xor(MixColumn(Fetched(s, c))[i], rk[16 * r + 4 * c + i])
  {
    var t := ShiftRows(SubBytes(s));
    FetchedIs(s, c);
    MixedByte(rk, t, Fetched(s, c), r, c, i);
  }

  lemma MixedByte(rk: Bytes, t: Bytes, a: Bytes, r: nat, c: nat, i: nat)
    requires |rk| == 176 && |t| == 16 && r <= 10 && c < 4 && i < 4 && a == Column(t, c)
    ensures XorBytes(MixColumns(t), RoundKey(rk, r))[4 * c + i] == Xor(MixColumn(a)[i], rk[16 * r + 4 * c + i])
  {
    MixedIs(t, c, i);
    KeyByte(rk, MixColumns(t), r, 4 * c + i);
  }

  lemma KeyByte(rk: Bytes, t: Bytes, r: nat, p: nat)
    requires |rk| == 176 && |t| == 16 && r <= 10 && p < 16
    ensures XorBytes(t, RoundKey(rk, r))[p] == Xor(t[p], rk[16 * r + p])
  {
  }

  /** The last round's bytes are not mixed. */
  lemma LastRoundByte(rk: Bytes, s: Bytes, c: nat, i: nat)
    requires |rk| == 176 && |s| == 16 && c < 4 && i < 4
    ensures LastRound(rk, s)[4 * c + i] == Xor(Fetched(s, c)[i], rk[160 + 4 * c + i])
  {
    var t := ShiftRows(SubBytes(s));
    FetchedIs(s, c);
    UnmixedByte(rk, t, Fetched(s, c), c, i);
  }

  lemma UnmixedByte(rk: Bytes, t: Bytes, a: Bytes, c: nat, i: nat)
    requires |rk| == 176 && |t| == 16 && c < 4 && i < 4 && a == Column(t, c)
    ensures XorBytes(t, RoundKey(rk, ROUNDS))[4 * c + i] == Xor(a[i], rk[160 + 4 * c + i])
  {
    ByteOfColumn(t, c, i);
    KeyByte(rk, t, ROUNDS, 4 * c + i);
  }
}
