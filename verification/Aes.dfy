/** AES-128 (FIPS 197) block encryption and decryption on a 16-byte state. */
module Aes {
  import opened GaloisField
  import opened Octets
  import opened SBox

  const ROUNDS: nat := 10
  const ROUND_KEY_BYTES: nat := 176

  // ---------- the steps on values ----------

  function SubBytes(s: Bytes): (r: Bytes)
    requires |s| == 16
    ensures |r| == 16
  {
    seq(16, i requires 0 <= i < 16 => Sub(s[i]))
  }

  function InvSubBytes(s: Bytes): (r: Bytes)
    requires |s| == 16
    ensures |r| == 16
  {
    seq(16, i requires 0 <= i < 16 => InvSub(s[i]))
  }

  /** Row r of the column-major state turns left by r. */
  function ShiftRows(s: Bytes): (r: Bytes)
    requires |s| == 16
    ensures |r| == 16
  {
    seq(16, i requires 0 <= i < 16 => s[i % 4 + 4 * ((i / 4 + i % 4) % 4)])
  }

  function InvShiftRows(s: Bytes): (r: Bytes)
    requires |s| == 16
    ensures |r| == 16
  {
    seq(16, i requires 0 <= i < 16 => s[i % 4 + 4 * ((i / 4 - i % 4 + 4) % 4)])
  }

  function Column(s: Bytes, c: nat): (r: Bytes)
    requires |s| == 16 && c < 4
    ensures |r| == 4
  {
    [s[4 * c], s[4 * c + 1], s[4 * c + 2], s[4 * c + 3]]
  }

  function MixColumn(a: Bytes): (r: Bytes)
    requires |a| == 4
    ensures |r| == 4
  {
    [Mix(a[0], a[1], a[2], a[3]), Mix(a[1], a[2], a[3], a[0]), Mix(a[2], a[3], a[0], a[1]), Mix(a[3], a[0], a[1], a[2])]
  }

  function InvMixColumn(a: Bytes): (r: Bytes)
    requires |a| == 4
    ensures |r| == 4
  {
    [Unmix(a[0], a[1], a[2], a[3]), Unmix(a[1], a[2], a[3], a[0]),
     Unmix(a[2], a[3], a[0], a[1]), Unmix(a[3], a[0], a[1], a[2])]
  }

  function MixColumns(s: Bytes): (r: Bytes)
    requires |s| == 16
    ensures |r| == 16
  {
    MixColumn(Column(s, 0)) + MixColumn(Column(s, 1)) + MixColumn(Column(s, 2)) + MixColumn(Column(s, 3))
  }

  function InvMixColumns(s: Bytes): (r: Bytes)
    requires |s| == 16
    ensures |r| == 16
  {
    InvMixColumn(Column(s, 0)) + InvMixColumn(Column(s, 1)) + InvMixColumn(Column(s, 2)) + InvMixColumn(Column(s, 3))
  }

  // ---------- their inverses ----------

  lemma SubBytesInverse(s: Bytes)
    requires |s| == 16
    ensures InvSubBytes(SubBytes(s)) == s
  {
    var r := InvSubBytes(SubBytes(s));
    forall i | 0 <= i < 16 ensures r[i] == s[i] {
      SubInverse(s[i]);
    }
  }

  lemma ShiftRowsInverse(s: Bytes)
    requires |s| == 16
    ensures InvShiftRows(ShiftRows(s)) == s
  {
    var r := InvShiftRows(ShiftRows(s));
    forall i | 0 <= i < 16 ensures r[i] == s[i] {
      var row, col := i % 4, i / 4;
      var j := row + 4 * ((col - row + 4) % 4);
      assert j % 4 == row && j / 4 == (col - row + 4) % 4;
      assert (j / 4 + row) % 4 == col;
    }
  }

  lemma MixColumnInverse(a: Bytes)
    requires |a| == 4
    ensures InvMixColumn(MixColumn(a)) == a
  {
    UnmixInvertsMix(a[0], a[1], a[2], a[3]);
    UnmixInvertsMix(a[1], a[2], a[3], a[0]);
    UnmixInvertsMix(a[2], a[3], a[0], a[1]);
    UnmixInvertsMix(a[3], a[0], a[1], a[2]);
  }

  lemma ColumnsOf(p: Bytes, q: Bytes, r: Bytes, t: Bytes)
    requires |p| == |q| == |r| == |t| == 4
    ensures var s := p + q + r + t; Column(s, 0) == p && Column(s, 1) == q && Column(s, 2) == r && Column(s, 3) == t
  {
  }

  lemma MixColumnsInverse(s: Bytes)
    requires |s| == 16
    ensures InvMixColumns(MixColumns(s)) == s
  {
    var a, b, c, d := Column(s, 0), Column(s, 1), Column(s, 2), Column(s, 3);
    ColumnsOf(MixColumn(a), MixColumn(b), MixColumn(c), MixColumn(d));
    MixColumnInverse(a);
    MixColumnInverse(b);
    MixColumnInverse(c);
    MixColumnInverse(d);
    FromColumns(s);
  }

  lemma FromColumns(s: Bytes)
    requires |s| == 16
    ensures Column(s, 0) + Column(s, 1) + Column(s, 2) + Column(s, 3) == s
  {
  }

  // ---------- the cipher ----------

  function RoundKey(rk: Bytes, r: nat): (k: Bytes)
    requires |rk| == ROUND_KEY_BYTES && r <= ROUNDS
    ensures |k| == 16
  {
    rk[16 * r..16 * r + 16]
  }

  function Round(rk: Bytes, s: Bytes, r: nat): (t: Bytes)
    requires |rk| == ROUND_KEY_BYTES && |s| == 16 && r <= ROUNDS
    ensures |t| == 16
  {
    XorBytes(MixColumns(ShiftRows(SubBytes(s))), RoundKey(rk, r))
  }

  /** The last round has no column mix. */
  function LastRound(rk: Bytes, s: Bytes): (t: Bytes)
    requires |rk| == ROUND_KEY_BYTES && |s| == 16
    ensures |t| == 16
  {
    XorBytes(ShiftRows(SubBytes(s)), RoundKey(rk, ROUNDS))
  }

  function InvRound(rk: Bytes, s: Bytes, r: nat): (t: Bytes)
    requires |rk| == ROUND_KEY_BYTES && |s| == 16 && r <= ROUNDS
    ensures |t| == 16
  {
    InvMixColumns(XorBytes(InvSubBytes(InvShiftRows(s)), RoundKey(rk, r)))
  }

  function InvLastRound(rk: Bytes, s: Bytes): (t: Bytes)
    requires |rk| == ROUND_KEY_BYTES && |s| == 16
    ensures |t| == 16
  {
    XorBytes(InvSubBytes(InvShiftRows(s)), RoundKey(rk, 0))
  }

  /** The state after round r of encryption, round 0 being the first key addition. */
  function EncRound(rk: Bytes, block: Bytes, r: nat): (s: Bytes)
    requires |rk| == ROUND_KEY_BYTES && |block| == 16 && r < ROUNDS
    ensures |s| == 16
  {
    if r == 0 then XorBytes(block, RoundKey(rk, 0))
    else Round(rk, EncRound(rk, block, r - 1), r)
  }

  function Encrypt(rk: Bytes, block: Bytes): (c: Bytes)
    requires |rk| == ROUND_KEY_BYTES && |block| == 16
    ensures |c| == 16
  {
    LastRound(rk, EncRound(rk, block, 9))
  }

  /** The state of decryption when only rounds up to r remain to be undone. */
  function DecRound(rk: Bytes, block: Bytes, r: nat): (s: Bytes)
    requires |rk| == ROUND_KEY_BYTES && |block| == 16 && r < ROUNDS
    ensures |s| == 16
    decreases ROUNDS - r
  {
    if r == 9 then XorBytes(block, RoundKey(rk, 10))
    else InvRound(rk, DecRound(rk, block, r + 1), r + 1)
  }

  function Decrypt(rk: Bytes, block: Bytes): (p: Bytes)
    requires |rk| == ROUND_KEY_BYTES && |block| == 16
    ensures |p| == 16
  {
    InvLastRound(rk, DecRound(rk, block, 0))
  }

  lemma EncRoundStep(rk: Bytes, block: Bytes, r: nat, next: nat)
    requires |rk| == ROUND_KEY_BYTES && |block| == 16 && next == r + 1 < ROUNDS
    ensures EncRound(rk, block, next) == Round(rk, EncRound(rk, block, r), next)
  {
  }

  lemma DecRoundStep(rk: Bytes, block: Bytes, r: nat, next: nat)
    requires |rk| == ROUND_KEY_BYTES && |block| == 16 && r == next + 1 < ROUNDS
    ensures DecRound(rk, block, next) == InvRound(rk, DecRound(rk, block, r), r)
  {
  }

  lemma {:induction false} DecRoundUndoes(rk: Bytes, block: Bytes, r: nat)
    requires |rk| == ROUND_KEY_BYTES && |block| == 16 && r < ROUNDS
    ensures DecRound(rk, Encrypt(rk, block), r) == ShiftRows(SubBytes(EncRound(rk, block, r)))
    decreases ROUNDS - r
  {
    if r == 9 {
      XorBytesInverse(ShiftRows(SubBytes(EncRound(rk, block, 9))), RoundKey(rk, 10));
    } else {
      DecRoundUndoes(rk, block, r + 1);
      var e := EncRound(rk, block, r + 1);
      ShiftRowsInverse(SubBytes(e));
      SubBytesInverse(e);
      var m := ShiftRows(SubBytes(EncRound(rk, block, r)));
      XorBytesInverse(MixColumns(m), RoundKey(rk, r + 1));
      MixColumnsInverse(m);
    }
  }

  /** Decryption inverts encryption, for every round-key array and every block. */
  lemma DecryptInvertsEncrypt(rk: Bytes, block: Bytes)
    requires |rk| == ROUND_KEY_BYTES && |block| == 16
    ensures Decrypt(rk, Encrypt(rk, block)) == block
  {
    DecRoundUndoes(rk, block, 0);
    var e := EncRound(rk, block, 0);
    ShiftRowsInverse(SubBytes(e));
    SubBytesInverse(e);
    XorBytesInverse(block, RoundKey(rk, 0));
  }

  // ---------- as keyed block functions ----------

  /** Block encryption under one round-key array, as the modes of operation see it. */
  function EncryptWith(rk: Bytes): Cipher
    requires |rk| == ROUND_KEY_BYTES
  {
    (b: Bytes) => if |b| == 16 then Encrypt(rk, b) else b
  }

  function DecryptWith(rk: Bytes): Cipher
    requires |rk| == ROUND_KEY_BYTES
  {
    (b: Bytes) => if |b| == 16 then Decrypt(rk, b) else b
  }

  /** AES is a block cipher with an inverse under every key. */
  lemma AesInverse(rk: Bytes)
    requires |rk| == ROUND_KEY_BYTES
    ensures Inverse(EncryptWith(rk), DecryptWith(rk))
  {
    var e, d := EncryptWith(rk), DecryptWith(rk);
    forall b: Bytes | |b| == 16 ensures |e(b)| == 16 && |d(b)| == 16 && d(e(b)) == b {
      DecryptInvertsEncrypt(rk, b);
    }
  }
}
