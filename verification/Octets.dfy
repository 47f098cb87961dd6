/** Byte strings and block functions, as the cipher modes use them. */
module Octets {
  import opened GaloisField

  type Bytes = seq<bv8>

  /** A function on 16-byte blocks, keyed already. */
  type Cipher = Bytes -> Bytes

  ghost predicate Blockwise(e: Cipher) {
    forall b: Bytes {:trigger e(b)} :: |b| == 16 ==> |e(b)| == 16
  }

  /** d undoes e on every block. */
  ghost predicate Inverse(e: Cipher, d: Cipher) {
    forall b: Bytes {:trigger e(b)} {:trigger d(b)} :: |b| == 16 ==> |e(b)| == 16 && |d(b)| == 16 && d(e(b)) == b
  }

  function XorBytes(s: Bytes, k: Bytes): (r: Bytes)
    requires |s| == |k|
    ensures |r| == |s|
  {
    seq(|s|, i requires 0 <= i < |s| => Xor(s[i], k[i]))
  }

  lemma XorBytesInverse(s: Bytes, k: Bytes)
    requires |s| == |k|
    ensures XorBytes(XorBytes(s, k), k) == s
  {
    var r := XorBytes(XorBytes(s, k), k);
    forall i | 0 <= i < |s| ensures r[i] == s[i] {
      XorLaws(s[i], k[i], 0);
    }
  }

  function Fill(x: bv8, n: nat): (r: Bytes)
    ensures |r| == n && forall i :: 0 <= i < n ==> r[i] == x
  {
    seq(n, i => x)
  }
}
