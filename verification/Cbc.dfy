/** CBC mode over any block cipher, and TLS 1.2's padding on top of it (section 6.2.3.2 of RFC 5246). */
module Cbc {
  import opened GaloisField
  import opened Octets

  const MAX_PADDED: nat := 4096

  // ---------- chaining on values ----------

  ghost predicate WholeBlocks(text: Bytes) {
    |text| % 16 == 0
  }

  ghost function CbcEnc(e: Cipher, prev: Bytes, text: Bytes): (c: Bytes)
    requires Blockwise(e) && |prev| == 16 && WholeBlocks(text)
    ensures |c| == |text|
    decreases |text|
  {
    if |text| == 0 then []
    else
      var block := e(XorBytes(text[..16], prev));
      block + CbcEnc(e, block, text[16..])
  }

  ghost function CbcDec(d: Cipher, prev: Bytes, text: Bytes): (p: Bytes)
    requires Blockwise(d) && |prev| == 16 && WholeBlocks(text)
    ensures |p| == |text|
    decreases |text|
  {
    if |text| == 0 then [] else XorBytes(d(text[..16]), prev) + CbcDec(d, text[..16], text[16..])
  }

  lemma CbcDecCons(d: Cipher, prev: Bytes, block: Bytes, rest: Bytes)
    requires Blockwise(d) && |prev| == |block| == 16 && WholeBlocks(rest)
    ensures WholeBlocks(block + rest)
    ensures CbcDec(d, prev, block + rest) == XorBytes(d(block), prev) + CbcDec(d, block, rest)
  {
    assert (block + rest)[..16] == block && (block + rest)[16..] == rest;
  }

  /** Decryption recovers the text, for every text of whole blocks and every starting vector. */
  lemma {:induction false} CbcInverts(e: Cipher, d: Cipher, prev: Bytes, text: Bytes)
    requires Inverse(e, d) && |prev| == 16 && WholeBlocks(text)
    ensures CbcDec(d, prev, CbcEnc(e, prev, text)) == text
    decreases |text|
  {
    if |text| > 0 {
      var first, others := text[..16], text[16..];
      var block := e(XorBytes(first, prev));
      CbcDecCons(d, prev, block, CbcEnc(e, block, others));
      XorBytesInverse(first, prev);
      CbcInverts(e, d, block, others);
      assert text == first + others;
    }
  }

  /** Block i of the ciphertext is the encryption of block i of the text with the ciphertext block before it added in. */
  lemma {:induction false} CbcAt(e: Cipher, prev: Bytes, text: Bytes, i: nat, at: nat)
    requires Blockwise(e) && |prev| == 16 && WholeBlocks(text) && at == 16 * i && at + 16 <= |text|
    ensures var c := CbcEnc(e, prev, text);
      c[at..at + 16] == e(XorBytes(text[at..at + 16], if i == 0 then prev else c[at - 16..at]))
    decreases i
  {
    var c := CbcEnc(e, prev, text);
    var block := e(XorBytes(text[..16], prev));
    var rest := CbcEnc(e, block, text[16..]);
    assert c == block + rest;
    if i == 0 {
      assert c[at..at + 16] == block && text[at..at + 16] == text[..16];
    } else {
      var j, b := i - 1, at - 16;
      CbcAt(e, block, text[16..], j, b);
      assert c[at..at + 16] == rest[b..b + 16] && text[at..at + 16] == text[16..][b..b + 16];
      assert c[at - 16..at] == if j == 0 then block else rest[b - 16..b];
    }
  }

  /** The last ciphertext block, or the starting vector when there is none. */
  ghost function LastBlock(prev: Bytes, c: Bytes): (b: Bytes)
    requires |prev| == 16 && |c| % 16 == 0
    ensures |b| == 16
  {
    if |c| == 0 then prev else c[|c| - 16..]
  }

  lemma LastBlockAfter(prev: Bytes, first: Bytes, rest: Bytes)
    requires |prev| == |first| == 16 && |rest| % 16 == 0
    ensures LastBlock(prev, first + rest) == LastBlock(first, rest)
  {
    if |rest| == 0 {
      assert first + rest == first;
    }
  }

  /** One more block at the end. */
  lemma {:induction false} CbcEncSnoc(e: Cipher, prev: Bytes, text: Bytes, block: Bytes)
    requires Blockwise(e) && |prev| == 16 && WholeBlocks(text) && |block| == 16
    ensures var c := CbcEnc(e, prev, text); CbcEnc(e, prev, text + block) == c + e(XorBytes(block, LastBlock(prev, c)))
    decreases |text|
  {
    if |text| == 0 {
      assert text + block == block && block[..16] == block && block[16..] == [];
    } else {
      var first := e(XorBytes(text[..16], prev));
      assert (text + block)[..16] == text[..16] && (text + block)[16..] == text[16..] + block;
      CbcEncSnoc(e, first, text[16..], block);
      LastBlockAfter(prev, first, CbcEnc(e, first, text[16..]));
    }
  }

  lemma {:induction false} CbcDecSnoc(d: Cipher, prev: Bytes, text: Bytes, block: Bytes)
    requires Blockwise(d) && |prev| == 16 && WholeBlocks(text) && |block| == 16
    ensures CbcDec(d, prev, text + block) == CbcDec(d, prev, text) + XorBytes(d(block), LastBlock(prev, text))
    decreases |text|
  {
    if |text| == 0 {
      assert text + block == block && block[..16] == block && block[16..] == [];
    } else {
      assert (text + block)[..16] == text[..16] && (text + block)[16..] == text[16..] + block;
      CbcDecSnoc(d, text[..16], text[16..], block);
      assert text == text[..16] + text[16..];
      LastBlockAfter(prev, text[..16], text[16..]);
    }
  }

  // ---------- chaining in buffers ----------

  method XorBlock(a: Bytes, b: Bytes) returns (r: Bytes)
    requires |a| == |b|
    ensures r == XorBytes(a, b)
  {
    r := [];
    var i := 0;
    while i < |a|
      invariant 0 <= i <= |a| && |r| == i && forall j :: 0 <= j < i ==> r[j] == Xor(a[j], b[j])
    {
      r := r + [Xor(a[i], b[i])];
      i := i + 1;
    }
  }

  method WriteBlock(out: array<bv8>, at: nat, block: Bytes)
    requires |block| == 16 && at + 16 <= out.Length
    modifies out
    ensures out[..at + 16] == old(out[..at]) + block && out[at + 16..] == old(out[at + 16..])
  {
    var i := 0;
    while i < 16
      invariant 0 <= i <= 16
      invariant out[..at + i] == old(out[..at]) + block[..i] && out[at + i..] == old(out[at + i..])
    {
      out[at + i] := block[i];
      i := i + 1;
    }
  }

  method CbcEncrypt(e: Cipher, iv: Bytes, input: Bytes, out: array<bv8>)
    requires Blockwise(e) && |iv| == 16 && WholeBlocks(input) && |input| <= out.Length
    modifies out
    ensures out[..|input|] == CbcEnc(e, iv, input) && out[|input|..] == old(out[|input|..])
  {
    var prev := iv;
    var at := 0;
    assert input[..0] == [] && out[..0] == [];
    while at < |input|
      invariant 0 <= at <= |input| && at % 16 == 0
      invariant out[..at] == CbcEnc(e, iv, input[..at]) && prev == LastBlock(iv, out[..at])
      invariant out[|input|..] == old(out[|input|..])
    {
      var next := at + 16;
      BlockFits(at, next, |input|);
      var block := XorBlock(input[at..next], prev);
      prev := e(block);
      EncStep(e, iv, input[..at], input[at..next], out[..at], prev);
      assert input[..next] == input[..at] + input[at..next];
      WriteBlock(out, at, prev);
      assert out[|input|..] == out[next..][|input| - next..];
      at := next;
    }
    assert input[..at] == input;
  }

  lemma EncStep(e: Cipher, iv: Bytes, text: Bytes, block: Bytes, c: Bytes, x: Bytes)
    requires Blockwise(e) && |iv| == 16 && WholeBlocks(text) && |block| == 16 && c == CbcEnc(e, iv, text)
    requires x == e(XorBytes(block, LastBlock(iv, c)))
    ensures c + x == CbcEnc(e, iv, text + block) && LastBlock(iv, c + x) == x
  {
    CbcEncSnoc(e, iv, text, block);
    LastAppended(iv, c, x);
  }

  lemma LastAppended(prev: Bytes, c: Bytes, x: Bytes)
    requires |prev| == 16 && |c| % 16 == 0 && |x| == 16
    ensures |c + x| % 16 == 0 && LastBlock(prev, c + x) == x
  {
  }

  lemma BlockFits(at: nat, next: nat, n: nat)
    requires at % 16 == 0 && n % 16 == 0 && at < n && next == at + 16
    ensures next <= n && next % 16 == 0
  {
  }

  method CbcDecrypt(d: Cipher, iv: Bytes, input: Bytes, out: array<bv8>)
    requires Blockwise(d) && |iv| == 16 && WholeBlocks(input) && |input| <= out.Length
    modifies out
    ensures out[..|input|] == CbcDec(d, iv, input) && out[|input|..] == old(out[|input|..])
  {
    var prev := iv;
    var at := 0;
    assert input[..0] == [] && out[..0] == [];
    while at < |input|
      invariant 0 <= at <= |input| && at % 16 == 0
      invariant out[..at] == CbcDec(d, iv, input[..at]) && prev == LastBlock(iv, input[..at])
      invariant out[|input|..] == old(out[|input|..])
    {
      var next := at + 16;
      BlockFits(at, next, |input|);
      var decrypted := d(input[at..next]);
      var block := XorBlock(decrypted, prev);
      WriteBlock(out, at, block);
      prev := input[at..next];
      CbcDecSnoc(d, iv, input[..at], prev);
      assert input[..next] == input[..at] + prev;
      LastAppended(iv, input[..at], prev);
      assert out[|input|..] == out[next..][|input| - next..];
      at := next;
    }
    assert input[..at] == input;
  }
}
