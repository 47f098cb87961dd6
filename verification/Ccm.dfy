/** CCM with 8-byte tags and 2-byte lengths (RFC 3610), as CCMP uses it, over any block cipher. */
module Ccm {
  import opened GaloisField
  import opened Octets
  import opened BigEndians
  import opened Cbc

  const NONCE_LEN: nat := 13
  const MIC_LEN: nat := 8

  // ---------- the authentication blocks (section 2.2) ----------

  /** Zeros up to the next block boundary. */
  function PadTo16(x: Bytes): (r: Bytes)
    ensures WholeBlocks(r)
  {
    x + Fill(0, (16 - |x| % 16) % 16)
  }

  function FirstBlock(nonce: Bytes, msgLen: nat, hasAad: bool): (b: Bytes)
    requires |nonce| == NONCE_LEN
    ensures |b| == 16
  {
    [if hasAad then 0x59 else 0x19] + nonce + BigEndian(msgLen, 2)
  }

  /** The additional data with its length in front; nothing when there is none. */
  function AadBlocks(aad: Bytes): (r: Bytes)
    ensures WholeBlocks(r)
  {
    if |aad| > 0 then PadTo16(BigEndian(|aad|, 2) + aad) else []
  }

  lemma WholeAppend(a: Bytes, b: Bytes)
    requires WholeBlocks(a) && WholeBlocks(b)
    ensures WholeBlocks(a + b)
  {
  }

  /** The data to authenticate: flags, nonce and length, then the counted data, then the message, each in whole blocks. */
  ghost function Formatted(nonce: Bytes, aad: Bytes, msg: Bytes): (r: Bytes)
    requires |nonce| == NONCE_LEN
    ensures WholeBlocks(r)
  {
    var first := FirstBlock(nonce, |msg|, |aad| > 0);
    WholeAppend(AadBlocks(aad), PadTo16(msg));
    WholeAppend(first, AadBlocks(aad) + PadTo16(msg));
    first + (AadBlocks(aad) + PadTo16(msg))
  }

  // ---------- the same in the standard's own terms ----------

  datatype Option<T> = None | Some(value: T)

  /** Two bytes count fewer than 0xFF00 bytes of additional data; more are announced and counted in four. */
  ghost function RfcAad(aad: Bytes): (r: Bytes)
    ensures WholeBlocks(r)
  {
    if |aad| == 0 then []
    else if |aad| < 0xFF00 then PadTo16(BigEndian(|aad|, 2) + aad)
    else PadTo16([0xFF, 0xFE] + BigEndian(|aad|, 4) + aad)
  }

  /** The flags of the first block: whether there is additional data, the tag's length and the length of the length. */
  ghost function RfcFlags(hasAad: bool, tagLen: nat, lengthLen: nat): nat
    requires tagLen >= 4 && lengthLen >= 2
  {
    64 * (if hasAad then 1 else 0) + 8 * ((tagLen - 2) / 2) + (lengthLen - 1)
  }

  /** B0 of section 2.2 of RFC 3610 and the counter blocks of its section 2.3, byte by byte. */
  lemma BlockBytes(nonce: Bytes, n: nat, hasAad: bool)
    requires |nonce| == 13
    ensures var b := FirstBlock(nonce, n, hasAad);
      b[0] as nat == RfcFlags(hasAad, 8, 2) && b[1..14] == nonce && b[14] as nat == n / 256 % 256 && b[15] as nat == n % 256
    ensures var a := CounterBlock(nonce, n);
      a[0] == 1 && a[1..14] == nonce && a[14] as nat == n / 256 % 256 && a[15] as nat == n % 256
  {
    BigEndianAt(n, 2, 0);
    BigEndianAt(n, 2, 1);
    assert Pow256(0) == 1 && Pow256(1) == 256;
    var b, a := FirstBlock(nonce, n, hasAad), CounterBlock(nonce, n);
    assert b[14] == a[14] == BigEndian(n, 2)[0] && b[15] == a[15] == BigEndian(n, 2)[1];
  }

  /** The blocks of section 2.2 of RFC 3610; a two-byte length field allows no longer message. */
  ghost function RfcFormatted(nonce: Bytes, aad: Bytes, msg: Bytes): Option<Bytes>
    requires |nonce| == NONCE_LEN
  {
    if |msg| >= 0x1_0000 then None
    else Some(FirstBlock(nonce, |msg|, |aad| > 0) + (RfcAad(aad) + PadTo16(msg)))
  }

  /** The kernel's blocks are the standard's exactly for lengths that need no longer count. */
  lemma FormattedIffShort(nonce: Bytes, aad: Bytes, msg: Bytes)
    requires |nonce| == NONCE_LEN && |aad| < 0x1_0000_0000
    ensures RfcFormatted(nonce, aad, msg) == Some(Formatted(nonce, aad, msg)) <==> |aad| < 0xFF00 && |msg| < 0x1_0000
  {
    if |aad| >= 0xFF00 && |msg| < 0x1_0000 {
      var first := FirstBlock(nonce, |msg|, true);
      LongAadDiffers(aad, first, PadTo16(msg));
    }
  }

  lemma LongAadDiffers(aad: Bytes, first: Bytes, rest: Bytes)
    requires 0xFF00 <= |aad| < 0x1_0000_0000 && |first| == 16
    ensures first + (RfcAad(aad) + rest) != first + (AadBlocks(aad) + rest)
  {
    var a, b := first + (RfcAad(aad) + rest), first + (AadBlocks(aad) + rest);
    assert a[17] == RfcAad(aad)[1] == 0xFE;
    assert b[17] == AadBlocks(aad)[1] == BigEndian(|aad|, 2)[1] == Low8(|aad|);
    if Low8(|aad|) == 0xFE {
      assert Low8(0xFE) == 0xFE;
      Low8Injective(|aad|, 0xFE);
      LongAadLength(aad);
      assert |a| != |b|;
    }
  }

  lemma LongAadLength(aad: Bytes)
    requires 0xFF00 <= |aad| < 0x1_0000_0000 && |aad| % 256 == 0xFE
    ensures |RfcAad(aad)| == |aad| + 18 && |AadBlocks(aad)| == |aad| + 2
  {
    var q := |aad| / 256;
    var k := 16 * q + 16;
    assert |aad| + 2 == 16 * k;
    PadWhole(BigEndian(|aad|, 2) + aad, k);
    PadFour([0xFF, 0xFE] + BigEndian(|aad|, 4) + aad, k);
  }

  lemma PadWhole(x: Bytes, k: nat)
    requires |x| == 16 * k
    ensures |PadTo16(x)| == 16 * k
  {
  }

  lemma PadFour(x: Bytes, k: nat)
    requires |x| == 16 * k + 4
    ensures |PadTo16(x)| == 16 * k + 16
  {
  }

  /** CBC-MAC: every block is added in and the sum encrypted. */
  ghost function CbcMac(e: Cipher, x: Bytes, blocks: Bytes): (r: Bytes)
    requires Blockwise(e) && |x| == 16 && WholeBlocks(blocks)
    ensures |r| == 16
    decreases |blocks|
  {
    if |blocks| == 0 then x else CbcMac(e, e(XorBytes(x, blocks[..16])), blocks[16..])
  }

  lemma {:induction false} CbcMacAppend(e: Cipher, x: Bytes, a: Bytes, b: Bytes)
    requires Blockwise(e) && |x| == 16 && WholeBlocks(a) && WholeBlocks(b)
    ensures WholeBlocks(a + b) && CbcMac(e, x, a + b) == CbcMac(e, CbcMac(e, x, a), b)
    decreases |a|
  {
    if |a| == 0 {
      assert a + b == b;
    } else {
      assert (a + b)[..16] == a[..16] && (a + b)[16..] == a[16..] + b;
      CbcMacAppend(e, e(XorBytes(x, a[..16])), a[16..], b);
    }
  }

  // ---------- the same, block by block as the kernel pads ----------

  function Chunk(x: Bytes): (n: nat)
    ensures n <= 16 && n <= |x| && (|x| > 0 ==> n > 0)
  {
    if |x| > 16 then 16 else |x|
  }

  function Block(x: Bytes): (b: Bytes)
    ensures |b| == 16
  {
    x[..Chunk(x)] + Fill(0, 16 - Chunk(x))
  }

  /** CBC-MAC of a string padded on the way. */
  ghost function PaddedMac(e: Cipher, x: Bytes, text: Bytes): (r: Bytes)
    requires Blockwise(e) && |x| == 16
    ensures |r| == 16
    decreases |text|
  {
    if |text| == 0 then x else PaddedMac(e, e(XorBytes(x, Block(text))), text[Chunk(text)..])
  }

  lemma {:induction false} PaddedMacIs(e: Cipher, x: Bytes, text: Bytes)
    requires Blockwise(e) && |x| == 16
    ensures PaddedMac(e, x, text) == CbcMac(e, x, PadTo16(text))
    decreases |text|
  {
    if |text| > 0 {
      var p := PadTo16(text);
      var rest := text[Chunk(text)..];
      PadTo16Step(text);
      PaddedMacIs(e, e(XorBytes(x, Block(text))), rest);
    }
  }

  lemma PadTo16Step(text: Bytes)
    requires |text| > 0
    ensures |PadTo16(text)| > 0 && PadTo16(text)[..16] == Block(text) && PadTo16(text)[16..] == PadTo16(text[Chunk(text)..])
  {
    if |text| <= 16 {
      assert text[Chunk(text)..] == [];
    } else {
      assert |text[16..]| % 16 == |text| % 16;
    }
  }

  // ---------- computing the MAC ----------

  /** The tag before masking, over the formatted data from an all-zero start. */
  ghost function Tag(e: Cipher, nonce: Bytes, aad: Bytes, msg: Bytes): (r: Bytes)
    requires Blockwise(e) && |nonce| == NONCE_LEN
    ensures |r| == 16
  {
    CbcMac(e, Fill(0, 16), Formatted(nonce, aad, msg))
  }

  lemma XorZeros(b: Bytes)
    requires |b| == 16
    ensures XorBytes(Fill(0, 16), b) == b
  {
    var r := XorBytes(Fill(0, 16), b);
    forall i | 0 <= i < 16 ensures r[i] == b[i] {
      XorLaws(0, b[i], 0);
      XorLaws(b[i], 0, 0);
    }
  }

  /** The tag in the order the kernel computes it. */
  lemma TagInStages(e: Cipher, nonce: Bytes, aad: Bytes, msg: Bytes)
    requires Blockwise(e) && |nonce| == NONCE_LEN
    ensures var x0 := e(FirstBlock(nonce, |msg|, |aad| > 0));
      var x1 := if |aad| > 0 then PaddedMac(e, x0, BigEndian(|aad|, 2) + aad) else x0;
      Tag(e, nonce, aad, msg) == PaddedMac(e, x1, msg)
  {
    var first := FirstBlock(nonce, |msg|, |aad| > 0);
    var x0 := e(first);
    var zero := Fill(0, 16);
    WholeAppend(AadBlocks(aad), PadTo16(msg));
    CbcMacAppend(e, zero, first, AadBlocks(aad) + PadTo16(msg));
    OneBlock(e, zero, first);
    XorZeros(first);
    CbcMacAppend(e, x0, AadBlocks(aad), PadTo16(msg));
    if |aad| > 0 {
      PaddedMacIs(e, x0, BigEndian(|aad|, 2) + aad);
    }
    PaddedMacIs(e, CbcMac(e, x0, AadBlocks(aad)), msg);
  }

  lemma OneBlock(e: Cipher, x: Bytes, b: Bytes)
    requires Blockwise(e) && |x| == |b| == 16
    ensures CbcMac(e, x, b) == e(XorBytes(x, b))
  {
    assert b[..16] == b && b[16..] == [];
  }

  method ComputeTag(e: Cipher, nonce: Bytes, aad: Bytes, msg: Bytes) returns (mac: Bytes)
    requires Blockwise(e) && |nonce| == NONCE_LEN
    ensures mac == Tag(e, nonce, aad, msg)
  {
    TagInStages(e, nonce, aad, msg);
    mac := e(FirstBlock(nonce, |msg|, |aad| > 0));
    if |aad| > 0 {
      mac := MacAad(e, mac, aad);
    }
    mac := MacMessage(e, mac, msg);
  }

  /** The additional data, copied byte by byte into blocks, the first of which starts with the length. */
  method MacAad(e: Cipher, x: Bytes, aad: Bytes) returns (r: Bytes)
    requires Blockwise(e) && |x| == 16 && |aad| > 0
    ensures r == PaddedMac(e, x, BigEndian(|aad|, 2) + aad)
  {
    var block := new bv8[16](_ => 0);
    var length := PutBigEndian(|aad|, 2);
    block[0], block[1] := length[0], length[1];
    var filled, consumed := 2, 0;
    r := x;
    assert block[..2] + aad[0..] == BigEndian(|aad|, 2) + aad;
    while consumed < |aad|
      invariant consumed <= |aad| && (filled == 2 || filled == 0) && |r| == 16 && block.Length == 16 && fresh(block)
      invariant forall k :: filled <= k < 16 ==> block[k] == 0
      invariant consumed == |aad| ==> filled == 0
      invariant PaddedMac(e, r, block[..filled] + aad[consumed..]) == PaddedMac(e, x, BigEndian(|aad|, 2) + aad)
    {
      ghost var text := block[..filled] + aad[consumed..];
      filled, consumed := FillBlock(block, filled, aad, consumed);
      assert text == block[..filled] + aad[consumed..];
      BlockOf(block[..], filled, aad[consumed..]);
      r := XorAndEncrypt(e, r, block[..]);
      ClearBlock(block);
      filled := 0;
      assert block[..0] + aad[consumed..] == aad[consumed..];
    }
    assert block[..filled] + aad[consumed..] == [];
  }

  /** A block whose filled part is what is left, or is all of it, is the next padded block. */
  lemma BlockOf(block: Bytes, filled: nat, rest: Bytes)
    requires |block| == 16 && 0 < filled <= 16 && (forall k :: filled <= k < 16 ==> block[k] == 0) && (filled == 16 || rest == [])
    ensures var text := block[..filled] + rest; Block(text) == block && text[Chunk(text)..] == rest
  {
    var text := block[..filled] + rest;
    if rest == [] {
      assert text == block[..filled];
    }
  }

  method FillBlock(block: array<bv8>, filled: nat, aad: Bytes, consumed: nat) returns (f: nat, c: nat)
    requires block.Length == 16 && filled < 16 && consumed < |aad|
    requires forall k :: filled <= k < 16 ==> block[k] == 0
    modifies block
    ensures filled < f <= 16 && consumed < c <= |aad| && (f == 16 || c == |aad|)
    ensures block[..f] + aad[c..] == old(block[..filled]) + aad[consumed..]
    ensures forall k :: f <= k < 16 ==> block[k] == 0
  {
    f, c := filled, consumed;
    while f < 16 && c < |aad|
      invariant filled <= f <= 16 && consumed <= c <= |aad| && f - filled == c - consumed
      invariant block[..f] + aad[c..] == old(block[..filled]) + aad[consumed..]
      invariant forall k :: f <= k < 16 ==> block[k] == 0
    {
      ghost var before := block[..f];
      block[f] := aad[c];
      assert block[..f + 1] == before + [aad[c]] && aad[c..] == [aad[c]] + aad[c + 1..];
      f, c := f + 1, c + 1;
    }
  }

  method ClearBlock(block: array<bv8>)
    requires block.Length == 16
    modifies block
    ensures forall k :: 0 <= k < 16 ==> block[k] == 0
  {
    var i := 0;
    while i < 16
      invariant 0 <= i <= 16 && forall k :: 0 <= k < i ==> block[k] == 0
    {
      block[i] := 0;
      i := i + 1;
    }
  }

  method XorAndEncrypt(e: Cipher, x: Bytes, block: Bytes) returns (r: Bytes)
    requires Blockwise(e) && |x| == |block| == 16
    ensures r == e(XorBytes(x, block))
  {
    var mixed := XorBlock(x, block);
    r := e(mixed);
  }

  method MacMessage(e: Cipher, x: Bytes, msg: Bytes) returns (r: Bytes)
    requires Blockwise(e) && |x| == 16
    ensures r == PaddedMac(e, x, msg)
  {
    r := x;
    var consumed := 0;
    assert msg[0..] == msg;
    while consumed < |msg|
      invariant consumed <= |msg| && |r| == 16 && PaddedMac(e, r, msg[consumed..]) == PaddedMac(e, x, msg)
    {
      var chunk := |msg| - consumed;
      if chunk > 16 {
        chunk := 16;
      }
      var block := msg[consumed..consumed + chunk] + Fill(0, 16 - chunk);
      assert block == Block(msg[consumed..]) && msg[consumed..][chunk..] == msg[consumed + chunk..];
      r := XorAndEncrypt(e, r, block);
      consumed := consumed + chunk;
    }
  }

  // ---------- counter mode (section 2.3) ----------

  function CounterBlock(nonce: Bytes, counter: nat): (b: Bytes)
    requires |nonce| == NONCE_LEN
    ensures |b| == 16
  {
    [0x01] + nonce + BigEndian(counter, 2)
  }

  /** The text with the key stream from this counter on added in. */
  ghost function Ctr(e: Cipher, nonce: Bytes, text: Bytes, counter: nat): (r: Bytes)
    requires Blockwise(e) && |nonce| == NONCE_LEN
    ensures |r| == |text|
    decreases |text|
  {
    if |text| == 0 then []
    else
      var n := Chunk(text);
      XorBytes(text[..n], e(CounterBlock(nonce, counter))[..n]) + Ctr(e, nonce, text[n..], counter + 1)
  }

  /** Byte i of the b-th sixteen is under byte i of the key stream block whose counter is b further on. */
  lemma {:induction false} CtrByte(e: Cipher, nonce: Bytes, text: Bytes, counter: nat, b: nat, i: nat, k: nat)
    requires Blockwise(e) && |nonce| == NONCE_LEN && k == 16 * b + i < |text| && i < 16
    ensures Ctr(e, nonce, text, counter)[k] == Xor(text[k], e(CounterBlock(nonce, counter + b))[i])
    decreases b
  {
    var n, next := Chunk(text), counter + 1;
    var head, rest := XorBytes(text[..n], e(CounterBlock(nonce, counter))[..n]), Ctr(e, nonce, text[n..], next);
    assert Ctr(e, nonce, text, counter) == head + rest;
    if b == 0 {
      assert k < n && (head + rest)[k] == head[k];
    } else {
      var c, j := b - 1, k - 16;
      assert n == 16 && (head + rest)[k] == rest[j];
      CtrByte(e, nonce, text[n..], next, c, i, j);
      assert text[n..][j] == text[k] && next + c == counter + b;
    }
  }

  /** Adding the key stream twice restores the text. */
  lemma {:induction false} CtrTwice(e: Cipher, nonce: Bytes, text: Bytes, counter: nat)
    requires Blockwise(e) && |nonce| == NONCE_LEN
    ensures Ctr(e, nonce, Ctr(e, nonce, text, counter), counter) == text
    decreases |text|
  {
    if |text| > 0 {
      var n := Chunk(text);
      var s := e(CounterBlock(nonce, counter))[..n];
      var head, tail := XorBytes(text[..n], s), Ctr(e, nonce, text[n..], counter + 1);
      var c := head + tail;
      assert c[..n] == head && c[n..] == tail && Chunk(c) == n;
      XorBytesInverse(text[..n], s);
      CtrTwice(e, nonce, text[n..], counter + 1);
      assert text == text[..n] + text[n..];
    }
  }

  method CtrCrypt(e: Cipher, nonce: Bytes, input: Bytes, out: array<bv8>)
    requires Blockwise(e) && |nonce| == NONCE_LEN && |input| <= out.Length
    modifies out
    ensures out[..|input|] == Ctr(e, nonce, input, 1) && out[|input|..] == old(out[|input|..])
  {
    var consumed, counter := 0, 1;
    assert input[0..] == input;
    while consumed < |input|
      invariant 0 <= consumed <= |input| && counter >= 1
      invariant out[..consumed] + Ctr(e, nonce, input[consumed..], counter) == Ctr(e, nonce, input, 1)
      invariant out[|input|..] == old(out[|input|..])
    {
      var s := e(CounterBlock(nonce, counter));
      var chunk := Chunk(input[consumed..]);
      var piece := XorBlock(input[consumed..consumed + chunk], s[..chunk]);
      CtrStep(e, nonce, input[consumed..], counter, piece);
      assert input[consumed..][..chunk] == input[consumed..consumed + chunk];
      assert input[consumed..][chunk..] == input[consumed + chunk..];
      WritePiece(out, consumed, piece, |input|);
      consumed, counter := consumed + chunk, counter + 1;
    }
    assert input[consumed..] == [] && out[..consumed] + [] == out[..consumed];
  }

  lemma CtrStep(e: Cipher, nonce: Bytes, text: Bytes, counter: nat, piece: Bytes)
    requires Blockwise(e) && |nonce| == NONCE_LEN && |text| > 0
    requires piece == XorBytes(text[..Chunk(text)], e(CounterBlock(nonce, counter))[..Chunk(text)])
    ensures Ctr(e, nonce, text, counter) == piece + Ctr(e, nonce, text[Chunk(text)..], counter + 1)
  {
  }

  method WritePiece(out: array<bv8>, at: nat, piece: Bytes, end: nat)
    requires at + |piece| <= end <= out.Length
    modifies out
    ensures out[..at + |piece|] == old(out[..at]) + piece && out[end..] == old(out[end..])
  {
    var i := 0;
    while i < |piece|
      invariant 0 <= i <= |piece|
      invariant out[..at + i] == old(out[..at]) + piece[..i] && out[end..] == old(out[end..])
    {
      out[at + i] := piece[i];
      i := i + 1;
    }
  }

  // ---------- encryption and decryption ----------

  /** The transmitted tag: the first bytes of the CBC-MAC under the mask of counter zero. */
  ghost function Mic(e: Cipher, nonce: Bytes, aad: Bytes, msg: Bytes): (r: Bytes)
    requires Blockwise(e) && |nonce| == NONCE_LEN
    ensures |r| == MIC_LEN
  {
    XorBytes(Tag(e, nonce, aad, msg)[..MIC_LEN], e(CounterBlock(nonce, 0))[..MIC_LEN])
  }

  /** The tag's eight bytes are the CBC-MAC's first under the key stream block that no byte of the text is under. */
  lemma MicBytes(e: Cipher, nonce: Bytes, aad: Bytes, msg: Bytes, i: nat)
    requires Blockwise(e) && |nonce| == 13 && i < 8
    ensures |Mic(e, nonce, aad, msg)| == 8
    ensures Mic(e, nonce, aad, msg)[i] == Xor(CbcMac(e, Fill(0, 16), Formatted(nonce, aad, msg))[i], e(CounterBlock(nonce, 0))[i])
  {
  }

  method ComputeMic(e: Cipher, nonce: Bytes, aad: Bytes, msg: Bytes) returns (mic: Bytes)
    requires Blockwise(e) && |nonce| == NONCE_LEN
    ensures mic == Mic(e, nonce, aad, msg)
  {
    var mac := ComputeTag(e, nonce, aad, msg);
    var mask := e(CounterBlock(nonce, 0))[..MIC_LEN];
    mic := XorBlock(mac[..MIC_LEN], mask);
  }

  method CcmEncrypt(e: Cipher, nonce: Bytes, aad: Bytes, plaintext: Bytes, out: array<bv8>) returns (mic: Bytes)
    requires Blockwise(e) && |nonce| == NONCE_LEN && |plaintext| <= out.Length
    modifies out
    ensures out[..|plaintext|] == Ctr(e, nonce, plaintext, 1) && out[|plaintext|..] == old(out[|plaintext|..])
    ensures mic == Mic(e, nonce, aad, plaintext)
  {
    mic := ComputeMic(e, nonce, aad, plaintext);
    CtrCrypt(e, nonce, plaintext, out);
  }

  /** Accepts exactly the tag of the decrypted text. */
  method CcmDecrypt(e: Cipher, nonce: Bytes, aad: Bytes, ciphertext: Bytes, mic: Bytes, out: array<bv8>) returns (ok: bool)
    requires Blockwise(e) && |nonce| == NONCE_LEN && |ciphertext| <= out.Length && |mic| == MIC_LEN
    modifies out
    ensures out[..|ciphertext|] == Ctr(e, nonce, ciphertext, 1) && out[|ciphertext|..] == old(out[|ciphertext|..])
    ensures ok <==> mic == Mic(e, nonce, aad, Ctr(e, nonce, ciphertext, 1))
  {
    CtrCrypt(e, nonce, ciphertext, out);
    var expected := ComputeMic(e, nonce, aad, out[..|ciphertext|]);
    ok := SameBytes(expected, mic);
  }

  method SameBytes(a: Bytes, b: Bytes) returns (same: bool)
    requires |a| == |b|
    ensures same <==> a == b
  {
    var i := 0;
    while i < |a|
      invariant 0 <= i <= |a| && a[..i] == b[..i]
    {
      if a[i] != b[i] {
        return false;
      }
      i := i + 1;
    }
    return true;
  }

  /** A sealed message opens: it is accepted and its plaintext comes back, whatever its length. */
  method SealAndOpen(e: Cipher, nonce: Bytes, aad: Bytes, plaintext: Bytes) returns (ok: bool, text: Bytes)
    requires Blockwise(e) && |nonce| == NONCE_LEN
    ensures ok && text == plaintext
  {
    var sealed, plain := new bv8[|plaintext|], new bv8[|plaintext|];
    var mic := CcmEncrypt(e, nonce, aad, plaintext, sealed);
    CtrTwice(e, nonce, plaintext, 1);
    ok := CcmDecrypt(e, nonce, aad, sealed[..|plaintext|], mic, plain);
    text := plain[..|plaintext|];
  }
}
