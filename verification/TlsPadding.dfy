/** TLS 1.2 CBC padding (section 6.2.3.2 of RFC 5246): 1 to 16 bytes, each the number of bytes before the last. */
module TlsPadding {
  import opened GaloisField
  import opened Octets
  import opened Cbc

  datatype Option<T> = None | Some(value: T)

  function PadLen(n: nat): (pad: nat)
    ensures pad <= 15 && (n + pad + 1) % 16 == 0
  {
    (16 - (n + 1) % 16) % 16
  }

  lemma PadByte(pad: nat)
    requires pad <= 15
    ensures (pad as bv8) as nat == pad
  {
  }

  /** The padding with `pad` in every byte. */
  ghost function Padding(pad: nat): (x: Bytes)
    requires pad <= 15
    ensures |x| == pad + 1
  {
    Fill(pad as bv8, pad + 1)
  }

  ghost function Padded(p: Bytes): (x: Bytes)
    ensures |x| == |p| + PadLen(|p|) + 1 && |x| % 16 == 0
  {
    p + Padding(PadLen(|p|))
  }

  /** The text fills up to whole blocks with 1 to 16 bytes, each the number of those that follow the first. */
  lemma PaddedBytes(p: Bytes, i: nat)
    requires |p| <= i < |Padded(p)|
    ensures |Padded(p)| % 16 == 0 && |p| < |Padded(p)| <= |p| + 16 && Padded(p)[..|p|] == p
    ensures Padded(p)[i] as nat == |Padded(p)| - |p| - 1
  {
    PadByte(PadLen(|p|));
  }

  /** x is p followed by a well-formed padding. */
  ghost predicate Pads(x: Bytes, p: Bytes) {
    exists pad: nat {:trigger Padding(pad)} :: pad <= 15 && x == p + Padding(pad)
  }

  ghost function Unpad(x: Bytes): (r: Option<Bytes>)
  {
    if x == [] then None
    else
      var last := x[|x| - 1];
      var pad := last as nat;
      if pad > 15 || pad + 1 > |x| || x[|x| - 1 - pad..] != Fill(last, pad + 1) then None
      else Some(x[..|x| - 1 - pad])
  }

  /** Unpadding accepts exactly the padded strings, and returns what was padded. */
  lemma UnpadIff(x: Bytes, p: Bytes)
    ensures Unpad(x) == Some(p) <==> Pads(x, p)
  {
    if Unpad(x) == Some(p) {
      UnpadOnly(x, p);
    }
    if pad: nat :| pad <= 15 && x == p + Padding(pad) {
      UnpadAll(x, p, pad);
    }
  }

  lemma UnpadOnly(x: Bytes, p: Bytes)
    requires Unpad(x) == Some(p)
    ensures Pads(x, p)
  {
    var pad := x[|x| - 1] as nat;
    assert x == p + Padding(pad);
  }

  lemma UnpadAll(x: Bytes, p: Bytes, pad: nat)
    requires pad <= 15 && x == p + Padding(pad)
    ensures Unpad(x) == Some(p)
  {
    PadByte(pad);
    assert x[|x| - 1 - pad..] == Padding(pad);
    assert x[..|x| - 1 - pad] == p;
  }

  lemma UnpadInvertsPad(p: Bytes)
    ensures Unpad(Padded(p)) == Some(p)
  {
    UnpadIff(Padded(p), p);
  }

  // ---------- encryption and decryption with padding ----------

  method PadBuffer(input: Bytes, pad: nat) returns (padded: array<bv8>)
    requires pad <= 15
    ensures fresh(padded) && padded[..] == input + Padding(pad)
  {
    padded := new bv8[|input| + pad + 1];
    var i := 0;
    while i < |input|
      invariant 0 <= i <= |input| && padded[..i] == input[..i]
    {
      padded[i] := input[i];
      i := i + 1;
    }
    while i < |input| + pad + 1
      invariant |input| <= i <= |input| + pad + 1
      invariant padded[..|input|] == input && forall j :: |input| <= j < i ==> padded[j] == pad as bv8
    {
      padded[i] := pad as bv8;
      i := i + 1;
    }
  }

  /** Pads and encrypts; -1 when the result does not fit. */
  method CbcEncryptTls(e: Cipher, iv: Bytes, input: Bytes, out: array<bv8>, capacity: nat) returns (total: int)
    requires Blockwise(e) && |iv| == 16 && capacity <= out.Length
    modifies out
    ensures var n := |Padded(input)|;
      && total == (if n <= capacity && n <= 4096 then n else -1)
      && (total >= 0 ==> out[..n] == CbcEnc(e, iv, Padded(input)) && out[n..] == old(out[n..]))
      && (total < 0 ==> out[..] == old(out[..]))
  {
    var pad := PadLen(|input|);
    total := |input| + pad + 1;
    if total > capacity || total > MAX_PADDED {
      return -1;
    }
    var padded := PadBuffer(input, pad);
    CbcEncrypt(e, iv, padded[..], out);
  }

  /** Decrypts and removes the padding; -1 for any other input. */
  method CbcDecryptTls(d: Cipher, iv: Bytes, input: Bytes, out: array<bv8>) returns (n: int)
    requires Blockwise(d) && |iv| == 16 && |input| <= out.Length
    modifies out
    ensures if 0 < |input| <= 4096 && WholeBlocks(input) && Unpad(CbcDec(d, iv, input)).Some? then
        var plain := Unpad(CbcDec(d, iv, input)).value; n == |plain| && out[..n] == plain
      else n == -1
  {
    if |input| == 0 || |input| % 16 != 0 || |input| > MAX_PADDED {
      return -1;
    }
    var decrypted := new bv8[MAX_PADDED];
    CbcDecrypt(d, iv, input, decrypted);
    n := CheckPadding(decrypted[..|input|]);
    if n >= 0 {
      CopyOut(decrypted[..n], out);
    }
  }

  method CheckPadding(x: Bytes) returns (n: int)
    requires x != []
    ensures if Unpad(x).Some? then n == |Unpad(x).value| && x[..n] == Unpad(x).value else n == -1
  {
    var last := x[|x| - 1];
    var pad := last as nat;
    if pad > 15 || pad + 1 > |x| {
      return -1;
    }
    var i := |x| - 1 - pad;
    while i < |x| - 1
      invariant |x| - 1 - pad <= i <= |x| - 1
      invariant forall j :: |x| - 1 - pad <= j < i ==> x[j] == last
    {
      if x[i] != last {
        assert x[|x| - 1 - pad..][i - (|x| - 1 - pad)] != last;
        return -1;
      }
      i := i + 1;
    }
    assert x[|x| - 1 - pad..] == Fill(last, pad + 1);
    return |x| - pad - 1;
  }

  method CopyOut(from: Bytes, to: array<bv8>)
    requires |from| <= to.Length
    modifies to
    ensures to[..|from|] == from && to[|from|..] == old(to[|from|..])
  {
    var i := 0;
    while i < |from|
      invariant 0 <= i <= |from| && to[..i] == from[..i] && to[i..] == old(to[i..])
    {
      to[i] := from[i];
      i := i + 1;
    }
  }
}
