/** TLS 1.2 record protection (section 6.2.3.1 of RFC 5246): MAC, then pad, then encrypt, with implicit sequence numbers. */
module TlsRecords {
  import opened GaloisField
  import opened Octets
  import opened Cbc
  import opened TlsPadding
  import opened BigEndians

  const MAX_RECORD: nat := 1200
  const TWO64: nat := 0x1_0000_0000_0000_0000

  /** A keyed MAC with 32-byte tags; HMAC-SHA256 in the kernel. */
  type Mac = (Bytes, Bytes) -> Bytes

  ghost predicate Tags32(mac: Mac) {
    forall k: Bytes, m: Bytes {:trigger mac(k, m)} :: |mac(k, m)| == 32
  }

  /** What the MAC covers: sequence number, type, version, length and content. */
  function MacInput(seqNum: nat, contentType: bv8, content: Bytes): Bytes {
    BigEndian(seqNum, 8) + [contentType, 0x03, 0x03] + BigEndian(|content|, 2) + content
  }

  /** Byte by byte: eight of sequence number, the type, the version 3.3, two of length, then the content. */
  lemma MacInputBytes(seqNum: nat, contentType: bv8, content: Bytes, i: nat)
    requires i < 8
    ensures var m := MacInput(seqNum, contentType, content);
      && |m| == 13 + |content| && m[i] as nat == seqNum / Pow256(7 - i) % 256 && m[8] == contentType && m[9] == m[10] == 3
      && m[11] as nat == |content| / 256 % 256 && m[12] as nat == |content| % 256 && m[13..] == content
  {
    var m := MacInput(seqNum, contentType, content);
    assert m[i] == BigEndian(seqNum, 8)[i];
    BigEndianAt(seqNum, 8, i);
    var n := |content|;
    assert m[11] == BigEndian(n, 2)[0] && m[12] == BigEndian(n, 2)[1];
    BigEndianAt(n, 2, 0);
    BigEndianAt(n, 2, 1);
    assert Pow256(0) == 1 && Pow256(1) == 256;
  }

  /** The MAC input determines sequence number, type and content: no record can stand for another. */
  lemma MacInputInjective(s: nat, t: bv8, c: Bytes, s': nat, t': bv8, c': Bytes)
    requires s < TWO64 && s' < TWO64 && MacInput(s, t, c) == MacInput(s', t', c')
    ensures s == s' && t == t' && c == c'
  {
    var m, m' := MacInput(s, t, c), MacInput(s', t', c');
    assert m[..8] == BigEndian(s, 8) && m'[..8] == BigEndian(s', 8);
    assert m[8] == t && m'[8] == t';
    assert m[13..] == c && m'[13..] == c';
    Pow256Is();
    BigEndianInjective(s, s', 8);
  }

  // ---------- one record ----------

  /** The protected fragment of a record. */
  ghost function Protect(e: Cipher, mac: Mac, key: Bytes, seqNum: nat, contentType: bv8, content: Bytes, iv: Bytes): Bytes
    requires Blockwise(e) && |iv| == 16
  {
    iv + CbcEnc(e, iv, Padded(content + mac(key, MacInput(seqNum, contentType, content))))
  }

  /** The content of a decrypted record, if its last 32 bytes are its MAC. */
  ghost function Authentic(mac: Mac, key: Bytes, seqNum: nat, contentType: bv8, plain: Bytes): Option<Bytes> {
    if |plain| < 32 then None
    else
      var content := plain[..|plain| - 32];
      if plain[|plain| - 32..] == mac(key, MacInput(seqNum, contentType, content)) then Some(content) else None
  }

  /** What a fragment decrypts to once its padding is off, if it has the shape of a record at all. */
  ghost function Bared(d: Cipher, raw: Bytes): (plain: Option<Bytes>)
    requires Blockwise(d)
    ensures plain.Some? ==> |plain.value| + 17 <= |raw|
  {
    if |raw| < 32 || !WholeBlocks(raw[16..]) || |raw[16..]| > MAX_PADDED then None else Unpad(CbcDec(d, raw[..16], raw[16..]))
  }

  ghost function Open(d: Cipher, mac: Mac, key: Bytes, seqNum: nat, contentType: bv8, raw: Bytes): Option<Bytes>
    requires Blockwise(d)
  {
    var plain := Bared(d, raw);
    if plain.None? then None else Authentic(mac, key, seqNum, contentType, plain.value)
  }

  /** The content fits the buffer its MAC is computed in. */
  ghost predicate FitsMac(d: Cipher, raw: Bytes)
    requires Blockwise(d)
  {
    var plain := Bared(d, raw);
    plain.Some? ==> |plain.value| <= MAX_RECORD + 32
  }

  lemma AuthenticOwn(mac: Mac, key: Bytes, seqNum: nat, contentType: bv8, content: Bytes)
    requires Tags32(mac)
    ensures Authentic(mac, key, seqNum, contentType, content + mac(key, MacInput(seqNum, contentType, content))) == Some(content)
  {
    var tag := mac(key, MacInput(seqNum, contentType, content));
    var plain := content + tag;
    assert plain[..|plain| - 32] == content && plain[|plain| - 32..] == tag;
  }

  /** A protected record decrypts to its content and tag, however long it is. */
  lemma BaredOwn(e: Cipher, d: Cipher, iv: Bytes, plain: Bytes)
    requires Inverse(e, d) && |iv| == 16 && |Padded(plain)| <= MAX_PADDED
    ensures Bared(d, iv + CbcEnc(e, iv, Padded(plain))) == Some(plain)
  {
    var cipher := CbcEnc(e, iv, Padded(plain));
    CbcInverts(e, d, iv, Padded(plain));
    UnpadInvertsPad(plain);
    var raw := iv + cipher;
    assert raw[..16] == iv && raw[16..] == cipher;
  }

  /** Opening a protected record under the same keys and number gives back its content. */
  lemma OpenInvertsProtect(e: Cipher, d: Cipher, mac: Mac, key: Bytes, seqNum: nat, contentType: bv8, content: Bytes, iv: Bytes)
    requires Inverse(e, d) && Tags32(mac) && |iv| == 16 && |content| <= MAX_RECORD + 31
    ensures var raw := Protect(e, mac, key, seqNum, contentType, content, iv);
      && Open(d, mac, key, seqNum, contentType, raw) == Some(content)
      && |raw| <= 16 + MAX_RECORD + 64 && (FitsMac(d, raw) <==> |content| <= MAX_RECORD)
  {
    var input := MacInput(seqNum, contentType, content);
    AuthenticOwn(mac, key, seqNum, contentType, content);
    var raw := BaredTag(e, d, mac(key, input), content, iv);
    assert raw == Protect(e, mac, key, seqNum, contentType, content, iv);
  }

  lemma BaredTag(e: Cipher, d: Cipher, tag: Bytes, content: Bytes, iv: Bytes) returns (raw: Bytes)
    requires Inverse(e, d) && |tag| == 32 && |iv| == 16 && |content| <= MAX_RECORD + 31
    ensures raw == iv + CbcEnc(e, iv, Padded(content + tag)) && Bared(d, raw) == Some(content + tag)
    ensures |raw| <= 16 + MAX_RECORD + 64 && (|content| == MAX_RECORD + 31 ==> |raw| == 16 + MAX_RECORD + 64)
  {
    var plain := content + tag;
    assert |Padded(plain)| <= MAX_RECORD + 64;
    BaredOwn(e, d, iv, plain);
    raw := iv + CbcEnc(e, iv, Padded(plain));
  }

  /** Every fragment shorter than 1264 bytes fits, whatever it decrypts to. */
  lemma ShortFits(d: Cipher, raw: Bytes)
    requires Blockwise(d) && |raw| < 1264
    ensures FitsMac(d, raw)
  {
  }

  /** A genuine record of 1280 bytes, a length the receiver accepts, does not fit. */
  lemma LongRecordDoesNotFit(e: Cipher, d: Cipher, mac: Mac, key: Bytes, seqNum: nat, contentType: bv8, content: Bytes, iv: Bytes)
    requires Inverse(e, d) && Tags32(mac) && |iv| == 16 && |content| == 1231
    ensures var raw := Protect(e, mac, key, seqNum, contentType, content, iv);
      |raw| == 1280 && Open(d, mac, key, seqNum, contentType, raw) == Some(content) && !FitsMac(d, raw)
  {
    OpenInvertsProtect(e, d, mac, key, seqNum, contentType, content, iv);
    var raw := BaredTag(e, d, mac(key, MacInput(seqNum, contentType, content)), content, iv);
  }

  // ---------- connections ----------

  function NextSeq(s: nat): nat {
    (s + 1) % TWO64
  }

  /** Builds the MAC's input in a buffer of 13 + MAX_RECORD bytes. The code does not look at the length: every
      write stays inside exactly when the content is no longer than a record may be. */
  method ComputeRecordMac(mac: Mac, key: Bytes, seqNum: nat, contentType: bv8, content: Bytes) returns (inside: bool, tag: Bytes)
    ensures inside <==> |content| <= MAX_RECORD
    ensures inside ==> tag == mac(key, MacInput(seqNum, contentType, content))
  {
    var input := new bv8[13 + MAX_RECORD];
    var head := PutBigEndian(seqNum, 8);
    var length := PutBigEndian(|content|, 2);
    head := head + [contentType, 0x03, 0x03] + length;
    CopyOut(head, input);
    inside, tag := true, [];
    var i := 0;
    while i < |content| && inside
      invariant 0 <= i <= |content| && input[..13] == head
      invariant inside ==> i <= MAX_RECORD && input[13..13 + i] == content[..i]
      invariant !inside ==> |content| > MAX_RECORD
      decreases |content| - i, inside
    {
      inside := 13 + i < input.Length;
      if inside {
        input[13 + i] := content[i];
        i := i + 1;
      }
    }
    if inside {
      assert input[..13 + i] == head + content;
      tag := mac(key, input[..13 + i]);
    }
  }

  class Connection {
    const mac: Mac
    const clientMacKey: Bytes
    const serverMacKey: Bytes
    const encrypt: Cipher
    const decrypt: Cipher
    var clientSeq: nat
    var serverSeq: nat

    ghost predicate Valid()
      reads this
    {
      Tags32(mac) && Blockwise(encrypt) && Blockwise(decrypt) && clientSeq < TWO64 && serverSeq < TWO64
    }

    constructor (mac: Mac, clientMacKey: Bytes, serverMacKey: Bytes, encrypt: Cipher, decrypt: Cipher)
      requires Tags32(mac) && Blockwise(encrypt) && Blockwise(decrypt)
      ensures Valid() && clientSeq == serverSeq == 0
      ensures this.mac == mac && this.clientMacKey == clientMacKey && this.serverMacKey == serverMacKey
      ensures this.encrypt == encrypt && this.decrypt == decrypt
    {
      this.mac, this.clientMacKey, this.serverMacKey := mac, clientMacKey, serverMacKey;
      this.encrypt, this.decrypt := encrypt, decrypt;
      clientSeq, serverSeq := 0, 0;
    }

    /** Protects one record under the client's write keys and counts it. */
    method SendEncryptedRecord(contentType: bv8, content: Bytes, iv: Bytes) returns (fragment: Bytes)
      requires Valid() && |content| <= MAX_RECORD && |iv| == 16
      modifies `clientSeq
      ensures Valid() && clientSeq == NextSeq(old(clientSeq))
      ensures fragment == Protect(encrypt, mac, clientMacKey, old(clientSeq), contentType, content, iv)
    {
      var inside, tag := ComputeRecordMac(mac, clientMacKey, clientSeq, contentType, content);
      var plain := content + tag;
      var ciphertext := new bv8[MAX_RECORD + 64];
      var cipherLen := CbcEncryptTls(encrypt, iv, plain, ciphertext, MAX_RECORD + 64);
      fragment := iv + ciphertext[..cipherLen];
      clientSeq := NextSeq(clientSeq);
    }

    /**
     * Opens one record under the server's write keys; only an authentic one is counted. `inside` is false
     * when the MAC's buffer would be left, before anything is compared.
     */
    method ReceiveEncryptedRecord(contentType: bv8, raw: Bytes, maxLen: nat) returns (inside: bool, ok: bool, content: Bytes)
      requires Valid() && |raw| <= 16 + MAX_RECORD + 64
      modifies `serverSeq
      ensures Valid() && (inside <==> FitsMac(decrypt, raw))
      ensures inside ==> var r := Open(decrypt, mac, serverMacKey, old(serverSeq), contentType, raw);
        && ok == r.Some?
        && serverSeq == (if ok then NextSeq(old(serverSeq)) else old(serverSeq))
        && (ok ==> content == if |r.value| <= maxLen then r.value else r.value[..maxLen])
    {
      inside, ok, content := OpenFragment(contentType, raw);
      if inside && ok {
        serverSeq := NextSeq(serverSeq);
        if |content| > maxLen {
          content := content[..maxLen];
        }
      }
    }

    method OpenFragment(contentType: bv8, raw: Bytes) returns (inside: bool, ok: bool, content: Bytes)
      requires Valid() && |raw| <= 16 + MAX_RECORD + 64
      ensures inside <==> FitsMac(decrypt, raw)
      ensures inside ==> var r := Open(decrypt, mac, serverMacKey, serverSeq, contentType, raw); ok == r.Some? && (ok ==> content == r.value)
    {
      inside, ok, content := true, false, [];
      if |raw| >= 32 {
        var decrypted := new bv8[MAX_RECORD + 64];
        var plainLen := CbcDecryptTls(decrypt, raw[..16], raw[16..], decrypted);
        if plainLen >= 32 {
          inside, ok, content := Authenticate(contentType, decrypted[..plainLen]);
        }
      }
    }

    method Authenticate(contentType: bv8, plain: Bytes) returns (inside: bool, ok: bool, content: Bytes)
      requires |plain| >= 32
      ensures inside <==> |plain| <= MAX_RECORD + 32
      ensures inside ==>
        var r := Authentic(mac, serverMacKey, serverSeq, contentType, plain); ok == r.Some? && (ok ==> content == r.value)
    {
      content := plain[..|plain| - 32];
      var expected;
      inside, expected := ComputeRecordMac(mac, serverMacKey, serverSeq, contentType, content);
      ok := plain[|plain| - 32..] == expected;
    }
  }

  datatype Message = Message(contentType: bv8, content: Bytes, iv: Bytes)

  ghost predicate Mirrored(a: Connection, b: Connection) {
    a.mac == b.mac && a.clientMacKey == b.serverMacKey && Inverse(a.encrypt, b.decrypt)
  }

  /** Whole runs: records sent by one side and received in order by its mirror all come out as they
      went in, and the two sequence numbers stay together. */
  method Exchange(a: Connection, b: Connection, messages: seq<Message>) returns (received: seq<(bv8, Bytes)>)
    requires a.Valid() && b.Valid() && a != b && Mirrored(a, b) && a.clientSeq == b.serverSeq
    requires forall i :: 0 <= i < |messages| ==> |messages[i].content| <= MAX_RECORD && |messages[i].iv| == 16
    modifies a`clientSeq, b`serverSeq
    ensures a.Valid() && b.Valid() && a.clientSeq == b.serverSeq
    ensures |received| == |messages|
    ensures forall i :: 0 <= i < |messages| ==> received[i] == (messages[i].contentType, messages[i].content)
  {
    received := [];
    var i := 0;
    while i < |messages|
      invariant 0 <= i <= |messages| && a.Valid() && b.Valid() && a.clientSeq == b.serverSeq && |received| == i
      invariant forall j :: 0 <= j < i ==> received[j] == (messages[j].contentType, messages[j].content)
    {
      var m := messages[i];
      var content := Deliver(a, b, m);
      received := received + [(m.contentType, content)];
      i := i + 1;
    }
  }

  method Deliver(a: Connection, b: Connection, m: Message) returns (content: Bytes)
    requires a.Valid() && b.Valid() && a != b && Mirrored(a, b) && a.clientSeq == b.serverSeq
    requires |m.content| <= MAX_RECORD && |m.iv| == 16
    modifies a`clientSeq, b`serverSeq
    ensures a.Valid() && b.Valid() && a.clientSeq == b.serverSeq && content == m.content
  {
    OpenInvertsProtect(a.encrypt, b.decrypt, a.mac, a.clientMacKey, a.clientSeq, m.contentType, m.content, m.iv);
    var fragment := a.SendEncryptedRecord(m.contentType, m.content, m.iv);
    var inside, ok;
    inside, ok, content := b.ReceiveEncryptedRecord(m.contentType, fragment, MAX_RECORD);
  }
}
