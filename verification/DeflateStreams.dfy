/** Encoding whole streams, block by block, and the proof that inflate recovers what they encode. */
module DeflateStreams {
  import opened Limbs
  import opened BitStrings
  import opened BitStream
  import opened Huffman
  import opened DeflateFormat
  import opened Deflate

  // ---------- bytes ----------

  lemma ModDouble(x: nat, w: nat)
    requires w > 0
    ensures x % (2 * w) == x % w + if x / w % 2 == 1 then w else 0
  {
    var a, r := x / w, x % w;
    var h, b := a / 2, a % 2;
    assert x == a * w + r by { MulCommutes(a, w); }
    MulAdd(2 * h, b, w);
    MulCommutes(2, h);
    MulAssoc(h, 2, w);
    assert x == h * (2 * w) + (b * w + r);
    DivModUnique(x, 2 * w, h, b * w + r);
  }

  /** The low n bits of byte q. */
  lemma {:induction false} ByteValue(d: seq<Byte>, q: nat, n: nat)
    requires n <= 8 && q < |d|
    ensures LsbVal(d, 8 * q, n) == d[q] % Pow2(n)
  {
    if n > 0 {
      ByteValue(d, q, n - 1);
      ModDouble(d[q], Pow2(n - 1));
      assert (8 * q + n - 1) / 8 == q && (8 * q + n - 1) % 8 == n - 1;
    }
  }

  ghost function ByteBits(b: Byte): (bits: Bits)
    ensures |bits| == 8
  {
    SmallPowers();
    NumberBits(b, 8)
  }

  ghost function BytesBits(bs: seq<Byte>): (bits: Bits)
    ensures |bits| == 8 * |bs|
  {
    if bs == [] then [] else ByteBits(bs[0]) + BytesBits(bs[1..])
  }

  lemma ByteReads(d: seq<Byte>, p: nat, q: nat, b: Byte)
    requires p == 8 * q && Holds(d, p, ByteBits(b))
    ensures q < |d| && d[q] == b
  {
    SmallPowers();
    HoldsNumber(d, p, b, 8);
    ByteValue(d, q, 8);
  }

  lemma {:induction false} BytesRead(d: seq<Byte>, p: nat, q: nat, bs: seq<Byte>)
    requires p == 8 * q && Holds(d, p, BytesBits(bs))
    ensures q + |bs| <= |d| && d[q..q + |bs|] == bs
    decreases |bs|
  {
    if bs != [] {
      var p', q', rest := p + 8, q + 1, bs[1..];
      HoldsSplit(d, p, p', ByteBits(bs[0]), BytesBits(rest));
      BytesRead(d, p', q', rest);
      ByteReads(d, p, q, bs[0]);
      assert d[q..q + |bs|] == [d[q]] + d[q'..q' + |rest|];
    }
  }

  // ---------- stored blocks ----------

  ghost function Pad(p: nat): (bits: Bits)
    ensures |bits| == 8 * ((p + 7) / 8) - p
  {
    ZeroBits(8 * ((p + 7) / 8) - p)
  }

  ghost function StoredHead(n: nat): (bs: seq<Byte>)
    requires n <= 0xFFFF
    ensures |bs| == 4
  {
    [n % 256, n / 256, (0xFFFF - n) % 256, (0xFFFF - n) / 256]
  }

  /** A stored block's bits after its header, at bit p. */
  ghost function StoredBits(p: nat, bytes: seq<Byte>): Bits
    requires |bytes| <= 0xFFFF
  {
    Pad(p) + BytesBits(StoredHead(|bytes|) + bytes)
  }

  lemma StoredLengthReads(d: seq<Byte>, q: nat, n: nat)
    requires n <= 0xFFFF && q + 4 <= |d| && d[q..q + 4] == StoredHead(n)
    ensures StoredLength(d, q) == Got(n, q + 4)
  {
    var h := d[q..q + 4];
    assert h[0] == d[q] && h[1] == d[q + 1] && h[2] == d[q + 2] && h[3] == d[q + 3];
  }

  lemma StoredReads(d: seq<Byte>, p: nat, q: nat, bytes: seq<Byte>, out: seq<Byte>, cap: nat)
    requires |bytes| <= 0xFFFF && Holds(d, p, StoredBits(p, bytes)) && q == p + |StoredBits(p, bytes)|
    requires |out + bytes| <= cap
    ensures StoredBlock(d, p, out, cap) == Got(out + bytes, q)
  {
    var b := (p + 7) / 8;
    var all := StoredHead(|bytes|) + bytes;
    HoldsSplit(d, p, 8 * b, Pad(p), BytesBits(all));
    BytesRead(d, 8 * b, b, all);
    assert d[b..b + 4] == all[..4] == StoredHead(|bytes|);
    assert d[b + 4..b + 4 + |bytes|] == all[4..] == bytes;
    StoredLengthReads(d, b, |bytes|);
  }

  // ---------- dynamic tables ----------

  /** One step in describing a list of code lengths. */
  datatype Cmd = One(len: nat) | Again(n: nat) | Zeros(n: nat) | ManyZeros(n: nat)

  ghost function CmdSymbol(c: Cmd): nat {
    match c
    case One(l) => l
    case Again(_) => 16
    case Zeros(_) => 17
    case ManyZeros(_) => 18
  }

  ghost predicate CmdOk(cl: seq<nat>, c: Cmd, acc: seq<nat>) {
    Usable(cl, CmdSymbol(c)) &&
    match c
    case One(l) => l < 16
    case Again(n) => 3 <= n <= 6 && acc != []
    case Zeros(n) => 3 <= n <= 10
    case ManyZeros(n) => 11 <= n <= 138
  }

  ghost function CmdApply(c: Cmd, acc: seq<nat>): (r: seq<nat>)
    requires c.Again? ==> acc != []
    ensures |r| >= |acc|
  {
    match c
    case One(l) => acc + [l]
    case Again(n) => acc + Repeat(acc[|acc| - 1], n)
    case Zeros(n) => acc + Repeat(0, n)
    case ManyZeros(n) => acc + Repeat(0, n)
  }

  ghost function CmdExtra(cl: seq<nat>, c: Cmd, acc: seq<nat>): Bits
    requires CmdOk(cl, c, acc)
  {
    SmallPowers();
    match c
    case One(_) => []
    case Again(n) => NumberBits(n - 3, 2)
    case Zeros(n) => NumberBits(n - 3, 3)
    case ManyZeros(n) => NumberBits(n - 11, 7)
  }

  lemma RunReads(d: seq<Byte>, p: nat, q: nat, bits: nat, base: nat, acc: seq<nat>, total: nat, what: nat, n: nat)
    requires base <= n && n - base < Pow2(bits) && |acc| + n <= total
    requires Holds(d, p, NumberBits(n - base, bits)) && q == p + bits
    ensures RunOf(d, p, bits, base, acc, total, what) == Got(acc + Repeat(what, n), q)
  {
    NumberReads(d, p, q, n - base, bits);
  }

  lemma RepeatReads(cl: seq<nat>, d: seq<Byte>, p: nat, q: nat, c: Cmd, acc: seq<nat>, total: nat)
    requires !c.One? && CmdOk(cl, c, acc) && |CmdApply(c, acc)| <= total
    requires Holds(d, p, CmdExtra(cl, c, acc)) && q == p + |CmdExtra(cl, c, acc)|
    ensures RepeatStep(CmdSymbol(c), d, p, acc, total) == Got(CmdApply(c, acc), q)
  {
    SmallPowers();
    match c
    case Again(n) =>
      RunReads(d, p, q, 2, 3, acc, total, acc[|acc| - 1], n);
    case Zeros(n) =>
      RunReads(d, p, q, 3, 3, acc, total, 0, n);
    case ManyZeros(n) =>
      RunReads(d, p, q, 7, 11, acc, total, 0, n);
  }

  lemma CmdReads(cl: seq<nat>, d: seq<Byte>, p: nat, q: nat, c: Cmd, acc: seq<nat>, total: nat)
    requires CmdOk(cl, c, acc) && |CmdApply(c, acc)| <= total && |acc| < total
    requires Holds(d, p, SymbolBits(cl, CmdSymbol(c)) + CmdExtra(cl, c, acc))
    requires q == p + |SymbolBits(cl, CmdSymbol(c)) + CmdExtra(cl, c, acc)|
    ensures LengthsStep(cl, d, p, acc, total) == Got(CmdApply(c, acc), q)
  {
    var s := CmdSymbol(c);
    var next := p + cl[s];
    HoldsSplit(d, p, next, SymbolBits(cl, s), CmdExtra(cl, c, acc));
    HoldsSymbol(cl, d, p, next, s);
    if !c.One? {
      RepeatReads(cl, d, next, q, c, acc, total);
    }
  }

  /** The steps describe exactly `total` lengths. */
  ghost predicate CmdsOk(cl: seq<nat>, cmds: seq<Cmd>, acc: seq<nat>, total: nat) {
    |acc| <= total &&
    if cmds == [] then |acc| == total
    else |acc| < total && CmdOk(cl, cmds[0], acc) && CmdsOk(cl, cmds[1..], CmdApply(cmds[0], acc), total)
  }

  ghost function CmdsResult(cl: seq<nat>, cmds: seq<Cmd>, acc: seq<nat>, total: nat): (r: seq<nat>)
    requires CmdsOk(cl, cmds, acc, total)
    ensures |r| == total
  {
    if cmds == [] then acc else CmdsResult(cl, cmds[1..], CmdApply(cmds[0], acc), total)
  }

  ghost function CmdsBits(cl: seq<nat>, cmds: seq<Cmd>, acc: seq<nat>, total: nat): Bits
    requires CmdsOk(cl, cmds, acc, total)
  {
    if cmds == [] then []
    else
      (SymbolBits(cl, CmdSymbol(cmds[0])) + CmdExtra(cl, cmds[0], acc)) +
      CmdsBits(cl, cmds[1..], CmdApply(cmds[0], acc), total)
  }

  lemma {:induction false} CmdsRead(cl: seq<nat>, d: seq<Byte>, p: nat, q: nat, cmds: seq<Cmd>, acc: seq<nat>, total: nat)
    requires CmdsOk(cl, cmds, acc, total)
    requires Holds(d, p, CmdsBits(cl, cmds, acc, total)) && q == p + |CmdsBits(cl, cmds, acc, total)|
    ensures CodeLengths(cl, d, p, acc, total) == Got(CmdsResult(cl, cmds, acc, total), q)
    decreases |cmds|
  {
    if cmds != [] {
      var acc' := CmdApply(cmds[0], acc);
      var first := SymbolBits(cl, CmdSymbol(cmds[0])) + CmdExtra(cl, cmds[0], acc);
      var rest := CmdsBits(cl, cmds[1..], acc', total);
      var next := p + |first|;
      HoldsSplit(d, p, next, first, rest);
      CmdReads(cl, d, p, next, cmds[0], acc, total);
      CmdsRead(cl, d, next, q, cmds[1..], acc', total);
    }
  }

  /** Where symbol k's length stands in the transmission order. */
  ghost function ClRank(k: nat): (r: nat)
    requires k < 19
    ensures r < 19
  {
    [3, 17, 15, 13, 11, 9, 7, 5, 4, 6, 8, 10, 12, 14, 16, 18, 0, 1, 2][k]
  }

  lemma RankOfOrder(i: nat)
    requires i < 19
    ensures ClRank(ClOrder(i)) == i
  {
  }

  lemma OrderOfRank(k: nat)
    requires k < 19
    ensures ClOrder(ClRank(k)) == k
  {
  }

  ghost predicate ClOk(cl: seq<nat>) {
    |cl| == 19 && forall k :: 0 <= k < 19 ==> cl[k] < 8
  }

  ghost function ClBits(cl: seq<nat>, n: nat): (bits: Bits)
    requires ClOk(cl) && n <= 19
    ensures |bits| == 3 * n
  {
    SmallPowers();
    if n == 0 then [] else ClBits(cl, n - 1) + NumberBits(cl[ClOrder(n - 1)], 3)
  }

  lemma ClRankIs(i: nat, k: nat)
    requires i < 19 && k < 19
    ensures ClRank(k) == i <==> k == ClOrder(i)
  {
    RankOfOrder(i);
    OrderOfRank(k);
  }

  lemma ClLast(d: seq<Byte>, p: nat, n: nat, next: nat, k: nat)
    requires 0 < n <= 19 && next == p + 3 * (n - 1) && next + 3 <= 8 * |d| && k < 19
    ensures ClLengths(d, p, n)[k] == if k == ClOrder(n - 1) then LsbVal(d, next, 3) else ClLengths(d, p, n - 1)[k]
  {
  }

  lemma {:induction false} ClReads(d: seq<Byte>, p: nat, cl: seq<nat>, n: nat, k: nat)
    requires ClOk(cl) && n <= 19 && k < 19 && Holds(d, p, ClBits(cl, n))
    ensures ClLengths(d, p, n)[k] == if ClRank(k) < n then cl[k] else 0
  {
    if n > 0 {
      SmallPowers();
      var m := n - 1;
      var v := cl[ClOrder(m)];
      var next := p + 3 * m;
      HoldsSplit(d, p, next, ClBits(cl, m), NumberBits(v, 3));
      HoldsNumber(d, next, v, 3);
      ClReads(d, p, cl, m, k);
      ClLast(d, p, n, next, k);
      ClRankIs(m, k);
    }
  }

  /** The description of a pair of codes at the head of a dynamic block. */
  datatype Head = Head(hlit: nat, hdist: nat, hclen: nat, cl: seq<nat>, cmds: seq<Cmd>)

  ghost predicate HeadOk(h: Head) {
    && 257 <= h.hlit <= 288 && 1 <= h.hdist <= 32 && 4 <= h.hclen <= 19 && Total(h.hlit, h.hdist) <= MAX_LENGTHS
    && ClOk(h.cl) && (forall k :: 0 <= k < 19 && ClRank(k) >= h.hclen ==> h.cl[k] == 0)
    && CmdsOk(h.cl, h.cmds, [], Total(h.hlit, h.hdist))
  }

  ghost function HeadTables(h: Head): Tables
    requires HeadOk(h)
  {
    var all := CmdsResult(h.cl, h.cmds, [], Total(h.hlit, h.hdist));
    Tables(all[..h.hlit], all[h.hlit..])
  }

  ghost function CountsBits(hlit: nat, hdist: nat, hclen: nat): (bits: Bits)
    requires 257 <= hlit <= 288 && 1 <= hdist <= 32 && 4 <= hclen <= 19
    ensures |bits| == 14
  {
    SmallPowers();
    NumberBits(hlit - 257, 5) + (NumberBits(hdist - 1, 5) + NumberBits(hclen - 4, 4))
  }

  ghost function LengthsBits(h: Head): Bits
    requires HeadOk(h)
  {
    ClBits(h.cl, h.hclen) + CmdsBits(h.cl, h.cmds, [], Total(h.hlit, h.hdist))
  }

  ghost function HeadBits(h: Head): Bits
    requires HeadOk(h)
  {
    CountsBits(h.hlit, h.hdist, h.hclen) + LengthsBits(h)
  }

  lemma CountsRead(d: seq<Byte>, p: nat, q: nat, hlit: nat, hdist: nat, hclen: nat)
    requires 257 <= hlit <= 288 && 1 <= hdist <= 32 && 4 <= hclen <= 19
    requires Holds(d, p, CountsBits(hlit, hdist, hclen)) && q == p + 14
    ensures HeaderAt(d, p) == Got(Header(hlit, hdist, hclen), q)
  {
    SmallPowers();
    var a, b, c := NumberBits(hlit - 257, 5), NumberBits(hdist - 1, 5), NumberBits(hclen - 4, 4);
    var p1, p2 := p + 5, p + 10;
    HoldsSplit(d, p, p1, a, b + c);
    NumberReads(d, p, p1, hlit - 257, 5);
    HoldsSplit(d, p1, p2, b, c);
    NumberReads(d, p1, p2, hdist - 1, 5);
    NumberReads(d, p2, q, hclen - 4, 4);
  }

  lemma ClTableReads(d: seq<Byte>, p: nat, q: nat, h: Head)
    requires HeadOk(h) && Holds(d, p, ClBits(h.cl, h.hclen)) && q == p + |ClBits(h.cl, h.hclen)|
    ensures ClTable(d, p, h.hclen) == Got(h.cl, q)
  {
    forall k | 0 <= k < 19 ensures ClLengths(d, p, h.hclen)[k] == h.cl[k] {
      ClReads(d, p, h.cl, h.hclen, k);
    }
    assert ClLengths(d, p, h.hclen) == h.cl;
  }

  lemma LengthTablesRead(d: seq<Byte>, p: nat, q: nat, h: Head)
    requires HeadOk(h) && Holds(d, p, LengthsBits(h)) && q == p + |LengthsBits(h)|
    ensures LengthTablesAt(d, p, Header(h.hlit, h.hdist, h.hclen)) == Got(HeadTables(h), q)
  {
    var total := Total(h.hlit, h.hdist);
    var cls, cmds := ClBits(h.cl, h.hclen), CmdsBits(h.cl, h.cmds, [], total);
    var next := p + |cls|;
    HoldsSplit(d, p, next, cls, cmds);
    ClTableReads(d, p, next, h);
    CmdsRead(h.cl, d, next, q, h.cmds, [], total);
  }

  lemma HeadReads(d: seq<Byte>, p: nat, q: nat, h: Head)
    requires HeadOk(h) && Holds(d, p, HeadBits(h)) && q == p + |HeadBits(h)|
    ensures DynamicTables(d, p) == Got(HeadTables(h), q)
  {
    var next := p + 14;
    HoldsSplit(d, p, next, CountsBits(h.hlit, h.hdist, h.hclen), LengthsBits(h));
    CountsRead(d, p, next, h.hlit, h.hdist, h.hclen);
    LengthTablesRead(d, next, q, h);
  }

  // ---------- streams ----------

  datatype Chunk = StoredChunk(bytes: seq<Byte>) | FixedChunk(ts: seq<Token>) | DynamicChunk(head: Head, ts: seq<Token>)

  ghost predicate ChunkOk(c: Chunk, out: seq<Byte>) {
    match c
    case StoredChunk(bytes) => |bytes| <= 0xFFFF
    case FixedChunk(ts) => AllEncodable(FixedLit(), FixedDist(), ts) && Legal(ts, out)
    case DynamicChunk(head, ts) =>
      HeadOk(head) && AllEncodable(HeadTables(head).lit, HeadTables(head).dist, ts) && Legal(ts, out)
  }

  ghost function ChunkOut(c: Chunk, out: seq<Byte>): (r: seq<Byte>)
    requires ChunkOk(c, out)
    ensures |out| <= |r|
  {
    match c
    case StoredChunk(bytes) => out + bytes
    case FixedChunk(ts) => Expand(ts, out)
    case DynamicChunk(_, ts) => Expand(ts, out)
  }

  ghost function ChunkType(c: Chunk): (t: nat)
    ensures t < 4
  {
    if c.StoredChunk? then 0 else if c.FixedChunk? then 1 else 2
  }

  /** A block's bits after its three header bits, at bit p. */
  ghost function ChunkBits(c: Chunk, p: nat, out: seq<Byte>): Bits
    requires ChunkOk(c, out)
  {
    match c
    case StoredChunk(bytes) => StoredBits(p, bytes)
    case FixedChunk(ts) => BlockBits(FixedLit(), FixedDist(), ts)
    case DynamicChunk(head, ts) => HeadBits(head) + BlockBits(HeadTables(head).lit, HeadTables(head).dist, ts)
  }

  lemma ChunkReads(d: seq<Byte>, p: nat, q: nat, c: Chunk, out: seq<Byte>, cap: nat)
    requires ChunkOk(c, out) && Holds(d, p, ChunkBits(c, p, out)) && q == p + |ChunkBits(c, p, out)|
    requires |ChunkOut(c, out)| <= cap
    ensures Block(ChunkType(c), d, p, out, cap) == Got(ChunkOut(c, out), q)
  {
    match c
    case StoredChunk(bytes) =>
      StoredReads(d, p, q, bytes, out, cap);
    case FixedChunk(ts) =>
      BlockDecodes(FixedLit(), FixedDist(), ts, d, p, q, out, cap);
    case DynamicChunk(head, ts) =>
      DynamicReads(d, p, q, head, ts, out, cap);
  }

  lemma DynamicReads(d: seq<Byte>, p: nat, q: nat, head: Head, ts: seq<Token>, out: seq<Byte>, cap: nat)
    requires ChunkOk(DynamicChunk(head, ts), out) && Holds(d, p, ChunkBits(DynamicChunk(head, ts), p, out))
    requires q == p + |ChunkBits(DynamicChunk(head, ts), p, out)| && |Expand(ts, out)| <= cap
    ensures Block(2, d, p, out, cap) == Got(Expand(ts, out), q)
  {
    var t := HeadTables(head);
    var next := p + |HeadBits(head)|;
    HoldsSplit(d, p, next, HeadBits(head), BlockBits(t.lit, t.dist, ts));
    HeadReads(d, p, next, head);
    BlockDecodes(t.lit, t.dist, ts, d, next, q, out, cap);
  }

  ghost predicate StreamOk(cs: seq<Chunk>, out: seq<Byte>) {
    cs != [] && ChunkOk(cs[0], out) && (|cs| > 1 ==> StreamOk(cs[1..], ChunkOut(cs[0], out)))
  }

  /** What the blocks stand for, after `out`. */
  ghost function StreamOut(cs: seq<Chunk>, out: seq<Byte>): (r: seq<Byte>)
    requires StreamOk(cs, out)
    ensures |out| <= |r|
  {
    if |cs| == 1 then ChunkOut(cs[0], out) else StreamOut(cs[1..], ChunkOut(cs[0], out))
  }

  /** The three header bits: last block or not, then the type. */
  ghost function Intro(last: bool, c: Chunk): (bits: Bits)
    ensures |bits| == 3
  {
    SmallPowers();
    [if last then 1 else 0] + NumberBits(ChunkType(c), 2)
  }

  /** A block with its header, at bit p. */
  ghost function Framed(last: bool, c: Chunk, p: nat, out: seq<Byte>): Bits
    requires ChunkOk(c, out)
  {
    Intro(last, c) + ChunkBits(c, p + 3, out)
  }

  ghost function After(last: bool, c: Chunk, p: nat, out: seq<Byte>): nat
    requires ChunkOk(c, out)
  {
    p + |Framed(last, c, p, out)|
  }

  ghost function StreamBits(cs: seq<Chunk>, p: nat, out: seq<Byte>): Bits
    requires StreamOk(cs, out)
    decreases |cs|
  {
    if |cs| == 1 then Framed(true, cs[0], p, out)
    else Framed(false, cs[0], p, out) + StreamBits(cs[1..], After(false, cs[0], p, out), ChunkOut(cs[0], out))
  }

  lemma IntroReads(d: seq<Byte>, p: nat, last: bool, c: Chunk)
    requires Holds(d, p, Intro(last, c))
    ensures p + 3 <= 8 * |d| && BitAt(d, p) == (if last then 1 else 0) && LsbVal(d, p + 1, 2) == ChunkType(c)
  {
    SmallPowers();
    var b := [if last then 1 else 0];
    HoldsSplit(d, p, p + 1, b, NumberBits(ChunkType(c), 2));
    assert BitIs(d, p, b, 0);
    HoldsNumber(d, p + 1, ChunkType(c), 2);
  }

  lemma ChunkStep(d: seq<Byte>, p: nat, q: nat, last: bool, c: Chunk, out: seq<Byte>, cap: nat)
    requires ChunkOk(c, out) && Holds(d, p, Framed(last, c, p, out)) && q == After(last, c, p, out)
    requires |ChunkOut(c, out)| <= cap
    ensures Blocks(d, p, out, cap) == if last then Out(ChunkOut(c, out)) else Blocks(d, q, ChunkOut(c, out), cap)
  {
    var p3 := p + 3;
    HoldsSplit(d, p, p3, Intro(last, c), ChunkBits(c, p3, out));
    IntroReads(d, p, last, c);
    ChunkReads(d, p3, q, c, out, cap);
  }

  /** Every legal stream inflates to what it encodes: any sequence of stored, fixed and dynamic
      blocks, matches reaching back across blocks and into themselves included. */
  lemma {:induction false} StreamDecodes(cs: seq<Chunk>, d: seq<Byte>, p: nat, out: seq<Byte>, cap: nat)
    requires StreamOk(cs, out) && Holds(d, p, StreamBits(cs, p, out)) && |StreamOut(cs, out)| <= cap
    ensures Blocks(d, p, out, cap) == Out(StreamOut(cs, out))
    decreases |cs|
  {
    var c := cs[0];
    if |cs| == 1 {
      ChunkStep(d, p, After(true, c, p, out), true, c, out, cap);
    } else {
      var out', q := ChunkOut(c, out), After(false, c, p, out);
      HoldsSplit(d, p, q, Framed(false, c, p, out), StreamBits(cs[1..], q, out'));
      ChunkStep(d, p, q, false, c, out, cap);
      StreamDecodes(cs[1..], d, q, out', cap);
    }
  }

  // ---------- packing bits into bytes ----------

  /** Eight bits to a byte, the last byte filled up with zeros. */
  ghost function Pack(bits: Bits): (d: seq<Byte>)
    ensures |d| == (|bits| + 7) / 8
    decreases |bits|
  {
    if bits == [] then []
    else if |bits| < 8 then PackByte(bits + ZeroBits(8 - |bits|))
    else PackByte(bits[..8]) + Pack(bits[8..])
  }

  ghost function PackByte(bits: Bits): (d: seq<Byte>)
    requires |bits| == 8
    ensures |d| == 1
  {
    SmallPowers();
    [FromBits(bits)]
  }

  lemma PackByteAt(bits: Bits, i: nat)
    requires |bits| == 8 && i < 8
    ensures BitAt(PackByte(bits), i) == bits[i]
  {
    FromBitsAt(bits, i);
  }

  lemma BitAtConcat(a: seq<Byte>, d: seq<Byte>, i: nat)
    requires |a| == 1 && i < 8 * |a + d|
    ensures BitAt(a + d, i) == if i < 8 then BitAt(a, i) else BitAt(d, i - 8)
  {
    if i < 8 {
      assert i / 8 == 0;
    } else {
      assert (i - 8) / 8 == i / 8 - 1 && (i - 8) % 8 == i % 8;
    }
  }

  lemma {:induction false} PackAt(bits: Bits, i: nat)
    requires i < |bits|
    ensures BitAt(Pack(bits), i) == bits[i]
    decreases |bits|
  {
    if |bits| < 8 {
      PackByteAt(bits + ZeroBits(8 - |bits|), i);
    } else {
      BitAtConcat(PackByte(bits[..8]), Pack(bits[8..]), i);
      if i < 8 {
        PackByteAt(bits[..8], i);
      } else {
        PackAt(bits[8..], i - 8);
      }
    }
  }

  lemma PackHolds(bits: Bits)
    ensures Holds(Pack(bits), 0, bits)
  {
    var d := Pack(bits);
    forall i: nat ensures BitIs(d, 0, bits, i) {
      if i < |bits| {
        PackAt(bits, i);
      }
    }
  }

  // ---------- too small a buffer ----------

  lemma {:induction false} HuffmanBlockCap(lit: seq<nat>, dist: seq<nat>, d: seq<Byte>, p: nat, out: seq<Byte>, cap: nat, more: nat)
    requires cap <= more && HuffmanBlock(lit, dist, d, p, out, cap).Got?
    ensures HuffmanBlock(lit, dist, d, p, out, more) == HuffmanBlock(lit, dist, d, p, out, cap)
    decreases 8 * |d| - p
  {
    var t := TokenAt(lit, dist, d, p);
    if !t.value.EndOfBlock? {
      var o := Apply(out, t.value, cap);
      assert Apply(out, t.value, more) == o;
      HuffmanBlockCap(lit, dist, d, t.p, o.bytes, cap, more);
    }
  }

  lemma BlockCap(btype: nat, d: seq<Byte>, p: nat, out: seq<Byte>, cap: nat, more: nat)
    requires cap <= more && Block(btype, d, p, out, cap).Got?
    ensures Block(btype, d, p, out, more) == Block(btype, d, p, out, cap)
  {
    if btype == 1 {
      HuffmanBlockCap(FixedLit(), FixedDist(), d, p, out, cap, more);
    } else if btype == 2 {
      var t := DynamicTables(d, p);
      HuffmanBlockCap(t.value.lit, t.value.dist, d, t.p, out, cap, more);
    }
  }

  /** A larger buffer never changes what a stream inflates to. */
  lemma {:induction false} BlocksCap(d: seq<Byte>, p: nat, out: seq<Byte>, cap: nat, more: nat)
    requires cap <= more && Blocks(d, p, out, cap).Out?
    ensures Blocks(d, p, out, more) == Blocks(d, p, out, cap)
    decreases 8 * |d| - p
  {
    var btype := LsbVal(d, p + 1, 2);
    BlockCap(btype, d, p + 3, out, cap, more);
    if BitAt(d, p) != 1 {
      var b := Block(btype, d, p + 3, out, cap);
      BlocksCap(d, b.p, b.value, cap, more);
    }
  }

  ghost function Encode(cs: seq<Chunk>): seq<Byte>
    requires StreamOk(cs, [])
  {
    Pack(StreamBits(cs, 0, []))
  }

  /** Inflating an encoded stream yields what it encodes exactly when that fits the buffer. */
  lemma RoundTrip(cs: seq<Chunk>, cap: nat)
    requires StreamOk(cs, [])
    ensures Blocks(Encode(cs), 0, [], cap) == if |StreamOut(cs, [])| <= cap then Out(StreamOut(cs, [])) else Malformed
  {
    var d, all := Encode(cs), StreamOut(cs, []);
    PackHolds(StreamBits(cs, 0, []));
    if |all| <= cap {
      StreamDecodes(cs, d, 0, [], cap);
    } else if Blocks(d, 0, [], cap).Out? {
      StreamDecodes(cs, d, 0, [], |all|);
      BlocksCap(d, 0, [], cap, |all|);
    }
  }

  // ---------- the fixed codes (section 3.2.6 of RFC 1951) ----------

  ghost function Clamp(n: int, hi: nat): nat {
    if n < 0 then 0 else if n > hi then hi else n
  }

  lemma {:induction false} FixedCounts(n: nat)
    requires n <= 288
    ensures CountTo(FixedLit(), 7, n) == Clamp(n - 256, 24)
    ensures CountTo(FixedLit(), 8, n) == Clamp(n, 144) + Clamp(n - 280, 8)
    ensures CountTo(FixedLit(), 9, n) == Clamp(n - 144, 112)
  {
    if n > 0 {
      FixedCounts(n - 1);
    }
  }

  lemma {:induction false} FixedShort(l: nat, n: nat)
    requires l < 7 && n <= 288
    ensures CountTo(FixedLit(), l, n) == 0
  {
    if n > 0 {
      FixedShort(l, n - 1);
    }
  }

  lemma {:induction false} FixedFirstShort(l: nat)
    requires l <= 7
    ensures First(FixedLit(), l) == 0
  {
    if l > 0 {
      FixedFirstShort(l - 1);
      FixedShort(l - 1, 288);
    }
  }

  /** The literal/length code ranges, each in its number of bits. */
  lemma FixedLitCode(s: nat)
    requires s < 288
    ensures Code(FixedLit(), s) ==
      if s < 144 then 0x30 + s else if s < 256 then 0x190 + (s - 144) else if s < 280 then s - 256 else 0xC0 + (s - 280)
    ensures Usable(FixedLit(), s)
  {
    FixedCounts(s);
    FixedCounts(288);
    FixedFirstShort(7);
    SmallPowers();
    assert First(FixedLit(), 8) == 48;
    assert First(FixedLit(), 9) == 400;
  }

  ghost predicate Fives(ls: seq<nat>) {
    |ls| <= 32 && forall i :: 0 <= i < |ls| ==> ls[i] == 5
  }

  lemma {:induction false} FivesCounts(ls: seq<nat>, l: nat, n: nat)
    requires Fives(ls) && n <= |ls|
    ensures CountTo(ls, l, n) == if l == 5 then n else 0
  {
    if n > 0 {
      FivesCounts(ls, l, n - 1);
    }
  }

  lemma {:induction false} FivesFirst(ls: seq<nat>, l: nat)
    requires Fives(ls) && l <= 5
    ensures First(ls, l) == 0
  {
    if l > 0 {
      FivesFirst(ls, l - 1);
      FivesCounts(ls, l - 1, |ls|);
    }
  }

  /** Where every symbol has five bits, the codes are plain numbers. */
  lemma FivesCode(ls: seq<nat>, s: nat)
    requires Fives(ls) && s < |ls|
    ensures Code(ls, s) == s && Usable(ls, s)
  {
    FivesCounts(ls, 5, s);
    FivesFirst(ls, 5);
    SmallPowers();
  }

  /** Distance codes are plain five-bit numbers. */
  lemma FixedDistCode(s: nat)
    requires s < 30
    ensures Code(FixedDist(), s) == s && Usable(FixedDist(), s)
  {
    FivesCode(FixedDist(), s);
  }

  /** Every list of literals and matches can be sent with the fixed codes. */
  lemma {:induction false} FixedEncodable(ts: seq<Token>)
    requires forall i :: 0 <= i < |ts| ==> MatchOk(ts[i])
    ensures AllEncodable(FixedLit(), FixedDist(), ts)
    decreases |ts|
  {
    if ts == [] {
      FixedLitCode(256);
    } else {
      FixedEncodable(ts[1..]);
      match ts[0]
      case EndOfBlock => FixedLitCode(256);
      case Literal(b) => FixedLitCode(b);
      case Match(lidx, _, didx, _) =>
        FixedLitCode(257 + lidx);
        FixedDistCode(didx);
    }
  }

  // ---------- the dynamic codes ----------

  /** The lengths one by one. */
  ghost function Ones(ls: seq<nat>): (cmds: seq<Cmd>)
    ensures |cmds| == |ls| && forall i :: 0 <= i < |ls| ==> cmds[i] == One(ls[i])
  {
    seq(|ls|, i requires 0 <= i < |ls| => One(ls[i]))
  }

  lemma {:induction false} OnesDescribe(cl: seq<nat>, ls: seq<nat>, acc: seq<nat>, total: nat)
    requires (forall s: nat :: s < 16 ==> Usable(cl, s)) && (forall i :: 0 <= i < |ls| ==> ls[i] < 16) && |acc| + |ls| == total
    ensures CmdsOk(cl, Ones(ls), acc, total) && CmdsResult(cl, Ones(ls), acc, total) == acc + ls
    decreases |ls|
  {
    if ls == [] {
      assert acc + ls == acc;
    } else {
      OnesDescribe(cl, ls[1..], acc + [ls[0]], total);
      assert Ones(ls)[1..] == Ones(ls[1..]);
      assert acc + [ls[0]] + ls[1..] == acc + ls;
    }
  }

  /** Any two lists of code lengths, of at most 318 in all, are the tables of some dynamic header. */
  lemma DynamicHead(lit: seq<nat>, dist: seq<nat>) returns (h: Head)
    requires 257 <= |lit| <= 288 && 1 <= |dist| <= 32 && |lit| + |dist| <= 318
    requires (forall i :: 0 <= i < |lit| ==> lit[i] <= 15) && (forall i :: 0 <= i < |dist| ==> dist[i] <= 15)
    ensures HeadOk(h) && HeadTables(h) == Tables(lit, dist)
  {
    var cl, all := Repeat(5, 19), lit + dist;
    FivesUsable(cl);
    OnesDescribe(cl, all, [], |all|);
    h := Head(|lit|, |dist|, 19, cl, Ones(all));
    assert [] + all == all;
    HeadOf(h, lit, dist, |all|);
  }

  lemma FivesUsable(cl: seq<nat>)
    requires Fives(cl) && |cl| == 19
    ensures forall s: nat :: s < 16 ==> Usable(cl, s)
  {
    forall s: nat | s < 16 ensures Usable(cl, s) {
      FivesCode(cl, s);
    }
  }

  lemma HeadOf(h: Head, lit: seq<nat>, dist: seq<nat>, total: nat)
    requires h.hlit == |lit| && h.hdist == |dist| && h.hclen == 19 && 257 <= |lit| <= 288 && 1 <= |dist| <= 32
    requires total == |lit| + |dist| <= 318 && ClOk(h.cl)
    requires CmdsOk(h.cl, h.cmds, [], total) && CmdsResult(h.cl, h.cmds, [], total) == lit + dist
    ensures HeadOk(h) && HeadTables(h) == Tables(lit, dist)
  {
    assert Total(h.hlit, h.hdist) == total;
    Halves(lit, dist);
    forall k | 0 <= k < 19 ensures ClRank(k) < 19 {
    }
  }

  lemma Halves(a: seq<nat>, b: seq<nat>)
    ensures (a + b)[..|a|] == a && (a + b)[|a|..] == b
  {
  }

  /** A header that announces more than 318 lengths is refused, whatever follows it. */
  lemma LongHeaderRefused(d: seq<Byte>, p: nat)
    requires HeaderAt(d, p).Got? && HeaderAt(d, p).value.hlit + HeaderAt(d, p).value.hdist > 318
    ensures DynamicTables(d, p).Bad?
  {
  }

  /** Every list of tokens that some pair of codes can express inflates from a dynamic block with these codes. */
  lemma DynamicDecodes(lit: seq<nat>, dist: seq<nat>, ts: seq<Token>, cap: nat) returns (d: seq<Byte>)
    requires 257 <= |lit| <= 288 && 1 <= |dist| <= 32 && |lit| + |dist| <= 318
    requires (forall i :: 0 <= i < |lit| ==> lit[i] <= 15) && (forall i :: 0 <= i < |dist| ==> dist[i] <= 15)
    requires AllEncodable(lit, dist, ts) && Legal(ts, []) && |Expand(ts, [])| <= cap
    ensures |d| > 0 && BitAt(d, 0) == 1 && LsbVal(d, 1, 2) == 2 && DynamicTables(d, 3).Got? && DynamicTables(d, 3).value == Tables(lit, dist)
    ensures Blocks(d, 0, [], cap) == Out(Expand(ts, []))
  {
    var h := DynamicHead(lit, dist);
    var c := DynamicChunk(h, ts);
    RoundTrip([c], cap);
    d := Encode([c]);
    PackHolds(Framed(true, c, 0, []));
    HeaderReads(d, 0, 3, h, ts);
  }

  lemma HeaderReads(d: seq<Byte>, p: nat, p3: nat, h: Head, ts: seq<Token>)
    requires ChunkOk(DynamicChunk(h, ts), []) && Holds(d, p, Framed(true, DynamicChunk(h, ts), p, [])) && p3 == p + 3
    ensures p3 <= 8 * |d| && BitAt(d, p) == 1 && LsbVal(d, p + 1, 2) == 2 && DynamicTables(d, p3).Got? && DynamicTables(d, p3).value == HeadTables(h)
  {
    var c := DynamicChunk(h, ts);
    HoldsSplit(d, p, p3, Intro(true, c), ChunkBits(c, p3, []));
    IntroReads(d, p, true, c);
    TablesRead(d, p3, p3 + |HeadBits(h)|, h, BlockBits(HeadTables(h).lit, HeadTables(h).dist, ts));
  }

  lemma TablesRead(d: seq<Byte>, p: nat, q: nat, h: Head, rest: Bits)
    requires HeadOk(h) && Holds(d, p, HeadBits(h) + rest) && q == p + |HeadBits(h)|
    ensures DynamicTables(d, p) == Got(HeadTables(h), q)
  {
    HoldsSplit(d, p, q, HeadBits(h), rest);
    HeadReads(d, p, q, h);
  }
}
