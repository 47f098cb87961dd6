/** The DEFLATE format (RFC 1951) as functions of the stream: what each block denotes. */
module DeflateFormat {
  import opened Limbs
  import opened BitStream
  import opened Huffman

  /** A value read from the stream and the position after it. */
  datatype Parse<T> = Bad | Got(value: T, p: nat)

  ghost function Number(d: seq<Byte>, p: nat, n: nat): (r: Parse<nat>)
    ensures r.Got? ==> r.p == p + n <= 8 * |d| && r.value < Pow2(n)
  {
    if p + n <= 8 * |d| then Got(LsbVal(d, p, n), p + n) else Bad
  }

  ghost function Symbol(ls: seq<nat>, d: seq<Byte>, p: nat): (r: Parse<nat>)
    ensures r.Got? ==> Decodes(ls, d, p, r.value) && r.p == p + ls[r.value]
    ensures r.Bad? ==> forall s: nat :: !Decodes(ls, d, p, s)
  {
    if exists s: nat :: Decodes(ls, d, p, s) then
      var s: nat :| Decodes(ls, d, p, s);
      Got(s, p + ls[s])
    else
      Bad
  }

  lemma SymbolIs(ls: seq<nat>, d: seq<Byte>, p: nat, s: nat)
    requires Decodes(ls, d, p, s)
    ensures Symbol(ls, d, p) == Got(s, p + ls[s])
  {
    DecodesUnique(ls, d, p, s, Symbol(ls, d, p).value);
  }

  // ---------- lengths and distances (section 3.2.5 of RFC 1951) ----------

  const LENGTH_CODES := 29
  const DISTANCE_CODES := 30

  function LengthExtra(i: nat): (e: nat)
    requires i < LENGTH_CODES
    ensures e <= 5
  {
    if i < 8 || i == 28 then 0 else (i - 4) / 4
  }

  function LengthBase(i: nat): (b: nat)
    requires i < LENGTH_CODES
    ensures 3 <= b <= 258
  {
    if i < 8 then 3 + i
    else if i < 12 then 11 + 2 * (i - 8)
    else if i < 16 then 19 + 4 * (i - 12)
    else if i < 20 then 35 + 8 * (i - 16)
    else if i < 24 then 67 + 16 * (i - 20)
    else if i < 28 then 131 + 32 * (i - 24)
    else 258
  }

  function DistanceExtra(i: nat): (e: nat)
    requires i < DISTANCE_CODES
    ensures e <= 13
  {
    if i < 4 then 0 else (i - 2) / 2
  }

  function DistanceBase(i: nat): (b: nat)
    requires i < DISTANCE_CODES
    ensures b >= 1
  {
    if i < 4 then 1 + i
    else if i < 6 then 5 + 2 * (i - 4)
    else if i < 8 then 9 + 4 * (i - 6)
    else if i < 10 then 17 + 8 * (i - 8)
    else if i < 12 then 33 + 16 * (i - 10)
    else if i < 14 then 65 + 32 * (i - 12)
    else if i < 16 then 129 + 64 * (i - 14)
    else if i < 18 then 257 + 128 * (i - 16)
    else if i < 20 then 513 + 256 * (i - 18)
    else if i < 22 then 1025 + 512 * (i - 20)
    else if i < 24 then 2049 + 1024 * (i - 22)
    else if i < 26 then 4097 + 2048 * (i - 24)
    else if i < 28 then 8193 + 4096 * (i - 26)
    else 16385 + 8192 * (i - 28)
  }

  lemma SmallPowers()
    ensures Pow2(0) == 1 && Pow2(1) == 2 && Pow2(2) == 4 && Pow2(3) == 8 && Pow2(4) == 16 && Pow2(5) == 32
    ensures Pow2(6) == 64 && Pow2(7) == 128 && Pow2(8) == 256 && Pow2(9) == 512
    ensures Pow2(10) == 1024 && Pow2(11) == 2048 && Pow2(12) == 4096 && Pow2(13) == 8192
  {
  }

  /** The codes cover consecutive ranges of lengths, save that 258 has a code of its own. */
  lemma LengthRangesMeet(i: nat)
    requires i + 1 < LENGTH_CODES
    ensures LengthBase(i) + Pow2(LengthExtra(i)) == LengthBase(i + 1) + if i + 1 == 28 then 1 else 0
  {
    SmallPowers();
  }

  /** The codes cover consecutive ranges of distances. */
  lemma DistanceRangesMeet(i: nat)
    requires i + 1 < DISTANCE_CODES
    ensures DistanceBase(i) + Pow2(DistanceExtra(i)) == DistanceBase(i + 1)
  {
    SmallPowers();
  }

  /** The tables of RFC 1951: the least length of each code and its extra bits. */
  lemma LengthBases(i: nat)
    requires i < 29
    ensures LengthBase(i) == [3, 4, 5, 6, 7, 8, 9, 10, 11, 13, 15, 17, 19, 23, 27, 31, 35, 43, 51, 59, 67, 83, 99, 115, 131, 163, 195, 227, 258][i]
  {
  }

  lemma LengthExtras(i: nat)
    requires i < 29
    ensures LengthExtra(i) == [0, 0, 0, 0, 0, 0, 0, 0, 1, 1, 1, 1, 2, 2, 2, 2, 3, 3, 3, 3, 4, 4, 4, 4, 5, 5, 5, 5, 0][i]
  {
  }

  /** The least distance of each code and its extra bits. */
  lemma DistanceBases(i: nat)
    requires i < 30
    ensures DistanceBase(i) == [1, 2, 3, 4, 5, 7, 9, 13, 17, 25, 33, 49, 65, 97, 129, 193, 257, 385, 513, 769, 1025, 1537, 2049, 3073,
                                4097, 6145, 8193, 12289, 16385, 24577][i]
  {
  }

  lemma DistanceExtras(i: nat)
    requires i < 30
    ensures DistanceExtra(i) == [0, 0, 0, 0, 1, 1, 2, 2, 3, 3, 4, 4, 5, 5, 6, 6, 7, 7, 8, 8, 9, 9, 10, 10, 11, 11, 12, 12, 13, 13][i]
  {
  }

  lemma {:induction false} LengthCodeFrom(n: nat, i: nat) returns (lidx: nat)
    requires i < 28 && LengthBase(i) <= n < 258
    ensures i <= lidx < 28 && LengthBase(lidx) <= n < LengthBase(lidx) + Pow2(LengthExtra(lidx))
    decreases 28 - i
  {
    LengthRangesMeet(i);
    lidx := i;
    if n >= LengthBase(i) + Pow2(LengthExtra(i)) {
      lidx := LengthCodeFrom(n, i + 1);
    }
  }

  lemma {:induction false} DistanceCodeFrom(n: nat, i: nat) returns (didx: nat)
    requires i < DISTANCE_CODES && DistanceBase(i) <= n <= 32768
    ensures i <= didx < DISTANCE_CODES && DistanceBase(didx) <= n < DistanceBase(didx) + Pow2(DistanceExtra(didx))
    decreases DISTANCE_CODES - i
  {
    SmallPowers();
    didx := i;
    if i + 1 < DISTANCE_CODES && n >= DistanceBase(i) + Pow2(DistanceExtra(i)) {
      DistanceRangesMeet(i);
      didx := DistanceCodeFrom(n, i + 1);
    }
  }

  // ---------- compressed data ----------

  /** A literal byte, the end of the block, or a match given by its length and distance codes
      with their extra bits. */
  datatype Token =
    | Literal(b: Byte)
    | EndOfBlock
    | Match(lidx: nat, lextra: nat, didx: nat, dextra: nat)

  ghost predicate MatchOk(t: Token) {
    t.Match? ==>
      && t.lidx < LENGTH_CODES && t.lextra < Pow2(LengthExtra(t.lidx))
      && t.didx < DISTANCE_CODES && t.dextra < Pow2(DistanceExtra(t.didx))
  }

  function Length(t: Token): nat
    requires t.Match? && t.lidx < LENGTH_CODES
  {
    LengthBase(t.lidx) + t.lextra
  }

  function Distance(t: Token): (r: nat)
    requires t.Match? && t.didx < DISTANCE_CODES
    ensures r > 0
  {
    DistanceBase(t.didx) + t.dextra
  }

  /** Every length from 3 to 258 at every distance up to 32768 is some match. */
  lemma MatchFor(length: nat, distance: nat) returns (t: Token)
    requires 3 <= length <= 258 && 1 <= distance <= 32768
    ensures t.Match? && MatchOk(t) && Length(t) == length && Distance(t) == distance
  {
    var lidx := 28;
    if length < 258 {
      lidx := LengthCodeFrom(length, 0);
    }
    var didx := DistanceCodeFrom(distance, 0);
    t := Match(lidx, length - LengthBase(lidx), didx, distance - DistanceBase(didx));
  }

  ghost function MatchAt(dist: seq<nat>, d: seq<Byte>, p: nat, lidx: nat): (r: Parse<Token>)
    requires lidx < LENGTH_CODES
    ensures r.Got? ==> p < r.p <= 8 * |d| && MatchOk(r.value)
  {
    var extra := Number(d, p, LengthExtra(lidx));
    if extra.Bad? then Bad
    else
      var s := Symbol(dist, d, extra.p);
      if s.Bad? || s.value >= DISTANCE_CODES then Bad
      else
        var more := Number(d, s.p, DistanceExtra(s.value));
        if more.Bad? then Bad else Got(Match(lidx, extra.value, s.value, more.value), more.p)
  }

  ghost function TokenAt(lit: seq<nat>, dist: seq<nat>, d: seq<Byte>, p: nat): (r: Parse<Token>)
    ensures r.Got? ==> p < r.p <= 8 * |d| && MatchOk(r.value)
  {
    var s := Symbol(lit, d, p);
    if s.Bad? then Bad
    else if s.value < 256 then Got(Literal(s.value), s.p)
    else if s.value == 256 then Got(EndOfBlock, s.p)
    else if s.value - 257 >= LENGTH_CODES then Bad
    else MatchAt(dist, d, s.p, s.value - 257)
  }

  /** n bytes, each a copy of the byte `distance` back, copies of copies included. */
  ghost function CopyBack(out: seq<Byte>, distance: nat, n: nat): (r: seq<Byte>)
    requires 0 < distance <= |out|
    ensures |r| == |out| + n && out <= r
    decreases n
  {
    if n == 0 then out else
      var r := CopyBack(out, distance, n - 1);
      r + [r[|r| - distance]]
  }

  /** Each copied byte equals the byte one distance before it, whether that was copied or not. */
  lemma {:induction false} CopyBackPeriodic(out: seq<Byte>, distance: nat, n: nat, i: nat)
    requires 0 < distance <= |out| && |out| <= i < |out| + n
    ensures CopyBack(out, distance, n)[i] == CopyBack(out, distance, n)[i - distance]
    decreases n
  {
    if i < |out| + n - 1 {
      CopyBackPeriodic(out, distance, n - 1, i);
    }
  }

  datatype Output = Malformed | Out(bytes: seq<Byte>)

  /** One token's effect on the output. */
  ghost function Apply(out: seq<Byte>, t: Token, cap: nat): (r: Output)
    requires MatchOk(t)
    ensures r.Out? && |out| <= cap ==> |r.bytes| <= cap && out <= r.bytes
  {
    match t
    case EndOfBlock => Out(out)
    case Literal(b) => if |out| < cap then Out(out + [b]) else Malformed
    case Match(_, _, _, _) =>
      if Distance(t) <= |out| && |out| + Length(t) <= cap then Out(CopyBack(out, Distance(t), Length(t))) else Malformed
  }

  ghost function HuffmanBlock(lit: seq<nat>, dist: seq<nat>, d: seq<Byte>, p: nat, out: seq<Byte>, cap: nat): (r: Parse<seq<Byte>>)
    ensures r.Got? ==> p < r.p <= 8 * |d|
    ensures r.Got? && |out| <= cap ==> |r.value| <= cap && out <= r.value
    decreases 8 * |d| - p
  {
    var t := TokenAt(lit, dist, d, p);
    if t.Bad? then Bad
    else if t.value.EndOfBlock? then Got(out, t.p)
    else
      var o := Apply(out, t.value, cap);
      if o.Malformed? then Bad else HuffmanBlock(lit, dist, d, t.p, o.bytes, cap)
  }

  function Le16(lo: Byte, hi: Byte): nat {
    lo as nat + 256 * hi as nat
  }

  /** A stored block's length, checked against its complement, at byte q. */
  ghost function StoredLength(d: seq<Byte>, q: nat): (r: Parse<nat>)
    ensures r.Got? ==> r.p == q + 4 <= |d| && r.value <= 0xFFFF
  {
    if q + 4 > |d| then Bad
    else
      var n := Le16(d[q], d[q + 1]);
      if Le16(d[q + 2], d[q + 3]) != 0xFFFF - n then Bad else Got(n, q + 4)
  }

  /** A stored block: byte aligned, its length, then the bytes. */
  ghost function StoredBlock(d: seq<Byte>, p: nat, out: seq<Byte>, cap: nat): (r: Parse<seq<Byte>>)
    ensures r.Got? ==> p < r.p <= 8 * |d|
    ensures r.Got? && |out| <= cap ==> |r.value| <= cap && out <= r.value
  {
    var n := StoredLength(d, (p + 7) / 8);
    if n.Bad? || n.p + n.value > |d| || |out| + n.value > cap then Bad
    else Got(out + d[n.p..n.p + n.value], 8 * (n.p + n.value))
  }

  // ---------- code lengths (section 3.2.7) ----------

  const CL_ORDER: seq<nat> := [16, 17, 18, 0, 8, 7, 9, 6, 10, 5, 11, 4, 12, 3, 13, 2, 14, 1, 15]

  function ClOrder(i: nat): (k: nat)
    requires i < 19
    ensures k < 19
  {
    CL_ORDER[i]
  }

  /** The three repeat symbols come first, then the length 0, then the lengths 8, 7, 9, 6 and so on outwards to 1 and 15. */
  lemma ClOrderIs(i: nat)
    requires i < 19
    ensures ClOrder(i) == if i < 3 then 16 + i else if i == 3 then 0 else if i % 2 == 0 then 6 + i / 2 else 9 - i / 2
  {
  }

  ghost function Repeat(x: nat, n: nat): (r: seq<nat>)
    ensures |r| == n && forall i :: 0 <= i < n ==> r[i] == x
  {
    seq(n, i => x)
  }

  /** The code lengths of the code-length code: n of them present, in their transmission order. */
  ghost function ClLengths(d: seq<Byte>, p: nat, n: nat): (r: seq<nat>)
    requires n <= 19 && p + 3 * n <= 8 * |d|
    ensures |r| == 19 && forall i :: 0 <= i < 19 ==> r[i] < 8
  {
    if n == 0 then Repeat(0, 19) else
      assert Pow2(3) == 8;
      ClLengths(d, p, n - 1)[ClOrder(n - 1) := LsbVal(d, p + 3 * (n - 1), 3)]
  }

  /** A run of `what`, cut off at `total`. */
  ghost function RunOf(d: seq<Byte>, p: nat, bits: nat, base: nat, acc: seq<nat>, total: nat, what: nat): (r: Parse<seq<nat>>)
    requires |acc| <= total
    ensures r.Got? ==> r.p == p + bits <= 8 * |d| && |r.value| <= total
  {
    var n := Number(d, p, bits);
    if n.Bad? then Bad
    else
      var rep := n.value + base;
      Got(acc + Repeat(what, if rep <= total - |acc| then rep else total - |acc|), n.p)
  }

  /** Symbols 16 to 18: the previous length again, or a run of zeros. */
  ghost function RepeatStep(s: nat, d: seq<Byte>, p: nat, acc: seq<nat>, total: nat): (r: Parse<seq<nat>>)
    requires |acc| <= total
    ensures r.Got? ==> p < r.p <= 8 * |d| && |r.value| <= total
  {
    if s == 16 then
      if acc == [] then Bad else RunOf(d, p, 2, 3, acc, total, acc[|acc| - 1])
    else if s == 17 then RunOf(d, p, 3, 3, acc, total, 0)
    else RunOf(d, p, 7, 11, acc, total, 0)
  }

  /** One code-length symbol's effect. */
  ghost function LengthsStep(cl: seq<nat>, d: seq<Byte>, p: nat, acc: seq<nat>, total: nat): (r: Parse<seq<nat>>)
    requires |acc| < total
    ensures r.Got? ==> p < r.p <= 8 * |d| && |r.value| <= total
  {
    var s := Symbol(cl, d, p);
    if s.Bad? then Bad
    else if s.value < 16 then Got(acc + [s.value], s.p)
    else RepeatStep(s.value, d, s.p, acc, total)
  }

  ghost function CodeLengths(cl: seq<nat>, d: seq<Byte>, p: nat, acc: seq<nat>, total: nat): (r: Parse<seq<nat>>)
    requires |acc| <= total && p <= 8 * |d|
    ensures r.Got? ==> p <= r.p <= 8 * |d| && |r.value| == total
    decreases 8 * |d| - p
  {
    if |acc| == total then Got(acc, p)
    else
      var step := LengthsStep(cl, d, p, acc, total);
      if step.Bad? then Bad else CodeLengths(cl, d, step.p, step.value, total)
  }

  datatype Tables = Tables(lit: seq<nat>, dist: seq<nat>)

  const MAX_LENGTHS := 318

  datatype Header = Header(hlit: nat, hdist: nat, hclen: nat)

  /** Both tables' lengths are sent as one list. */
  function Total(hlit: nat, hdist: nat): nat {
    hlit + hdist
  }

  ghost function HeaderAt(d: seq<Byte>, p: nat): (r: Parse<Header>)
    ensures r.Got? ==> r.p == p + 14 <= 8 * |d| && r.value.hlit <= 288 && r.value.hdist <= 32 && r.value.hclen <= 19
  {
    SmallPowers();
    var a := Number(d, p, 5);
    if a.Bad? then Bad else
      var b := Number(d, a.p, 5);
      if b.Bad? then Bad else
        var c := Number(d, b.p, 4);
        if c.Bad? then Bad else Got(Header(a.value + 257, b.value + 1, c.value + 4), c.p)
  }

  ghost function ClTable(d: seq<Byte>, p: nat, n: nat): (r: Parse<seq<nat>>)
    requires n <= 19
    ensures r.Got? ==> r.p == p + 3 * n <= 8 * |d|
  {
    if p + 3 * n > 8 * |d| then Bad else Got(ClLengths(d, p, n), p + 3 * n)
  }

  ghost function DynamicTables(d: seq<Byte>, p: nat): (r: Parse<Tables>)
    ensures r.Got? ==> p < r.p <= 8 * |d|
  {
    var h := HeaderAt(d, p);
    if h.Bad? then Bad else LengthTablesAt(d, h.p, h.value)
  }

  ghost function LengthTablesAt(d: seq<Byte>, p: nat, h: Header): (r: Parse<Tables>)
    requires h.hclen <= 19
    ensures r.Got? ==> p <= r.p <= 8 * |d|
  {
    var cl := ClTable(d, p, h.hclen);
    if cl.Bad? || Total(h.hlit, h.hdist) > MAX_LENGTHS then Bad
    else
      var all := CodeLengths(cl.value, d, cl.p, [], Total(h.hlit, h.hdist));
      if all.Bad? then Bad else Got(Tables(all.value[..h.hlit], all.value[h.hlit..]), all.p)
  }

  // ---------- streams ----------

  ghost function FixedLit(): (r: seq<nat>)
    ensures |r| == 288
  {
    seq(288, i => if i < 144 then 8 else if i < 256 then 9 else if i < 280 then 7 else 8)
  }

  ghost function FixedDist(): (r: seq<nat>)
    ensures |r| == 30
  {
    seq(30, i => 5)
  }

  /** The block after its three header bits. */
  ghost function Block(btype: nat, d: seq<Byte>, p: nat, out: seq<Byte>, cap: nat): (r: Parse<seq<Byte>>)
    ensures r.Got? ==> p < r.p <= 8 * |d|
    ensures r.Got? && |out| <= cap ==> |r.value| <= cap && out <= r.value
  {
    if btype == 0 then StoredBlock(d, p, out, cap)
    else if btype == 1 then HuffmanBlock(FixedLit(), FixedDist(), d, p, out, cap)
    else if btype == 2 then
      var t := DynamicTables(d, p);
      if t.Bad? then Bad else HuffmanBlock(t.value.lit, t.value.dist, d, t.p, out, cap)
    else Bad
  }

  /** The output of the blocks from p on, after `out`. */
  ghost function Blocks(d: seq<Byte>, p: nat, out: seq<Byte>, cap: nat): (r: Output)
    ensures r.Out? && |out| <= cap ==> |r.bytes| <= cap && out <= r.bytes
    decreases 8 * |d| - p
  {
    if p + 3 > 8 * |d| then Malformed
    else
      var b := Block(LsbVal(d, p + 1, 2), d, p + 3, out, cap);
      if b.Bad? then Malformed
      else if BitAt(d, p) == 1 then Out(b.value)
      else Blocks(d, b.p, b.value, cap)
  }
}
