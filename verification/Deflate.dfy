/** A DEFLATE encoder as a specification, and the proof that the decoder inverts it. */
module Deflate {
  import opened Limbs
  import opened BitStrings
  import opened BitStream
  import opened Huffman
  import opened DeflateFormat

  // ---------- bits in a stream ----------

  ghost predicate BitIs(d: seq<Byte>, p: nat, bits: Bits, i: nat) {
    i < |bits| ==> p + i < 8 * |d| && BitAt(d, p + i) == bits[i]
  }

  /** The stream holds these bits at p. */
  ghost predicate Holds(d: seq<Byte>, p: nat, bits: Bits) {
    p + |bits| <= 8 * |d| && forall i: nat {:trigger BitIs(d, p, bits, i)} :: BitIs(d, p, bits, i)
  }

  // Positions are passed along explicitly: each lemma takes where its bits start and where they end.

  lemma HoldsSplit(d: seq<Byte>, p: nat, q: nat, a: Bits, b: Bits)
    requires Holds(d, p, a + b) && q == p + |a|
    ensures Holds(d, p, a) && Holds(d, q, b)
  {
    forall i: nat ensures BitIs(d, p, a, i) {
      assert BitIs(d, p, a + b, i);
    }
    forall i: nat ensures BitIs(d, q, b, i) {
      assert BitIs(d, p, a + b, |a| + i);
    }
  }

  /** v in n bits, least significant first. */
  ghost function NumberBits(v: nat, n: nat): (bits: Bits)
    requires v < Pow2(n)
    ensures |bits| == n
  {
    if n == 0 then []
    else if v < Pow2(n - 1) then NumberBits(v, n - 1) + [0]
    else NumberBits(v - Pow2(n - 1), n - 1) + [1]
  }

  /** c in n bits, most significant first. */
  ghost function CodeBits(c: nat, n: nat): (bits: Bits)
    ensures |bits| == n
  {
    if n == 0 then [] else CodeBits(c / 2, n - 1) + [c % 2]
  }

  lemma {:induction false} HoldsNumber(d: seq<Byte>, p: nat, v: nat, n: nat)
    requires v < Pow2(n) && Holds(d, p, NumberBits(v, n))
    ensures LsbVal(d, p, n) == v
  {
    if n > 0 {
      var (low, top) := if v < Pow2(n - 1) then (v, 0) else (v - Pow2(n - 1), 1);
      HoldsSplit(d, p, p + n - 1, NumberBits(low, n - 1), [top]);
      HoldsNumber(d, p, low, n - 1);
      assert BitIs(d, p + n - 1, [top], 0);
    }
  }

  lemma {:induction false} HoldsCode(d: seq<Byte>, p: nat, c: nat, n: nat)
    requires c < Pow2(n) && Holds(d, p, CodeBits(c, n))
    ensures MsbVal(d, p, n) == c
  {
    if n > 0 {
      HoldsSplit(d, p, p + n - 1, CodeBits(c / 2, n - 1), [c % 2]);
      HoldsCode(d, p, c / 2, n - 1);
      assert BitIs(d, p + n - 1, [c % 2], 0);
    }
  }

  /** Symbol s has a code word. */
  ghost predicate Usable(ls: seq<nat>, s: nat) {
    s < |ls| && 0 < ls[s] && Fits(ls, s)
  }

  ghost function SymbolBits(ls: seq<nat>, s: nat): (bits: Bits)
    requires Usable(ls, s)
    ensures |bits| == ls[s] > 0
  {
    CodeBits(Code(ls, s), ls[s])
  }

  /** Canonical decoding: the stream that begins with a symbol's code word yields that symbol. */
  lemma HoldsSymbol(ls: seq<nat>, d: seq<Byte>, p: nat, q: nat, s: nat)
    requires Usable(ls, s) && Holds(d, p, SymbolBits(ls, s)) && q == p + |SymbolBits(ls, s)|
    ensures Symbol(ls, d, p) == Got(s, q)
  {
    HoldsCode(d, p, Code(ls, s), ls[s]);
    SymbolIs(ls, d, p, s);
  }

  lemma NumberReads(d: seq<Byte>, p: nat, q: nat, v: nat, n: nat)
    requires v < Pow2(n) && Holds(d, p, NumberBits(v, n)) && q == p + n
    ensures Number(d, p, n) == Got(v, q)
  {
    HoldsNumber(d, p, v, n);
  }

  // ---------- compressed data ----------

  /** The token has a code: its symbols have code words and its extra bits fit. */
  ghost predicate Encodable(lit: seq<nat>, dist: seq<nat>, t: Token) {
    match t
    case EndOfBlock => Usable(lit, 256)
    case Literal(b) => Usable(lit, b)
    case Match(lidx, _, didx, _) => MatchOk(t) && Usable(lit, 257 + lidx) && Usable(dist, didx)
  }

  ghost function TokenBits(lit: seq<nat>, dist: seq<nat>, t: Token): (bits: Bits)
    requires Encodable(lit, dist, t)
    ensures |bits| > 0
  {
    match t
    case EndOfBlock => SymbolBits(lit, 256)
    case Literal(b) => SymbolBits(lit, b)
    case Match(lidx, lextra, didx, dextra) =>
      SymbolBits(lit, 257 + lidx) + MatchBits(dist, t)
  }

  ghost function MatchBits(dist: seq<nat>, t: Token): Bits
    requires t.Match? && MatchOk(t) && Usable(dist, t.didx)
  {
    NumberBits(t.lextra, LengthExtra(t.lidx)) + (SymbolBits(dist, t.didx) + NumberBits(t.dextra, DistanceExtra(t.didx)))
  }

  lemma MatchReads(dist: seq<nat>, d: seq<Byte>, p: nat, q: nat, t: Token)
    requires t.Match? && MatchOk(t) && Usable(dist, t.didx) && Holds(d, p, MatchBits(dist, t)) && q == p + |MatchBits(dist, t)|
    ensures MatchAt(dist, d, p, t.lidx) == Got(t, q)
  {
    var e, s, f := NumberBits(t.lextra, LengthExtra(t.lidx)), SymbolBits(dist, t.didx), NumberBits(t.dextra, DistanceExtra(t.didx));
    var p1, p2 := p + |e|, p + |e| + |s|;
    HoldsSplit(d, p, p1, e, s + f);
    NumberReads(d, p, p1, t.lextra, |e|);
    HoldsSplit(d, p1, p2, s, f);
    HoldsSymbol(dist, d, p1, p2, t.didx);
    NumberReads(d, p2, q, t.dextra, |f|);
  }

  lemma TokenReads(lit: seq<nat>, dist: seq<nat>, d: seq<Byte>, p: nat, q: nat, t: Token)
    requires Encodable(lit, dist, t) && Holds(d, p, TokenBits(lit, dist, t)) && q == p + |TokenBits(lit, dist, t)|
    ensures TokenAt(lit, dist, d, p) == Got(t, q)
  {
    match t
    case EndOfBlock =>
      HoldsSymbol(lit, d, p, q, 256);
    case Literal(b) =>
      HoldsSymbol(lit, d, p, q, b);
    case Match(lidx, _, _, _) =>
      var p1 := p + lit[257 + lidx];
      HoldsSplit(d, p, p1, SymbolBits(lit, 257 + lidx), MatchBits(dist, t));
      HoldsSymbol(lit, d, p, p1, 257 + lidx);
      MatchReads(dist, d, p1, q, t);
  }

  ghost predicate InWindow(t: Token, out: seq<Byte>) {
    !t.EndOfBlock? && MatchOk(t) && (t.Match? ==> Distance(t) <= |out|)
  }

  /** LZ77: a literal adds itself, a match repeats what was there. */
  ghost function Expanded(t: Token, out: seq<Byte>): (r: seq<Byte>)
    requires InWindow(t, out)
    ensures |out| <= |r|
  {
    match t
    case Literal(b) => out + [b]
    case Match(_, _, _, _) => CopyBack(out, Distance(t), Length(t))
  }

  /** Tokens that can follow `out`: every match refers to output that exists. */
  ghost predicate Legal(ts: seq<Token>, out: seq<Byte>) {
    ts == [] || (InWindow(ts[0], out) && Legal(ts[1..], Expanded(ts[0], out)))
  }

  ghost function Expand(ts: seq<Token>, out: seq<Byte>): (r: seq<Byte>)
    requires Legal(ts, out)
    ensures |out| <= |r|
  {
    if ts == [] then out else Expand(ts[1..], Expanded(ts[0], out))
  }

  ghost predicate AllEncodable(lit: seq<nat>, dist: seq<nat>, ts: seq<Token>) {
    if ts == [] then Encodable(lit, dist, EndOfBlock)
    else Encodable(lit, dist, ts[0]) && AllEncodable(lit, dist, ts[1..])
  }

  ghost function BlockBits(lit: seq<nat>, dist: seq<nat>, ts: seq<Token>): Bits
    requires AllEncodable(lit, dist, ts)
  {
    if ts == [] then TokenBits(lit, dist, EndOfBlock)
    else TokenBits(lit, dist, ts[0]) + BlockBits(lit, dist, ts[1..])
  }

  lemma BlockStep(lit: seq<nat>, dist: seq<nat>, d: seq<Byte>, p: nat, q: nat, out: seq<Byte>, cap: nat, t: Token)
    requires TokenAt(lit, dist, d, p) == Got(t, q) && InWindow(t, out) && |Expanded(t, out)| <= cap
    ensures HuffmanBlock(lit, dist, d, p, out, cap) == HuffmanBlock(lit, dist, d, q, Expanded(t, out), cap)
  {
    assert Apply(out, t, cap) == Out(Expanded(t, out));
  }

  /** The stream at p reads as these tokens and an end of block, and is then at q. */
  ghost predicate Parses(lit: seq<nat>, dist: seq<nat>, d: seq<Byte>, p: nat, ts: seq<Token>, q: nat)
    decreases |ts|
  {
    if ts == [] then TokenAt(lit, dist, d, p) == Got(EndOfBlock, q)
    else
      var t := TokenAt(lit, dist, d, p);
      t.Got? && t.value == ts[0] && Parses(lit, dist, d, t.p, ts[1..], q)
  }

  lemma {:induction false} BlockParses(lit: seq<nat>, dist: seq<nat>, ts: seq<Token>, d: seq<Byte>, p: nat, q: nat)
    requires AllEncodable(lit, dist, ts) && Holds(d, p, BlockBits(lit, dist, ts)) && q == p + |BlockBits(lit, dist, ts)|
    ensures Parses(lit, dist, d, p, ts, q)
    decreases |ts|
  {
    if ts == [] {
      TokenReads(lit, dist, d, p, q, EndOfBlock);
    } else {
      var first, rest := TokenBits(lit, dist, ts[0]), BlockBits(lit, dist, ts[1..]);
      var next := p + |first|;
      HoldsSplit(d, p, next, first, rest);
      TokenReads(lit, dist, d, p, next, ts[0]);
      BlockParses(lit, dist, ts[1..], d, next, q);
    }
  }

  lemma {:induction false} ParsedExpands(lit: seq<nat>, dist: seq<nat>, ts: seq<Token>, d: seq<Byte>, p: nat, q: nat, out: seq<Byte>, cap: nat)
    requires Parses(lit, dist, d, p, ts, q) && Legal(ts, out) && |Expand(ts, out)| <= cap
    ensures HuffmanBlock(lit, dist, d, p, out, cap) == Got(Expand(ts, out), q)
    decreases |ts|
  {
    if ts != [] {
      var next := TokenAt(lit, dist, d, p).p;
      BlockStep(lit, dist, d, p, next, out, cap, ts[0]);
      ParsedExpands(lit, dist, ts[1..], d, next, q, Expanded(ts[0], out), cap);
    }
  }

  /** A block's compressed data decodes to its LZ77 expansion, under any pair of codes. */
  lemma BlockDecodes(lit: seq<nat>, dist: seq<nat>, ts: seq<Token>, d: seq<Byte>, p: nat, q: nat, out: seq<Byte>, cap: nat)
    requires AllEncodable(lit, dist, ts) && Legal(ts, out) && |Expand(ts, out)| <= cap
    requires Holds(d, p, BlockBits(lit, dist, ts)) && q == p + |BlockBits(lit, dist, ts)|
    ensures HuffmanBlock(lit, dist, d, p, out, cap) == Got(Expand(ts, out), q)
  {
    BlockParses(lit, dist, ts, d, p, q);
    ParsedExpands(lit, dist, ts, d, p, q, out, cap);
  }
}
