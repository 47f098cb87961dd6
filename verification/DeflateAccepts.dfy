/** What the decoder accepts: every compressed block it reads is the encoding of some list of tokens. */
module DeflateAccepts {
  import opened Limbs
  import opened BitStrings
  import opened BitStream
  import opened Huffman
  import opened DeflateFormat
  import opened Deflate
  import opened DeflateStreams

  // ---------- what is read is there ----------

  lemma HoldsJoin(d: seq<Byte>, p: nat, q: nat, a: Bits, b: Bits)
    requires Holds(d, p, a) && Holds(d, q, b) && q == p + |a|
    ensures Holds(d, p, a + b)
  {
    forall i: nat ensures BitIs(d, p, a + b, i) {
      if i < |a| {
        assert BitIs(d, p, a, i);
      } else {
        assert BitIs(d, q, b, i - |a|);
      }
    }
  }

  lemma HoldsOne(d: seq<Byte>, p: nat)
    requires p < 8 * |d|
    ensures Holds(d, p, [BitAt(d, p)])
  {
    forall i: nat ensures BitIs(d, p, [BitAt(d, p)], i) {
    }
  }

  lemma {:induction false} NumberHeld(d: seq<Byte>, p: nat, n: nat)
    requires p + n <= 8 * |d|
    ensures Holds(d, p, NumberBits(LsbVal(d, p, n), n))
  {
    if n > 0 {
      var m := n - 1;
      NumberHeld(d, p, m);
      HoldsOne(d, p + m);
      HoldsJoin(d, p, p + m, NumberBits(LsbVal(d, p, m), m), [BitAt(d, p + m)]);
    } else {
      forall i: nat ensures BitIs(d, p, NumberBits(0, 0), i) {
      }
    }
  }

  lemma {:induction false} CodeHeld(d: seq<Byte>, p: nat, n: nat)
    requires p + n <= 8 * |d|
    ensures Holds(d, p, CodeBits(MsbVal(d, p, n), n))
  {
    if n > 0 {
      var m := n - 1;
      var v, b := MsbVal(d, p, m), BitAt(d, p + m);
      CodeHeld(d, p, m);
      HoldsOne(d, p + m);
      HoldsJoin(d, p, p + m, CodeBits(v, m), [b]);
      CodeBitsSnoc(v, b, n, m);
    } else {
      forall i: nat ensures BitIs(d, p, CodeBits(0, 0), i) {
      }
    }
  }

  lemma CodeBitsSnoc(v: nat, b: Bit, n: nat, m: nat)
    requires n == m + 1
    ensures CodeBits(2 * v + b, n) == CodeBits(v, m) + [b]
  {
  }

  lemma SymbolHeld(ls: seq<nat>, d: seq<Byte>, p: nat, s: nat, q: nat)
    requires Symbol(ls, d, p) == Got(s, q)
    ensures Usable(ls, s) && Holds(d, p, SymbolBits(ls, s)) && q == p + |SymbolBits(ls, s)|
  {
    CodeHeld(d, p, ls[s]);
  }

  // ---------- tokens ----------

  lemma MatchHeld(dist: seq<nat>, d: seq<Byte>, p: nat, lidx: nat, t: Token, q: nat)
    requires lidx < LENGTH_CODES && MatchAt(dist, d, p, lidx) == Got(t, q)
    ensures t.Match? && t.lidx == lidx && MatchOk(t) && Usable(dist, t.didx)
    ensures Holds(d, p, MatchBits(dist, t)) && q == p + |MatchBits(dist, t)|
  {
    var e := LengthExtra(lidx);
    var p1 := p + e;
    var s := Symbol(dist, d, p1);
    var p2 := s.p;
    var f := DistanceExtra(s.value);
    NumberHeld(d, p, e);
    SymbolHeld(dist, d, p1, s.value, p2);
    NumberHeld(d, p2, f);
    var x, y, z := NumberBits(t.lextra, e), SymbolBits(dist, s.value), NumberBits(t.dextra, f);
    HoldsJoin(d, p1, p2, y, z);
    HoldsJoin(d, p, p1, x, y + z);
  }

  lemma TokenHeld(lit: seq<nat>, dist: seq<nat>, d: seq<Byte>, p: nat, t: Token, q: nat)
    requires TokenAt(lit, dist, d, p) == Got(t, q)
    ensures Encodable(lit, dist, t) && Holds(d, p, TokenBits(lit, dist, t)) && q == p + |TokenBits(lit, dist, t)|
  {
    var s := Symbol(lit, d, p);
    SymbolHeld(lit, d, p, s.value, s.p);
    if s.value > 256 {
      MatchHeld(dist, d, s.p, s.value - 257, t, q);
      HoldsJoin(d, p, s.p, SymbolBits(lit, s.value), MatchBits(dist, t));
    }
  }

  // ---------- blocks ----------

  /** The bits from p to q encode these tokens and an end of block, and the tokens can follow `out`. */
  ghost predicate ReadAs(lit: seq<nat>, dist: seq<nat>, d: seq<Byte>, p: nat, q: nat, out: seq<Byte>, ts: seq<Token>) {
    AllEncodable(lit, dist, ts) && Legal(ts, out) && Holds(d, p, BlockBits(lit, dist, ts)) && q == p + |BlockBits(lit, dist, ts)|
  }

  /** A block read with two codes is the encoding of tokens that these codes have, whose matches stay inside the output,
      and its result is their expansion. */
  lemma {:induction false} BlockHeld(lit: seq<nat>, dist: seq<nat>, d: seq<Byte>, p: nat, out: seq<Byte>, cap: nat) returns (ts: seq<Token>)
    requires |out| <= cap && HuffmanBlock(lit, dist, d, p, out, cap).Got?
    ensures var r := HuffmanBlock(lit, dist, d, p, out, cap);
      ReadAs(lit, dist, d, p, r.p, out, ts) && r.value == Expand(ts, out) && |r.value| <= cap
    decreases 8 * |d| - p
  {
    var t := TokenAt(lit, dist, d, p);
    TokenHeld(lit, dist, d, p, t.value, t.p);
    if t.value.EndOfBlock? {
      ts := [];
    } else {
      TokenApplied(out, t.value, cap);
      BlockStep(lit, dist, d, p, t.p, out, cap, t.value);
      var rest := BlockHeld(lit, dist, d, t.p, Expanded(t.value, out), cap);
      ts := OneMore(lit, dist, d, p, t.p, HuffmanBlock(lit, dist, d, p, out, cap).p, out, t.value, rest);
    }
  }

  lemma TokenApplied(out: seq<Byte>, t: Token, cap: nat)
    requires MatchOk(t) && !t.EndOfBlock? && Apply(out, t, cap).Out?
    ensures InWindow(t, out) && Apply(out, t, cap) == Out(Expanded(t, out)) && |Expanded(t, out)| <= cap
  {
  }

  lemma OneMore(lit: seq<nat>, dist: seq<nat>, d: seq<Byte>, p: nat, next: nat, q: nat, out: seq<Byte>, t: Token, rest: seq<Token>)
    returns (ts: seq<Token>)
    requires InWindow(t, out) && Encodable(lit, dist, t) && Holds(d, p, TokenBits(lit, dist, t)) && next == p + |TokenBits(lit, dist, t)|
    requires ReadAs(lit, dist, d, next, q, Expanded(t, out), rest)
    ensures ReadAs(lit, dist, d, p, q, out, ts) && Expand(ts, out) == Expand(rest, Expanded(t, out))
  {
    ts := [t] + rest;
    assert ts[1..] == rest;
    HoldsJoin(d, p, next, TokenBits(lit, dist, t), BlockBits(lit, dist, rest));
  }

  /** With two codes at hand, a block is accepted exactly if it encodes tokens whose matches stay inside the output and
      whose expansion fits. */
  lemma HuffmanIff(lit: seq<nat>, dist: seq<nat>, d: seq<Byte>, p: nat, out: seq<Byte>, cap: nat)
    requires |out| <= cap
    ensures HuffmanBlock(lit, dist, d, p, out, cap).Got? <==> exists ts: seq<Token>, q: nat :: Fitting(lit, dist, d, p, q, out, cap, ts)
  {
    if HuffmanBlock(lit, dist, d, p, out, cap).Got? {
      var ts := BlockHeld(lit, dist, d, p, out, cap);
      assert Fitting(lit, dist, d, p, HuffmanBlock(lit, dist, d, p, out, cap).p, out, cap, ts);
    }
    if ts: seq<Token>, q: nat :| Fitting(lit, dist, d, p, q, out, cap, ts) {
      BlockDecodes(lit, dist, ts, d, p, q, out, cap);
    }
  }

  ghost predicate Fitting(lit: seq<nat>, dist: seq<nat>, d: seq<Byte>, p: nat, q: nat, out: seq<Byte>, cap: nat, ts: seq<Token>) {
    ReadAs(lit, dist, d, p, q, out, ts) && |Expand(ts, out)| <= cap
  }

  /** A stored block's announced length. */
  ghost function Announced(d: seq<Byte>, q: nat): nat
    requires q + 2 <= |d|
  {
    d[q] as nat + 256 * d[q + 1] as nat
  }

  /** A stored block is accepted exactly if its length is there twice, the second time complemented, and so many bytes
      follow and fit. */
  lemma StoredIff(d: seq<Byte>, p: nat, out: seq<Byte>, cap: nat)
    requires |out| <= cap
    ensures var q := (p + 7) / 8;
      StoredBlock(d, p, out, cap).Got? <==>
        && q + 4 <= |d| && Announced(d, q) + Announced(d, q + 2) == 65535
        && q + 4 + Announced(d, q) <= |d| && |out| + Announced(d, q) <= cap
  {
  }

  // ---------- code lengths ----------

  ghost function Cut(r: seq<nat>, total: nat): seq<nat> {
    if |r| <= total then r else r[..total]
  }

  lemma RunHeld(d: seq<Byte>, p: nat, bits: nat, base: nat, acc: seq<nat>, total: nat, what: nat, q: nat) returns (n: nat)
    requires |acc| <= total && RunOf(d, p, bits, base, acc, total, what).Got? && q == p + bits
    ensures q <= 8 * |d| && base <= n < base + Pow2(bits) && Holds(d, p, NumberBits(n - base, bits))
    ensures RunOf(d, p, bits, base, acc, total, what) == Got(Cut(acc + Repeat(what, n), total), q)
  {
    n := LsbVal(d, p, bits) + base;
    NumberHeld(d, p, bits);
    if |acc| + n > total {
      assert (acc + Repeat(what, n))[..total] == acc + Repeat(what, total - |acc|);
    }
  }

  lemma RepeatHeld(cl: seq<nat>, d: seq<Byte>, p: nat, s: nat, acc: seq<nat>, total: nat) returns (c: Cmd)
    requires |acc| <= total && 16 <= s <= 18 && Usable(cl, s) && RepeatStep(s, d, p, acc, total).Got?
    ensures CmdSymbol(c) == s && CmdOk(cl, c, acc) && Holds(d, p, CmdExtra(cl, c, acc))
    ensures RepeatStep(s, d, p, acc, total) == Got(Cut(CmdApply(c, acc), total), p + |CmdExtra(cl, c, acc)|)
  {
    assert Pow2(2) == 4 && Pow2(3) == 8 && Pow2(7) == 128;
    if s == 16 {
      var n := RunHeld(d, p, 2, 3, acc, total, acc[|acc| - 1], p + 2);
      c := Again(n);
    } else if s == 17 {
      var n := RunHeld(d, p, 3, 3, acc, total, 0, p + 3);
      c := Zeros(n);
    } else {
      var n := RunHeld(d, p, 7, 11, acc, total, 0, p + 7);
      c := ManyZeros(n);
    }
  }

  /** Each code-length symbol accepted is one of the four commands of section 3.2.7 of RFC 1951, and does what it says, a run
      that goes too far being cut off. */
  lemma CmdHeld(cl: seq<nat>, d: seq<Byte>, p: nat, acc: seq<nat>, total: nat) returns (c: Cmd)
    requires |cl| == 19 && |acc| < total && LengthsStep(cl, d, p, acc, total).Got?
    ensures CmdOk(cl, c, acc) && Holds(d, p, SymbolBits(cl, CmdSymbol(c)) + CmdExtra(cl, c, acc))
    ensures LengthsStep(cl, d, p, acc, total) == Got(Cut(CmdApply(c, acc), total), p + |SymbolBits(cl, CmdSymbol(c)) + CmdExtra(cl, c, acc)|)
  {
    var s := Symbol(cl, d, p);
    SymbolHeld(cl, d, p, s.value, s.p);
    if s.value < 16 {
      c := One(s.value);
      assert SymbolBits(cl, s.value) + [] == SymbolBits(cl, s.value);
    } else {
      c := RepeatHeld(cl, d, s.p, s.value, acc, total);
      HoldsJoin(d, p, s.p, SymbolBits(cl, s.value), CmdExtra(cl, c, acc));
    }
  }
}
