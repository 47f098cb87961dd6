/** The kernel's inflate: bounded buffers updated in place, against the format. */
module Inflate {
  import opened Limbs
  import opened BitStream
  import opened Huffman
  import opened DeflateFormat

  /** 32-bit unsigned addition, which wraps. */
  function Add32(x: nat, y: nat): nat {
    (x + y) % 0x1_0000_0000
  }

  /** Up to this size no 32-bit sum the bounds checks form can wrap. */
  const MAX_BUFFER: nat := 0xFFFF_0000

  /** Position `pos` plus a length has not left a buffer of `size` bytes, as the code tests it. */
  predicate TestPasses(pos: nat, n: nat, size: nat) {
    Add32(pos, n) <= size
  }

  /** The test decides every position and every length a stored block may have exactly for buffers up to that size. */
  lemma TestsDecideIff(size: nat)
    requires size < 0x1_0000_0000
    ensures size <= MAX_BUFFER <==> forall pos: nat, n: nat :: pos <= size && n <= 0xFFFF ==> (TestPasses(pos, n, size) <==> pos + n <= size)
  {
    if size > MAX_BUFFER {
      assert TestPasses(size, 0xFFFF, size);
    }
  }

  const LENGTH_BASE: seq<nat> := [
    3, 4, 5, 6, 7, 8, 9, 10, 11, 13, 15, 17, 19, 23, 27,
    31, 35, 43, 51, 59, 67, 83, 99, 115, 131, 163, 195, 227, 258]
  const LENGTH_EXTRA: seq<nat> := [
    0, 0, 0, 0, 0, 0, 0, 0, 1, 1, 1, 1, 2, 2, 2,
    2, 3, 3, 3, 3, 4, 4, 4, 4, 5, 5, 5, 5, 0]
  const DIST_BASE: seq<nat> := [
    1, 2, 3, 4, 5, 7, 9, 13, 17, 25, 33, 49, 65, 97, 129,
    193, 257, 385, 513, 769, 1025, 1537, 2049, 3073, 4097, 6145, 8193, 12289, 16385, 24577]
  const DIST_EXTRA: seq<nat> := [
    0, 0, 0, 0, 1, 1, 2, 2, 3, 3, 4, 4, 5, 5, 6,
    6, 7, 7, 8, 8, 9, 9, 10, 10, 11, 11, 12, 12, 13, 13]

  lemma LengthTables(i: nat)
    requires i < LENGTH_CODES
    ensures |LENGTH_BASE| == |LENGTH_EXTRA| == LENGTH_CODES
    ensures LENGTH_BASE[i] == LengthBase(i) && LENGTH_EXTRA[i] == LengthExtra(i)
  {
  }

  lemma DistanceTables(i: nat)
    requires i < DISTANCE_CODES
    ensures |DIST_BASE| == |DIST_EXTRA| == DISTANCE_CODES
    ensures DIST_BASE[i] == DistanceBase(i) && DIST_EXTRA[i] == DistanceExtra(i)
  {
  }

  // ---------- copying ----------

  /** The byte-by-byte copy from `distance` back, which may overlap what it writes. */
  method CopyMatch(dst: array<Byte>, pos: nat, distance: nat, length: nat)
    requires 0 < distance <= pos && pos + length <= dst.Length
    modifies dst
    ensures dst[..pos + length] == CopyBack(old(dst[..pos]), distance, length)
    ensures dst[pos + length..] == old(dst[pos + length..])
  {
    ghost var out := dst[..pos];
    var i := 0;
    while i < length
      invariant 0 <= i <= length
      invariant dst[..pos + i] == CopyBack(out, distance, i)
      invariant dst[pos + i..] == old(dst[pos + i..])
    {
      ghost var before := dst[..pos + i];
      dst[pos + i] := dst[pos - distance + i];
      assert dst[..pos + i + 1] == before + [before[pos + i - distance]];
      i := i + 1;
    }
  }

  method CopyStored(data: seq<Byte>, from: nat, n: nat, dst: array<Byte>, pos: nat)
    requires from + n <= |data| && pos + n <= dst.Length
    modifies dst
    ensures dst[..pos + n] == old(dst[..pos]) + data[from..from + n]
    ensures dst[pos + n..] == old(dst[pos + n..])
  {
    var i := 0;
    while i < n
      invariant 0 <= i <= n
      invariant dst[..pos + i] == old(dst[..pos]) + data[from..from + i]
      invariant dst[pos + i..] == old(dst[pos + i..])
    {
      dst[pos + i] := data[from + i];
      i := i + 1;
    }
  }

  // ---------- stored blocks ----------

  method ReadStoredLength(br: BitReader) returns (ok: bool, lenv: nat)
    requires br.Valid() && !br.error && |br.data| <= MAX_BUFFER
    modifies br
    ensures br.Valid() && !br.error
    ensures var r := StoredLength(br.data, (old(br.Pos()) + 7) / 8);
      ok == r.Got? && (ok ==> br.At(8 * r.p) && br.bytePos == r.p && lenv == r.value)
  {
    ok, lenv := false, 0;
    br.Align();
    if Add32(br.bytePos, 4) > |br.data| {
      return;
    }
    var q := br.bytePos;
    lenv := Le16(br.data[q], br.data[q + 1]);
    var nlen := Le16(br.data[q + 2], br.data[q + 3]);
    ok := 0xFFFF - lenv == nlen;
    if ok {
      br.bytePos := br.bytePos + 4;
    }
  }

  method InflateBlockStored(br: BitReader, dst: array<Byte>, cap: nat, pos: nat) returns (ok: bool, pos': nat)
    requires br.Valid() && !br.error && pos <= cap <= dst.Length && |br.data| <= MAX_BUFFER && cap <= MAX_BUFFER
    modifies br, dst
    ensures dst[cap..] == old(dst[cap..]) && pos' <= cap
    ensures var r := StoredBlock(br.data, old(br.Pos()), old(dst[..pos]), cap);
      ok == r.Got? && (ok ==> br.At(r.p) && dst[..pos'] == r.value)
  {
    var lenv;
    ok, lenv := ReadStoredLength(br);
    pos' := pos;
    if ok {
      if Add32(br.bytePos, lenv) > |br.data| || Add32(pos, lenv) > cap {
        ok := false;
      } else {
        CopyStored(br.data, br.bytePos, lenv, dst, pos);
        assert dst[cap..] == dst[pos + lenv..][cap - pos - lenv..];
        br.bytePos := br.bytePos + lenv;
        pos' := pos + lenv;
      }
    }
  }

  // ---------- compressed blocks ----------

  /** Huffman decoding in the format's terms; after an error it keeps failing. */
  method ReadSymbol(br: BitReader, h: HuffmanTable, ghost ls: seq<nat>) returns (sym: int)
    requires br.Valid() && h.Lists(ls)
    modifies br
    ensures br.Valid() && sym >= -1 && (old(br.error) ==> sym == -1)
    ensures !old(br.error) ==> var r := Symbol(ls, br.data, old(br.Pos())); if sym < 0 then r.Bad? else r.Got? && br.At(r.p) && r.value == sym
  {
    sym := h.Decode(br, ls);
    if sym >= 0 {
      SymbolIs(ls, br.data, old(br.Pos()), sym);
    }
  }

  method ReadNumber(br: BitReader, n: nat) returns (v: nat)
    requires br.Valid() && !br.error && n < 32
    modifies br
    ensures br.Valid()
    ensures var r := Number(br.data, old(br.Pos()), n); if br.error then r.Bad? else r.Got? && br.At(r.p) && r.value == v
  {
    v := br.GetBits(n);
  }

  method LengthEntry(i: nat) returns (base: nat, extra: nat)
    requires i < LENGTH_CODES
    ensures base == LengthBase(i) && extra == LengthExtra(i)
  {
    LengthTables(i);
    return LENGTH_BASE[i], LENGTH_EXTRA[i];
  }

  method DistanceEntry(i: nat) returns (base: nat, extra: nat)
    requires i < DISTANCE_CODES
    ensures base == DistanceBase(i) && extra == DistanceExtra(i)
  {
    DistanceTables(i);
    return DIST_BASE[i], DIST_EXTRA[i];
  }

  /** A match's remaining bits, and the length and distance they add up to. */
  method ReadMatch(br: BitReader, dist: HuffmanTable, ghost dl: seq<nat>, lidx: nat) returns (ok: bool, t: Token)
    requires br.Valid() && !br.error && dist.Lists(dl) && lidx < LENGTH_CODES
    modifies br
    ensures var r := MatchAt(dl, br.data, old(br.Pos()), lidx);
      ok == r.Got? && (ok ==> br.At(r.p) && t == r.value)
  {
    ok, t := false, EndOfBlock;
    var _, lbits := LengthEntry(lidx);
    var lextra := ReadNumber(br, lbits);
    var dsym := ReadSymbol(br, dist, dl);
    if 0 <= dsym < 30 {
      var _, dbits := DistanceEntry(dsym);
      var dextra := ReadNumber(br, dbits);
      ok, t := !br.error, Match(lidx, lextra, dsym, dextra);
    }
  }

  method ReadToken(br: BitReader, lit: HuffmanTable, dist: HuffmanTable, ghost ll: seq<nat>, ghost dl: seq<nat>)
    returns (ok: bool, t: Token)
    requires br.Valid() && !br.error && lit.Lists(ll) && dist.Lists(dl)
    modifies br
    ensures var r := TokenAt(ll, dl, br.data, old(br.Pos()));
      ok == r.Got? && (ok ==> br.At(r.p) && t == r.value)
  {
    ok, t := false, EndOfBlock;
    var sym := ReadSymbol(br, lit, ll);
    if sym < 0 {
      return;
    }
    if sym < 256 {
      ok, t := true, Literal(sym);
    } else if sym == 256 {
      ok := true;
    } else if sym - 257 < 29 {
      ok, t := ReadMatch(br, dist, dl, sym - 257);
    }
  }

  method MatchExtent(t: Token) returns (length: nat, distance: nat)
    requires t.Match? && MatchOk(t)
    ensures length == Length(t) < 290 && distance == Distance(t)
  {
    SmallPowers();
    Pow2Monotone(LengthExtra(t.lidx), 5);
    var lbase, _ := LengthEntry(t.lidx);
    var dbase, _ := DistanceEntry(t.didx);
    return lbase + t.lextra, dbase + t.dextra;
  }

  /** Writes what a literal or a match stands for, if the window and the buffer allow it. */
  method Put(dst: array<Byte>, cap: nat, pos: nat, t: Token) returns (ok: bool, pos': nat)
    requires pos <= cap <= dst.Length && cap <= MAX_BUFFER && !t.EndOfBlock? && MatchOk(t)
    modifies dst
    ensures dst[cap..] == old(dst[cap..]) && pos' <= cap
    ensures var r := Apply(old(dst[..pos]), t, cap); ok == r.Out? && (ok ==> dst[..pos'] == r.bytes)
  {
    ok, pos' := false, pos;
    match t {
      case Literal(b) =>
        if pos < cap {
          dst[pos] := b;
          ok, pos' := true, pos + 1;
        }
      case Match(_, _, _, _) =>
        var length, distance := MatchExtent(t);
        ok, pos' := PutMatch(dst, cap, pos, length, distance);
    }
  }

  method PutMatch(dst: array<Byte>, cap: nat, pos: nat, length: nat, distance: nat) returns (ok: bool, pos': nat)
    requires pos <= cap <= dst.Length && cap <= MAX_BUFFER && length < 290 && distance > 0
    modifies dst
    ensures dst[cap..] == old(dst[cap..]) && pos' <= cap
    ensures ok <==> distance <= pos && pos + length <= cap
    ensures ok ==> dst[..pos'] == CopyBack(old(dst[..pos]), distance, length)
  {
    ok, pos' := distance <= pos && Add32(pos, length) <= cap, pos;
    if ok {
      CopyMatch(dst, pos, distance, length);
      assert dst[cap..] == dst[pos + length..][cap - pos - length..];
      pos' := pos + length;
    }
  }

  method InflateBlockHuffman(br: BitReader, lit: HuffmanTable, dist: HuffmanTable, ghost ll: seq<nat>, ghost dl: seq<nat>,
                             dst: array<Byte>, cap: nat, pos: nat) returns (ok: bool, pos': nat)
    requires br.Valid() && !br.error && lit.Lists(ll) && dist.Lists(dl) && pos <= cap <= dst.Length && cap <= MAX_BUFFER
    modifies br, dst
    ensures dst[cap..] == old(dst[cap..]) && pos' <= cap
    ensures var r := HuffmanBlock(ll, dl, br.data, old(br.Pos()), old(dst[..pos]), cap);
      ok == r.Got? && (ok ==> br.At(r.p) && dst[..pos'] == r.value)
  {
    ghost var whole := HuffmanBlock(ll, dl, br.data, br.Pos(), dst[..pos], cap);
    ok, pos' := true, pos;
    var end := false;
    while ok && !end
      invariant dst[cap..] == old(dst[cap..]) && pos' <= cap && lit.Lists(ll) && dist.Lists(dl)
      invariant ok ==> br.Valid() && !br.error
      invariant ok && !end ==> whole == HuffmanBlock(ll, dl, br.data, br.Pos(), dst[..pos'], cap)
      invariant ok && end ==> whole == Got(dst[..pos'], br.Pos())
      invariant !ok ==> whole.Bad?
      decreases ok && !end, 8 * |br.data| - br.Pos()
    {
      var t;
      ok, t := ReadToken(br, lit, dist, ll, dl);
      if ok {
        if t.EndOfBlock? {
          end := true;
        } else {
          ok, pos' := Put(dst, cap, pos', t);
        }
      }
    }
  }

  // ---------- tables ----------

  ghost predicate Ready(h: HuffmanTable) {
    h.count.Length == MAX_BITS + 1 && h.symbol.Length == MAX_SYMBOLS && h.count != h.symbol
  }

  ghost predicate Apart(g: HuffmanTable, h: HuffmanTable) {
    Ready(g) && Ready(h) && {g.count, g.symbol} !! {h.count, h.symbol}
  }

  method Fill(a: array<nat>, lo: nat, hi: nat, x: nat)
    requires lo <= hi <= a.Length
    modifies a
    ensures forall i :: 0 <= i < a.Length ==> a[i] == if lo <= i < hi then x else old(a[i])
  {
    var i := lo;
    while i < hi
      invariant lo <= i <= hi
      invariant forall j :: 0 <= j < a.Length ==> a[j] == if lo <= j < i then x else old(a[j])
    {
      a[i] := x;
      i := i + 1;
    }
  }

  method BuildFixedTables(lit: HuffmanTable, dist: HuffmanTable)
    requires Apart(lit, dist)
    modifies lit.count, lit.symbol, dist.count, dist.symbol
    ensures lit.Lists(FixedLit()) && dist.Lists(FixedDist())
  {
    var litLengths := new nat[288];
    Fill(litLengths, 0, 144, 8);
    Fill(litLengths, 144, 256, 9);
    Fill(litLengths, 256, 280, 7);
    Fill(litLengths, 280, 288, 8);
    assert litLengths[..] == FixedLit();
    lit.Build(litLengths[..]);
    var distLengths := new nat[30];
    Fill(distLengths, 0, 30, 5);
    assert distLengths[..] == FixedDist();
    dist.Build(distLengths[..]);
  }

  method StoreCl(cl: array<nat>, i: nat, v: nat)
    requires cl.Length == 19 && i < 19
    modifies cl
    ensures cl[..] == old(cl[..])[ClOrder(i) := v]
  {
    cl[ClOrder(i)] := v;
  }

  method ReadClLengths(br: BitReader, hclen: nat) returns (cl: array<nat>)
    requires br.Valid() && !br.error && hclen <= 19
    modifies br
    ensures br.Valid() && fresh(cl) && cl.Length == 19
    ensures var r := ClTable(br.data, old(br.Pos()), hclen); br.error == r.Bad? && (r.Got? ==> br.At(r.p) && cl[..] == r.value)
  {
    ghost var p := br.Pos();
    cl := new nat[19](_ => 0);
    var i := 0;
    while i < hclen
      invariant 0 <= i <= hclen && br.Valid() && fresh(cl) && cl.Length == 19
      invariant br.error <==> p + 3 * i > 8 * |br.data|
      invariant !br.error ==> br.At(p + 3 * i) && cl[..] == ClLengths(br.data, p, i)
    {
      var v := br.GetBits(3);
      StoreCl(cl, i, v);
      i := i + 1;
    }
  }

  ghost predicate Short(s: seq<nat>) {
    forall i :: 0 <= i < |s| ==> s[i] <= MAX_BITS
  }

  /** Up to `rep` copies of x, stopping at `total`. */
  method AppendRun(lengths: array<nat>, n: nat, total: nat, rep: nat, x: nat) returns (n': nat)
    requires n <= total <= lengths.Length && x <= MAX_BITS && Short(lengths[..n])
    modifies lengths
    ensures n' <= total && Short(lengths[..n'])
    ensures lengths[..n'] == old(lengths[..n]) + Repeat(x, if rep <= total - n then rep else total - n)
  {
    n' := n;
    var left := rep;
    while left > 0 && n' < total
      invariant n <= n' <= total && n' - n + left == rep && Short(lengths[..n'])
      invariant lengths[..n'] == old(lengths[..n]) + Repeat(x, n' - n)
    {
      lengths[n'] := x;
      assert lengths[..n' + 1] == lengths[..n'] + [x];
      n' := n' + 1;
      left := left - 1;
    }
  }

  method ReadRun(br: BitReader, bits: nat, base: nat, lengths: array<nat>, n: nat, total: nat, x: nat) returns (ok: bool, n': nat)
    requires br.Valid() && !br.error && bits < 32 && n <= total <= lengths.Length && x <= MAX_BITS && Short(lengths[..n])
    modifies br, lengths
    ensures n' <= total && Short(lengths[..n'])
    ensures var r := RunOf(br.data, old(br.Pos()), bits, base, old(lengths[..n]), total, x);
      ok == r.Got? && (ok ==> br.At(r.p) && lengths[..n'] == r.value)
  {
    var rep := ReadNumber(br, bits);
    n' := AppendRun(lengths, n, total, rep + base, x);
    ok := !br.error;
  }

  method ReadRepeat(br: BitReader, sym: nat, lengths: array<nat>, n: nat, total: nat) returns (ok: bool, n': nat)
    requires br.Valid() && !br.error && n <= total <= lengths.Length && Short(lengths[..n])
    modifies br, lengths
    ensures n' <= total && Short(lengths[..n'])
    ensures var r := RepeatStep(sym, br.data, old(br.Pos()), old(lengths[..n]), total);
      ok == r.Got? && (ok ==> br.At(r.p) && lengths[..n'] == r.value)
  {
    ok, n' := false, n;
    if sym == 16 {
      if n != 0 {
        ok, n' := ReadRun(br, 2, 3, lengths, n, total, lengths[n - 1]);
      }
    } else if sym == 17 {
      ok, n' := ReadRun(br, 3, 3, lengths, n, total, 0);
    } else {
      ok, n' := ReadRun(br, 7, 11, lengths, n, total, 0);
    }
  }

  method ReadLength(br: BitReader, cl: HuffmanTable, ghost cls: seq<nat>, lengths: array<nat>, n: nat, total: nat)
    returns (ok: bool, n': nat)
    requires br.Valid() && !br.error && cl.Lists(cls) && n < total <= lengths.Length && Short(lengths[..n])
    requires lengths != cl.count && lengths != cl.symbol
    modifies br, lengths
    ensures n' <= total && Short(lengths[..n'])
    ensures var r := LengthsStep(cls, br.data, old(br.Pos()), old(lengths[..n]), total);
      ok == r.Got? && (ok ==> br.At(r.p) && lengths[..n'] == r.value)
  {
    ok, n' := false, n;
    var sym := ReadSymbol(br, cl, cls);
    if sym >= 0 {
      if sym < 16 {
        lengths[n] := sym;
        ok, n' := true, n + 1;
      } else {
        ok, n' := ReadRepeat(br, sym, lengths, n, total);
      }
    }
  }

  method ReadCodeLengths(br: BitReader, cl: HuffmanTable, ghost cls: seq<nat>, lengths: array<nat>, total: nat) returns (ok: bool)
    requires br.Valid() && !br.error && cl.Lists(cls) && total <= lengths.Length
    requires lengths != cl.count && lengths != cl.symbol
    modifies br, lengths
    ensures var r := CodeLengths(cls, br.data, old(br.Pos()), [], total);
      ok == r.Got? && (ok ==> br.At(r.p) && lengths[..total] == r.value && Short(lengths[..total]))
  {
    ghost var whole := CodeLengths(cls, br.data, br.Pos(), [], total);
    var n: nat := 0;
    ok := true;
    while ok && n < total
      invariant n <= total && cl.Lists(cls) && Short(lengths[..n])
      invariant ok ==> br.Valid() && !br.error && whole == CodeLengths(cls, br.data, br.Pos(), lengths[..n], total)
      invariant !ok ==> whole.Bad?
      decreases ok, 8 * |br.data| - br.Pos()
    {
      ok, n := ReadLength(br, cl, cls, lengths, n, total);
    }
  }

  method ReadHeader(br: BitReader) returns (ok: bool, h: Header)
    requires br.Valid() && !br.error
    modifies br
    ensures var r := HeaderAt(br.data, old(br.Pos())); ok == r.Got? && (ok ==> br.At(r.p) && h == r.value)
  {
    var hlit := br.GetBits(5);
    var hdist := br.GetBits(5);
    var hclen := br.GetBits(4);
    ok, h := !br.error, Header(hlit + 257, hdist + 1, hclen + 4);
  }

  method ReadDynamicTables(br: BitReader, lit: HuffmanTable, dist: HuffmanTable) returns (ok: bool, ghost t: Tables)
    requires br.Valid() && !br.error && Apart(lit, dist)
    modifies br, lit.count, lit.symbol, dist.count, dist.symbol
    ensures var r := DynamicTables(br.data, old(br.Pos()));
      ok == r.Got? && (ok ==> br.At(r.p) && t == r.value && lit.Lists(t.lit) && dist.Lists(t.dist))
  {
    t := Tables([], []);
    var h;
    ok, h := ReadHeader(br);
    if ok {
      ok := ReadLengthTables(br, lit, dist, h);
      t := if ok then DynamicTables(br.data, old(br.Pos())).value else t;
    }
  }

  method ReadLengthTables(br: BitReader, lit: HuffmanTable, dist: HuffmanTable, h: Header) returns (ok: bool)
    requires br.Valid() && !br.error && Apart(lit, dist) && h.hlit <= 288 && h.hdist <= 32 && h.hclen <= 19
    modifies br, lit.count, lit.symbol, dist.count, dist.symbol
    ensures var r := LengthTablesAt(br.data, old(br.Pos()), h);
      ok == r.Got? && (ok ==> br.At(r.p) && lit.Lists(r.value.lit) && dist.Lists(r.value.dist))
  {
    ok := false;
    var clLengths := ReadClLengths(br, h.hclen);
    if !br.error && Total(h.hlit, h.hdist) <= MAX_LENGTHS {
      ok := ReadTables(br, lit, dist, clLengths[..], h.hlit, h.hdist);
    }
  }

  /** Both tables' lengths, coded with the code-length code and stored end to end. */
  method ReadTables(br: BitReader, lit: HuffmanTable, dist: HuffmanTable, cls: seq<nat>, hlit: nat, hdist: nat) returns (ok: bool)
    requires br.Valid() && !br.error && Apart(lit, dist) && IsLengths(cls)
    requires hlit <= MAX_SYMBOLS && hdist <= MAX_SYMBOLS && hlit + hdist <= MAX_LENGTHS
    modifies br, lit.count, lit.symbol, dist.count, dist.symbol
    ensures var r := CodeLengths(cls, br.data, old(br.Pos()), [], Total(hlit, hdist));
      ok == r.Got? && (ok ==> br.At(r.p) && lit.Lists(r.value[..hlit]) && dist.Lists(r.value[hlit..]))
  {
    var cl := new HuffmanTable();
    cl.Build(cls);
    var lengths := new nat[MAX_LENGTHS];
    ok := ReadCodeLengths(br, cl, cls, lengths, Total(hlit, hdist));
    if ok {
      var all := lengths[..Total(hlit, hdist)];
      lit.Build(all[..hlit]);
      dist.Build(all[hlit..]);
    }
  }

  // ---------- streams ----------

  /** One block after its header bits. */
  method InflateBlock(br: BitReader, btype: nat, dst: array<Byte>, cap: nat, pos: nat) returns (ok: bool, pos': nat)
    requires br.Valid() && !br.error && pos <= cap <= dst.Length && |br.data| <= MAX_BUFFER && cap <= MAX_BUFFER
    modifies br, dst
    ensures dst[cap..] == old(dst[cap..]) && pos' <= cap
    ensures var r := Block(btype, br.data, old(br.Pos()), old(dst[..pos]), cap);
      ok == r.Got? && (ok ==> br.At(r.p) && dst[..pos'] == r.value)
  {
    ok, pos' := false, pos;
    if btype == 0 {
      ok, pos' := InflateBlockStored(br, dst, cap, pos);
    } else if btype == 1 || btype == 2 {
      var lit := new HuffmanTable();
      var dist := new HuffmanTable();
      ghost var tables := Tables(FixedLit(), FixedDist());
      ok := true;
      if btype == 1 {
        BuildFixedTables(lit, dist);
      } else {
        ok, tables := ReadDynamicTables(br, lit, dist);
      }
      if ok {
        ok, pos' := InflateBlockHuffman(br, lit, dist, tables.lit, tables.dist, dst, cap, pos);
      }
    }
  }

  /** Decompresses src into dst: exactly the bytes the stream denotes, or failure, for every input. */
  method Inflate(src: seq<Byte>, dst: array<Byte>, cap: nat) returns (ok: bool, outLen: nat)
    requires cap <= dst.Length && |src| <= MAX_BUFFER && cap <= MAX_BUFFER
    modifies dst
    ensures dst[cap..] == old(dst[cap..]) && outLen <= cap
    ensures ok <==> Blocks(src, 0, [], cap).Out?
    ensures ok ==> dst[..outLen] == Blocks(src, 0, [], cap).bytes
  {
    var br := new BitReader(src);
    ghost var whole := Blocks(src, 0, [], cap);
    var final := false;
    ok, outLen := true, 0;
    while ok && !final
      invariant br.data == src && outLen <= cap && dst[cap..] == old(dst[cap..])
      invariant ok ==> br.Valid() && !br.error
      invariant ok && !final ==> whole == Blocks(src, br.Pos(), dst[..outLen], cap)
      invariant ok && final ==> whole == Out(dst[..outLen])
      invariant !ok ==> whole.Malformed?
      decreases ok && !final, 8 * |src| - br.Pos()
    {
      var bit := br.GetBit();
      var btype := br.GetBits(2);
      if br.error {
        ok := false;
      } else {
        final := bit != 0;
        ok, outLen := InflateBlock(br, btype, dst, cap, outLen);
      }
    }
  }
}
