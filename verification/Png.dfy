/** PNG scanline filters (section 6 of RFC 2083): the in-place defilter inverts them. */
module Png {
  import opened Limbs

  /** The closest of left, above and upper left to left + above - upper left, in that order. */
  function Paeth(a: Byte, b: Byte, c: Byte): Byte {
    var p: int := a as int + b as int - c as int;
    var pa, pb, pc := Abs(p - a), Abs(p - b), Abs(p - c);
    if pa <= pb && pa <= pc then a else if pb <= pc then b else c
  }

  function Abs(x: int): nat {
    if x < 0 then -x else x
  }

  /** Paeth picks a neighbour at least as close to the linear estimate as the others, the left one before the one
      above and that before the one above to the left. */
  lemma PaethIsClosest(a: Byte, b: Byte, c: Byte)
    ensures var p: int := a as int + b as int - c as int;
      var r := Paeth(a, b, c);
      && (r == a || r == b || r == c)
      && Abs(p - r) <= Abs(p - a) && Abs(p - r) <= Abs(p - b) && Abs(p - r) <= Abs(p - c)
      && (Abs(p - a) == Abs(p - r) ==> r == a) && (Abs(p - b) == Abs(p - r) < Abs(p - a) ==> r == b)
  {
  }

  function Predict(kind: nat, a: Byte, b: Byte, c: Byte): Byte {
    match kind
    case 0 => 0
    case 1 => a
    case 2 => b
    case 3 => (a as nat + b as nat) / 2
    case _ => Paeth(a, b, c)
  }

  function Filter(kind: nat, x: Byte, a: Byte, b: Byte, c: Byte): Byte {
    (x as nat + 256 - Predict(kind, a, b, c) as nat) % 256
  }

  function Recon(kind: nat, f: Byte, a: Byte, b: Byte, c: Byte): Byte {
    (f as nat + Predict(kind, a, b, c) as nat) % 256
  }

  lemma ReconInvertsFilter(kind: nat, x: Byte, a: Byte, b: Byte, c: Byte)
    ensures Recon(kind, Filter(kind, x, a, b, c), a, b, c) == x
  {
  }

  // ---------- rows ----------

  /** The byte bpp places before x, 0 at the left edge. */
  function Back(row: seq<Byte>, x: nat, bpp: nat): Byte
    requires x <= |row| && bpp > 0
  {
    if x >= bpp then row[x - bpp] else 0
  }

  /** A row as the encoder filters it, against the row above. */
  ghost function FilterRow(kind: nat, bpp: nat, up: seq<Byte>, row: seq<Byte>): (r: seq<Byte>)
    requires bpp > 0 && |up| == |row|
    ensures |r| == |row|
  {
    seq(|row|, x requires 0 <= x < |row| => Filter(kind, row[x], Back(row, x, bpp), up[x], Back(up, x, bpp)))
  }

  /** The first n bytes of a row reconstructed from its filtered form. */
  ghost function ReconTo(kind: nat, bpp: nat, up: seq<Byte>, f: seq<Byte>, n: nat): (r: seq<Byte>)
    requires bpp > 0 && |up| == |f| && n <= |f|
    ensures |r| == n
  {
    if n == 0 then []
    else
      var p := ReconTo(kind, bpp, up, f, n - 1);
      p + [Recon(kind, f[n - 1], Back(p, n - 1, bpp), up[n - 1], Back(up, n - 1, bpp))]
  }

  lemma {:induction false} RowRoundTrip(kind: nat, bpp: nat, up: seq<Byte>, row: seq<Byte>, n: nat)
    requires bpp > 0 && |up| == |row| && n <= |row|
    ensures ReconTo(kind, bpp, up, FilterRow(kind, bpp, up, row), n) == row[..n]
  {
    if n > 0 {
      RowRoundTrip(kind, bpp, up, row, n - 1);
      ReconInvertsFilter(kind, row[n - 1], Back(row, n - 1, bpp), up[n - 1], Back(up, n - 1, bpp));
      assert Back(row[..n - 1], n - 1, bpp) == Back(row, n - 1, bpp);
    }
  }

  // ---------- each filter type by itself ----------

  lemma {:induction false} ReconPrefix(kind: nat, bpp: nat, up: seq<Byte>, f: seq<Byte>, n: nat, m: nat)
    requires bpp > 0 && |up| == |f| && n <= m <= |f|
    ensures ReconTo(kind, bpp, up, f, m)[..n] == ReconTo(kind, bpp, up, f, n)
    decreases m
  {
    if n < m {
      ReconPrefix(kind, bpp, up, f, n, m - 1);
      var p := ReconTo(kind, bpp, up, f, m - 1);
      assert ReconTo(kind, bpp, up, f, m)[..m - 1] == p;
      assert ReconTo(kind, bpp, up, f, m)[..n] == p[..n];
    } else {
      assert ReconTo(kind, bpp, up, f, m)[..m] == ReconTo(kind, bpp, up, f, m);
    }
  }

  /** Each byte of a reconstructed row from the row's own earlier bytes and the row above. */
  lemma ReconAt(kind: nat, bpp: nat, up: seq<Byte>, f: seq<Byte>, x: nat, next: nat)
    requires bpp > 0 && |up| == |f| && x < |f| && next == x + 1
    ensures var r := ReconTo(kind, bpp, up, f, |f|);
      r[x] == Recon(kind, f[x], if x >= bpp then r[x - bpp] else 0, up[x], if x >= bpp then up[x - bpp] else 0)
  {
    var r := ReconTo(kind, bpp, up, f, |f|);
    ReconPrefix(kind, bpp, up, f, x, |f|);
    ReconPrefix(kind, bpp, up, f, next, |f|);
    assert r[x] == r[..next][x];
    assert x >= bpp ==> r[x - bpp] == r[..x][x - bpp];
  }

  /** f[x] and the bytes bpp, 2 * bpp and so on before it. */
  ghost function SumBack(f: seq<Byte>, x: nat, bpp: nat): nat
    requires x < |f| && bpp > 0
  {
    f[x] as nat + if x >= bpp then SumBack(f, x - bpp, bpp) else 0
  }

  /** Type 1 makes of each byte the sum of the filtered bytes up to it, whatever is above. */
  lemma {:induction false} SubRows(bpp: nat, up: seq<Byte>, f: seq<Byte>, x: nat)
    requires bpp > 0 && |up| == |f| && x < |f|
    ensures ReconTo(1, bpp, up, f, |f|)[x] == SumBack(f, x, bpp) % 256
  {
    ReconAt(1, bpp, up, f, x, x + 1);
    if x >= bpp {
      SubRows(bpp, up, f, x - bpp);
      AddMod(f[x], SumBack(f, x - bpp, bpp));
    }
  }

  lemma AddMod(a: nat, b: nat)
    ensures (a + b % 256) % 256 == (a + b) % 256
  {
  }

  /** Type 0 is the bytes themselves, and type 2 adds the byte above, whatever is to the left. */
  lemma PlainAndUpRows(bpp: nat, up: seq<Byte>, f: seq<Byte>, x: nat)
    requires bpp > 0 && |up| == |f| && x < |f|
    ensures ReconTo(0, bpp, up, f, |f|)[x] == f[x]
    ensures ReconTo(2, bpp, up, f, |f|)[x] == (f[x] as nat + up[x] as nat) % 256
  {
    ReconAt(0, bpp, up, f, x, x + 1);
    ReconAt(2, bpp, up, f, x, x + 1);
  }

  /** Type 3 adds half the sum of the bytes to the left and above, rounded down before the byte wraps. */
  lemma AverageRows(bpp: nat, up: seq<Byte>, f: seq<Byte>, x: nat)
    requires bpp > 0 && |up| == |f| && x < |f|
    ensures var r := ReconTo(3, bpp, up, f, |f|);
      r[x] == (f[x] as nat + ((if x >= bpp then r[x - bpp] as nat else 0) + up[x] as nat) / 2) % 256
  {
    ReconAt(3, bpp, up, f, x, x + 1);
  }

  /** Type 4 adds the neighbour that the Paeth rule picks; at the left edge that is the byte above. */
  lemma PaethRows(bpp: nat, up: seq<Byte>, f: seq<Byte>, x: nat)
    requires bpp > 0 && |up| == |f| && x < |f|
    ensures var r := ReconTo(4, bpp, up, f, |f|);
      r[x] == (f[x] as nat + (if x >= bpp then Paeth(r[x - bpp], up[x], up[x - bpp]) else up[x]) as nat) % 256
  {
    ReconAt(4, bpp, up, f, x, x + 1);
    var r := ReconTo(4, bpp, up, f, |f|);
    if x >= bpp {
      ReconPaeth(f[x], r[x - bpp], up[x], up[x - bpp]);
    } else {
      ReconPaeth(f[x], 0, up[x], 0);
      PaethEdge(up[x]);
    }
  }

  lemma ReconPaeth(f: Byte, a: Byte, b: Byte, c: Byte)
    ensures Recon(4, f, a, b, c) == (f as nat + Paeth(a, b, c) as nat) % 256
  {
  }

  lemma PaethEdge(b: Byte)
    ensures Paeth(0, b, 0) == b
  {
  }

  // ---------- images: rows end to end, each behind its filter type ----------

  ghost function Zeros(n: nat): (r: seq<Byte>)
    ensures |r| == n
  {
    seq(n, i => 0)
  }

  ghost predicate Rows(rows: seq<seq<Byte>>, stride: nat) {
    forall y :: 0 <= y < |rows| ==> |rows[y]| == stride
  }

  ghost function Encoded(kinds: seq<Byte>, rows: seq<seq<Byte>>, bpp: nat, up: seq<Byte>): (r: seq<Byte>)
    requires bpp > 0 && |kinds| == |rows| && Rows(rows, |up|)
    decreases |rows|
  {
    if rows == [] then []
    else [kinds[0]] + FilterRow(kinds[0], bpp, up, rows[0]) + Encoded(kinds[1..], rows[1..], bpp, rows[0])
  }

  ghost function Laid(kinds: seq<Byte>, rows: seq<seq<Byte>>): seq<Byte>
    requires |kinds| == |rows|
    decreases |rows|
  {
    if rows == [] then [] else [kinds[0]] + rows[0] + Laid(kinds[1..], rows[1..])
  }

  /** A whole buffer of `height` rows, reconstructed top to bottom. */
  ghost function Defiltered(raw: seq<Byte>, bpp: nat, up: seq<Byte>, height: nat): (r: seq<Byte>)
    requires bpp > 0 && |raw| == height * (1 + |up|)
    ensures |r| == |raw|
    decreases height
  {
    if height == 0 then []
    else
      RowFits(height, |up|);
      var n := 1 + |up|;
      var row := ReconTo(raw[0], bpp, up, raw[1..n], |up|);
      [raw[0]] + row + Defiltered(raw[n..], bpp, row, height - 1)
  }

  lemma RowFits(height: nat, stride: nat)
    requires height > 0
    ensures height * (1 + stride) == (1 + stride) + (height - 1) * (1 + stride) && (height - 1) * (1 + stride) >= 0
  {
    MulAdd(height - 1, 1, 1 + stride);
    MulLe(0, height - 1, 1 + stride);
  }

  lemma DefilterCons(kind: Byte, f: seq<Byte>, rest: seq<Byte>, bpp: nat, up: seq<Byte>, row: seq<Byte>, height: nat, below: nat)
    requires bpp > 0 && |f| == |up| && height == below + 1 && |rest| == below * (1 + |up|)
    requires row == ReconTo(kind, bpp, up, f, |up|)
    ensures |[kind] + f + rest| == height * (1 + |up|)
    ensures Defiltered([kind] + f + rest, bpp, up, height) == [kind] + row + Defiltered(rest, bpp, row, below)
  {
    RowFits(height, |up|);
    var raw := [kind] + f + rest;
    assert raw[1..1 + |up|] == f && raw[1 + |up|..] == rest;
  }

  /** Defiltering inverts filtering for every image and every choice of filter per row. */
  lemma {:induction false} ImageRoundTrip(kinds: seq<Byte>, rows: seq<seq<Byte>>, bpp: nat, up: seq<Byte>, height: nat)
    requires bpp > 0 && |kinds| == |rows| == height && Rows(rows, |up|)
    ensures |Encoded(kinds, rows, bpp, up)| == height * (1 + |up|)
    ensures Defiltered(Encoded(kinds, rows, bpp, up), bpp, up, height) == Laid(kinds, rows)
    decreases height
  {
    if height > 0 {
      var below := height - 1;
      var f := FilterRow(kinds[0], bpp, up, rows[0]);
      ImageRoundTrip(kinds[1..], rows[1..], bpp, rows[0], below);
      RowRoundTrip(kinds[0], bpp, up, rows[0], |up|);
      assert rows[0][..|up|] == rows[0];
      DefilterCons(kinds[0], f, Encoded(kinds[1..], rows[1..], bpp, rows[0]), bpp, up, rows[0], height, below);
    }
  }

  // ---------- in place ----------

  /** The reconstructed row above, or zeros for the first. */
  ghost function Above(raw: seq<Byte>, first: bool, at: nat, stride: nat): (up: seq<Byte>)
    requires first || at + stride <= |raw|
    ensures |up| == stride
  {
    if first then Zeros(stride) else raw[at..at + stride]
  }

  /** Byte x of the row at s, from its reconstructed neighbours. */
  method DefilterByte(raw: array<Byte>, s: nat, x: nat, bpp: nat, first: bool, above: nat, kind: Byte,
                      ghost done: seq<Byte>, ghost up: seq<Byte>)
    requires bpp > 0 && s + x < raw.Length && kind <= 4 && done == raw[s..s + x]
    requires x < |up| && (if first then up == Zeros(|up|) else above + |up| <= raw.Length && up == raw[above..above + |up|])
    modifies raw
    ensures raw[..] == old(raw[..])[s + x := Recon(kind, old(raw[s + x]), Back(done, x, bpp), up[x], Back(up, x, bpp))]
  {
    var a := if x >= bpp then raw[s + x - bpp] else 0;
    var b := if first then 0 else raw[above + x];
    var c := if !first && x >= bpp then raw[above + x - bpp] else 0;
    raw[s + x] := Recon(kind, raw[s + x], a, b, c);
  }

  lemma RowExtends(before: seq<Byte>, after: seq<Byte>, s: nat, x: nat, v: Byte)
    requires s + x < |before| && after == before[s + x := v]
    ensures after[..s] == before[..s] && after[s..s + x + 1] == before[s..s + x] + [v] && after[s + x + 1..] == before[s + x + 1..]
  {
  }

  /** Until byte x is written, it and the row above are as they were. */
  lemma RowKept(now: seq<Byte>, start: seq<Byte>, s: nat, x: nat, stride: nat, above: nat, first: bool)
    requires |now| == |start| && x < stride && s + stride <= |now| && (first || above + stride <= s)
    requires now[..s] == start[..s] && now[s + x..] == start[s + x..]
    ensures now[s + x] == start[s..s + stride][x]
    ensures first || now[above..above + stride] == start[above..above + stride]
  {
    assert now[s + x] == now[s + x..][0] && start[s + x] == start[s + x..][0];
    if !first {
      forall i | above <= i < above + stride ensures now[i] == start[i] {
        assert now[i] == now[..s][i] && start[i] == start[..s][i];
      }
    }
  }

  /** One row, its bytes overwritten left to right. */
  method DefilterRow(raw: array<Byte>, s: nat, bpp: nat, first: bool, above: nat, kind: Byte,
                     stride: nat, ghost up: seq<Byte>)
    requires bpp > 0 && kind <= 4 && stride == |up| && s + stride <= raw.Length && (first || above + stride <= s)
    requires up == Above(raw[..], first, above, stride)
    modifies raw
    ensures raw[..s] == old(raw[..s]) && raw[s + stride..] == old(raw[s + stride..])
    ensures raw[s..s + stride] == ReconTo(kind, bpp, up, old(raw[s..s + stride]), stride)
  {
    ghost var start, f := raw[..], raw[s..s + stride];
    var x := 0;
    while x < stride
      invariant 0 <= x <= stride
      invariant raw[..s] == start[..s] && raw[s + x..] == start[s + x..]
      invariant raw[s..s + x] == ReconTo(kind, bpp, up, f, x)
    {
      ghost var before := raw[..];
      RowKept(before, start, s, x, stride, if first then 0 else above, first);
      DefilterByte(raw, s, x, bpp, first, above, kind, raw[s..s + x], up);
      RowExtends(before, raw[..], s, x, raw[s + x]);
      x := x + 1;
    }
  }

  /** The rows before `base` are done, the `below` rows from there on are untouched. */
  ghost predicate Progress(now: seq<Byte>, start: seq<Byte>, base: nat, bpp: nat, up: seq<Byte>, below: nat, whole: seq<Byte>) {
    && bpp > 0 && base <= |now| == |start| && |start[base..]| == below * (1 + |up|) && now[base..] == start[base..]
    && now[..base] + Defiltered(start[base..], bpp, up, below) == whole
  }

  /** One row further: filter type kept, row reconstructed, the rest untouched. */
  lemma Advance(now: seq<Byte>, now': seq<Byte>, start: seq<Byte>, base: nat, next: nat, bpp: nat, up: seq<Byte>,
                row: seq<Byte>, below: nat, left: nat, whole: seq<Byte>)
    requires Progress(now, start, base, bpp, up, below, whole) && below == left + 1 && next == base + 1 + |up| <= |now| == |now'|
    requires now'[..base + 1] == now[..base + 1] && now'[base + 1..next] == row && now'[next..] == now[next..]
    requires row == ReconTo(now[base], bpp, up, now[base + 1..next], |up|)
    ensures Progress(now', start, next, bpp, row, left, whole)
  {
    RowFits(below, |up|);
    var kind, f, rest := now[base], now[base + 1..next], start[next..];
    RowParts(now, start, base, next);
    DefilterCons(kind, f, rest, bpp, up, row, below, left);
    Glue(now, now', base, next, row, Defiltered(rest, bpp, row, left));
  }

  lemma RowParts(now: seq<Byte>, start: seq<Byte>, base: nat, next: nat)
    requires base < next <= |now| == |start| && now[base..] == start[base..]
    ensures start[base..] == [now[base]] + now[base + 1..next] + start[next..] && now[next..] == start[next..]
  {
    var r := start[base..];
    assert now[base] == now[base..][0] && now[base + 1..next] == now[base..][1..next - base];
    assert start[next..] == r[next - base..] && now[next..] == now[base..][next - base..];
  }

  lemma Glue(now: seq<Byte>, now': seq<Byte>, base: nat, next: nat, row: seq<Byte>, rest: seq<Byte>)
    requires base < next <= |now| == |now'| && now'[..base + 1] == now[..base + 1] && now'[base + 1..next] == row
    ensures now'[..next] + rest == now[..base] + ([now[base]] + row + rest)
  {
    assert now'[..next] == now'[..base + 1] + now'[base + 1..next];
    assert now[..base + 1] == now[..base] + [now[base]];
  }

  /** The filter type of the next row, and those of the rows after it. */
  lemma KindsNext(now: seq<Byte>, start: seq<Byte>, base: nat, next: nat, stride: nat, below: nat, left: nat)
    requires base < |now| == |start| && now[base..] == start[base..] && next == base + 1 + stride <= |now| && below == left + 1
    requires |start[base..]| == below * (1 + stride) && |start[next..]| == left * (1 + stride)
    ensures KindsKnown(start[base..], stride, below) <==> now[base] <= 4 && KindsKnown(start[next..], stride, left)
  {
    RowFits(below, stride);
    assert now[base] == now[base..][0] && start[base..][1 + stride..] == start[next..];
  }

  /** Between rows: progress so far, the row above at hand, and whether the filter types left decide the answer. */
  ghost predicate Rolling(now: seq<Byte>, start: seq<Byte>, base: nat, bpp: nat, up: seq<Byte>, first: bool, above: nat,
                          below: nat, whole: seq<Byte>, known: bool) {
    && Progress(now, start, base, bpp, up, below, whole)
    && (first || above + |up| <= base) && up == Above(now, first, above, |up|)
    && (|up| > 0 ==> (KindsKnown(start[base..], |up|, below) <==> known))
  }

  /** The whole buffer in place: every row's filter type must be known, unless rows are empty. */
  method Defilter(raw: array<Byte>, stride: nat, height: nat, bpp: nat) returns (ok: bool)
    requires bpp > 0 && raw.Length == height * (1 + stride) < TWO32
    modifies raw
    ensures ok ==> raw[..] == Defiltered(old(raw[..]), bpp, Zeros(stride), height)
    ensures ok <==> stride == 0 || KindsKnown(old(raw[..]), stride, height)
  {
    ghost var start := raw[..];
    ghost var whole, known := Defiltered(start, bpp, Zeros(stride), height), KindsKnown(start, stride, height);
    var y, base: nat, above: nat := 0, 0, 0;
    ghost var up, below := Zeros(stride), height;
    ok := true;
    RollingStart(start, bpp, up, height, whole, known);
    while y < height && ok
      invariant 0 <= y <= height && below == height - y && |up| == stride
      invariant ok ==> Rolling(raw[..], start, base, bpp, up, y == 0, above, below, whole, known)
      invariant !ok ==> stride > 0 && !known
      decreases height - y, ok
    {
      var next := base + 1 + stride;
      ghost var left := below - 1;
      ok, up := DefilterNext(raw, start, base, next, stride, bpp, y == 0, above, up, below, left, whole, known);
      above, base, y, below := base + 1, next, y + 1, left;
    }
    if ok {
      RollingEnd(raw[..], start, base, bpp, up, y == 0, above, below, whole, known);
    }
  }

  lemma RollingStart(start: seq<Byte>, bpp: nat, up: seq<Byte>, height: nat, whole: seq<Byte>, known: bool)
    requires bpp > 0 && |start| == height * (1 + |up|) && up == Zeros(|up|)
    requires whole == Defiltered(start, bpp, up, height) && known == KindsKnown(start, |up|, height)
    ensures Rolling(start, start, 0, bpp, up, true, 0, height, whole, known)
  {
    assert start[0..] == start && start[..0] == [];
  }

  lemma RollingEnd(now: seq<Byte>, start: seq<Byte>, base: nat, bpp: nat, up: seq<Byte>, first: bool, above: nat,
                   below: nat, whole: seq<Byte>, known: bool)
    requires Rolling(now, start, base, bpp, up, first, above, below, whole, known) && below == 0
    ensures now == whole && (|up| > 0 ==> known)
  {
    assert now == now[..base] + now[base..];
  }

  /** The next row, behind its filter type. */
  method DefilterNext(raw: array<Byte>, ghost start: seq<Byte>, base: nat, next: nat, stride: nat, bpp: nat, first: bool, above: nat,
                      ghost up: seq<Byte>, ghost below: nat, ghost left: nat, ghost whole: seq<Byte>, ghost known: bool)
    returns (ok: bool, ghost row: seq<Byte>)
    requires Rolling(raw[..], start, base, bpp, up, first, above, below, whole, known)
    requires |up| == stride && next == base + 1 + stride && below == left + 1
    modifies raw
    ensures |row| == stride
    ensures ok ==> Rolling(raw[..], start, next, bpp, row, false, base + 1, left, whole, known)
    ensures !ok ==> stride > 0 && !known
  {
    ghost var before := raw[..];
    RowFits(below, stride);
    KindsNext(before, start, base, next, stride, below, left);
    var kind := raw[base];
    ok, row := stride == 0 || kind <= 4, up;
    if ok {
      if stride > 0 {
        DefilterRow(raw, base + 1, bpp, first, above, kind, stride, up);
      }
      row := raw[base + 1..next];
      Advance(before, raw[..], start, base, next, bpp, up, row, below, left, whole);
    }
  }

  /** The first `height` rows start with filter types 0 to 4. */
  ghost predicate KindsKnown(raw: seq<Byte>, stride: nat, height: nat)
    requires |raw| == height * (1 + stride)
    decreases height
  {
    height == 0 || (
      RowFits(height, stride);
      raw[0] <= 4 && KindsKnown(raw[1 + stride..], stride, height - 1))
  }

  // ---------- 32-bit positions ----------

  const TWO32: nat := 0x1_0000_0000

  /** The size of the buffer the decoder allocates, and where it takes row y to start. */
  function RawSize(stride: nat, height: nat): nat {
    height * (1 + stride) % TWO32
  }

  function RowStart(stride: nat, y: nat): nat {
    y * (1 + stride) % TWO32
  }

  ghost predicate RowInside(stride: nat, height: nat, y: nat) {
    RowStart(stride, y) + 1 + stride <= RawSize(stride, height)
  }

  lemma RowBefore(stride: nat, height: nat, y: nat)
    requires y < height
    ensures y * (1 + stride) + 1 + stride <= height * (1 + stride)
  {
    MulLe(y + 1, height, 1 + stride);
    assert (y + 1) * (1 + stride) == y * (1 + stride) + (1 + stride);
  }

  lemma SmallMod(v: nat)
    ensures v < TWO32 ==> v % TWO32 == v
  {
  }

  lemma RowFitsInside(stride: nat, height: nat, y: nat)
    requires y < height && height * (1 + stride) < TWO32
    ensures RowInside(stride, height, y)
  {
    RowBefore(stride, height, y);
    var a, b := y * (1 + stride), height * (1 + stride);
    SmallMod(a);
    SmallMod(b);
  }

  lemma RowOf(a: nat, height: nat, s: nat) returns (y: nat)
    requires s > 0 && a < height * s
    ensures y < height && y * s <= a < y * s + s
  {
    y := a / s;
    if height <= y {
      MulLe(height, y, s);
    }
  }

  /** The row that holds the last byte a 32-bit position reaches. */
  lemma WrappedRow(stride: nat, height: nat) returns (y: nat)
    requires height * (1 + stride) >= TWO32
    ensures y < height && !RowInside(stride, height, y)
  {
    y := RowOf(TWO32 - 1, height, 1 + stride);
    SmallMod(y * (1 + stride));
  }

  /** Every row stays inside the buffer if and only if the image's bytes can be counted in 32 bits. */
  lemma RowsInsideIff(stride: nat, height: nat)
    ensures (forall y: nat :: y < height ==> RowInside(stride, height, y)) <==> height * (1 + stride) < TWO32
  {
    if height * (1 + stride) < TWO32 {
      forall y: nat | y < height ensures RowInside(stride, height, y) {
        RowFitsInside(stride, height, y);
      }
    } else {
      var y := WrappedRow(stride, height);
    }
  }

  /** The buffer as the decoder allocates it: `inside` is false when some row leaves it; what happens then is not followed. */
  method DefilterAllocated(raw: array<Byte>, stride: nat, height: nat, bpp: nat) returns (inside: bool, ok: bool)
    requires bpp > 0 && raw.Length == RawSize(stride, height)
    modifies raw
    ensures inside <==> forall y: nat :: y < height ==> RowInside(stride, height, y)
    ensures inside ==> raw.Length == height * (1 + stride) && (ok <==> stride == 0 || KindsKnown(old(raw[..]), stride, height))
    ensures inside && ok ==> raw[..] == Defiltered(old(raw[..]), bpp, Zeros(stride), height)
  {
    RowsInsideIff(stride, height);
    inside, ok := height * (1 + stride) < TWO32, false;
    if inside {
      ok := Defilter(raw, stride, height, bpp);
    }
  }

  // ---------- end to end ----------

  /** An encoded image's filter types are known exactly when each row's is. */
  lemma {:induction false} KindsOfEncoded(kinds: seq<Byte>, rows: seq<seq<Byte>>, bpp: nat, up: seq<Byte>, height: nat)
    requires bpp > 0 && |kinds| == |rows| == height && Rows(rows, |up|)
    ensures |Encoded(kinds, rows, bpp, up)| == height * (1 + |up|)
    ensures KindsKnown(Encoded(kinds, rows, bpp, up), |up|, height) <==> forall y :: 0 <= y < height ==> kinds[y] <= 4
    decreases height
  {
    ImageRoundTrip(kinds, rows, bpp, up, height);
    if height > 0 {
      var f, rest := FilterRow(kinds[0], bpp, up, rows[0]), Encoded(kinds[1..], rows[1..], bpp, rows[0]);
      RowFits(height, |up|);
      KindsOfEncoded(kinds[1..], rows[1..], bpp, rows[0], height - 1);
      assert ([kinds[0]] + f + rest)[1 + |up|..] == rest;
      assert forall y :: 1 <= y < height ==> kinds[y] == kinds[1..][y - 1];
    }
  }

  /** A filtered image comes back row by row; it is refused exactly when a row that is not empty has an unknown filter type. */
  method DefilterEncoded(raw: array<Byte>, stride: nat, height: nat, bpp: nat, ghost kinds: seq<Byte>, ghost rows: seq<seq<Byte>>)
    returns (ok: bool)
    requires bpp > 0 && |kinds| == |rows| == height && Rows(rows, stride)
    requires raw[..] == Encoded(kinds, rows, bpp, Zeros(stride)) && raw.Length < TWO32
    modifies raw
    ensures ok <==> stride == 0 || forall y :: 0 <= y < height ==> kinds[y] <= 4
    ensures ok ==> raw[..] == Laid(kinds, rows)
  {
    ImageRoundTrip(kinds, rows, bpp, Zeros(stride), height);
    KindsOfEncoded(kinds, rows, bpp, Zeros(stride), height);
    ok := Defilter(raw, stride, height, bpp);
  }
}
