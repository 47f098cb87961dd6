/** The kernel heap as a list of adjacent blocks: offsets, live regions, and the headers in memory. */
module HeapModel {

  const HEADER: nat := 16
  const HEAP_CAP: nat := 16777216
  const CELLS: nat := 1048576
  const PAGE: nat := 4096
  const TWO64: nat := 0x1_0000_0000_0000_0000

  /** A block header; it occupies one 16-byte cell. */
  datatype Header = Header(size: nat, free: bool)

  /** A live block: where its header is and how many payload bytes follow. */
  datatype Region = Region(off: nat, size: nat)

  type Blocks = seq<Header>

  datatype Option<T> = None | Some(value: T)

  /** Bytes the blocks cover, headers included. */
  ghost function Span(bs: Blocks): (n: nat)
  {
    if bs == [] then 0 else HEADER + bs[0].size + Span(bs[1..])
  }

  /** The live regions of blocks laid out from `base`. */
  ghost function Live(bs: Blocks, base: nat): set<Region> {
    if bs == [] then {}
    else (if bs[0].free then {} else {Region(base, bs[0].size)}) + Live(bs[1..], base + HEADER + bs[0].size)
  }

  ghost function FreeBytes(bs: Blocks): nat {
    if bs == [] then 0 else (if bs[0].free then bs[0].size else 0) + FreeBytes(bs[1..])
  }

  /** The headers in memory, from `base` on, are these blocks, and every one is 16-byte aligned. */
  ghost predicate Matches(cells: seq<Header>, bs: Blocks, base: nat) {
    bs == [] || (
      && base % 16 == 0 && bs[0].size % 16 == 0 && base / 16 < |cells| && cells[base / 16] == bs[0]
      && Matches(cells, bs[1..], base + HEADER + bs[0].size))
  }

  ghost predicate NoFreePair(bs: Blocks) {
    forall i :: 0 < i < |bs| ==> !(bs[i - 1].free && bs[i].free)
  }

  predicate InPayload(r: Region, k: nat) {
    r.off + HEADER <= 16 * k < r.off + HEADER + r.size
  }

  /** Memory inside these regions is as it was. */
  ghost predicate Untouched(cells: seq<Header>, cells': seq<Header>, live: set<Region>) {
    |cells'| == |cells| && forall r: Region, k: nat {:trigger InPayload(r, k)} ::
      r in live && InPayload(r, k) && k < |cells| ==> cells'[k] == cells[k]
  }

  // ---------- lists of blocks ----------

  lemma {:induction false} SpanAppend(a: Blocks, b: Blocks)
    ensures Span(a + b) == Span(a) + Span(b)
  {
    if a == [] {
      assert a + b == b;
    } else {
      assert (a + b)[1..] == a[1..] + b;
      SpanAppend(a[1..], b);
    }
  }

  lemma {:induction false} LiveAppend(a: Blocks, b: Blocks, base: nat, mid: nat)
    requires mid == base + Span(a)
    ensures Live(a + b, base) == Live(a, base) + Live(b, mid)
    decreases |a|
  {
    if a == [] {
      assert a + b == b;
    } else {
      assert (a + b)[1..] == a[1..] + b;
      LiveAppend(a[1..], b, base + HEADER + a[0].size, mid);
    }
  }

  lemma {:induction false} FreeBytesAppend(a: Blocks, b: Blocks)
    ensures FreeBytes(a + b) == FreeBytes(a) + FreeBytes(b)
  {
    if a == [] {
      assert a + b == b;
    } else {
      assert (a + b)[1..] == a[1..] + b;
      FreeBytesAppend(a[1..], b);
    }
  }

  lemma {:induction false} MatchesAppend(cells: seq<Header>, a: Blocks, b: Blocks, base: nat, mid: nat)
    requires mid == base + Span(a)
    ensures Matches(cells, a + b, base) <==> Matches(cells, a, base) && Matches(cells, b, mid)
    decreases |a|
  {
    if a == [] {
      assert a + b == b;
    } else {
      assert (a + b)[1..] == a[1..] + b;
      MatchesAppend(cells, a[1..], b, base + HEADER + a[0].size, mid);
    }
  }

  /** Headers depend only on the cells they span. */
  lemma {:induction false} MatchesFrame(cells: seq<Header>, cells': seq<Header>, bs: Blocks, base: nat)
    requires Matches(cells, bs, base) && |cells'| == |cells|
    requires forall k :: base <= 16 * k < base + Span(bs) && k < |cells| ==> cells'[k] == cells[k]
    ensures Matches(cells', bs, base)
    decreases |bs|
  {
    if bs != [] {
      var next := base + HEADER + bs[0].size;
      assert 16 * (base / 16) == base;
      MatchesFrame(cells, cells', bs[1..], next);
    }
  }

  /** Live regions lie inside what the blocks cover, headers excluded. */
  lemma {:induction false} LiveInside(bs: Blocks, base: nat, r: Region)
    requires r in Live(bs, base)
    ensures base <= r.off && r.off + HEADER + r.size <= base + Span(bs)
    decreases |bs|
  {
    if r != Region(base, bs[0].size) || bs[0].free {
      LiveInside(bs[1..], base + HEADER + bs[0].size, r);
    }
  }

  /** Distinct live blocks do not overlap. */
  lemma {:induction false} LiveDisjoint(bs: Blocks, base: nat, r: Region, s: Region)
    requires r in Live(bs, base) && s in Live(bs, base) && r != s
    ensures r.off + HEADER + r.size <= s.off || s.off + HEADER + s.size <= r.off
    decreases |bs|
  {
    var next := base + HEADER + bs[0].size;
    var first := Region(base, bs[0].size);
    if r in Live(bs[1..], next) && s in Live(bs[1..], next) {
      LiveDisjoint(bs[1..], next, r, s);
    } else if r in Live(bs[1..], next) {
      LiveInside(bs[1..], next, r);
    } else if s in Live(bs[1..], next) {
      LiveInside(bs[1..], next, s);
    }
  }

  /** A live block's payload is 16-byte aligned. */
  lemma {:induction false} LiveAligned(cells: seq<Header>, bs: Blocks, base: nat, r: Region)
    requires Matches(cells, bs, base) && r in Live(bs, base)
    ensures r.off % 16 == 0 && r.size % 16 == 0
    decreases |bs|
  {
    if r != Region(base, bs[0].size) || bs[0].free {
      LiveAligned(cells, bs[1..], base + HEADER + bs[0].size, r);
    }
  }

  /** A list seen as a middle stretch between two others. */
  lemma Middle(a: Blocks, x: Blocks, c: Blocks, mid: nat, end: nat)
    requires mid == Span(a) && end == mid + Span(x)
    ensures Span(a + (x + c)) == end + Span(c)
    ensures Live(a + (x + c), 0) == Live(a, 0) + Live(x, mid) + Live(c, end)
  {
    SpanAppend(a, x + c);
    SpanAppend(x, c);
    LiveAppend(a, x + c, 0, mid);
    LiveAppend(x, c, mid, end);
  }

  // ---------- allocation ----------

  /** Rounds a request up to 16 bytes in 64-bit arithmetic. */
  function Round16(size: nat): nat
    requires size < TWO64
  {
    if size % 16 != 0 then (size + (16 - size % 16)) % TWO64 else size
  }

  /** Rounding is exact unless it wraps to nothing. */
  lemma RoundsUp(size: nat)
    requires size < TWO64
    ensures Round16(size) % 16 == 0 && Round16(size) < TWO64
    ensures size <= Round16(size) <==> size <= TWO64 - 16
    ensures size > TWO64 - 16 ==> Round16(size) == 0
    ensures Round16(size) < size + 16 && (size < TWO64 - 2 * HEAP_CAP ==> Round16(size) <= TWO64 - 2 * HEAP_CAP)
  {
  }

  predicate Serves(b: Header, want: nat) {
    b.free && b.size >= want
  }

  /** The first block that serves a request, or the number of blocks. */
  ghost function FirstFit(bs: Blocks, want: nat): (i: nat)
    ensures i <= |bs|
    ensures forall j :: 0 <= j < i ==> !Serves(bs[j], want)
    ensures i < |bs| ==> Serves(bs[i], want)
  {
    if bs == [] then 0 else if Serves(bs[0], want) then 0 else 1 + FirstFit(bs[1..], want)
  }

  /** A free block taken for a request: cut in two when another block fits behind it. */
  ghost function Taken(b: Header, want: nat): Blocks
    requires Serves(b, want)
  {
    if b.size >= want + HEADER + 16 then [Header(want, false), Header(b.size - want - HEADER, true)]
    else [Header(b.size, false)]
  }

  ghost function Place(bs: Blocks, i: nat, want: nat): Blocks
    requires i < |bs| && Serves(bs[i], want)
  {
    bs[..i] + (Taken(bs[i], want) + bs[i + 1..])
  }

  lemma Parts(bs: Blocks, i: nat)
    requires i < |bs|
    ensures bs == bs[..i] + ([bs[i]] + bs[i + 1..])
  {
  }

  lemma TakenSpan(b: Header, want: nat)
    requires Serves(b, want)
    ensures Span(Taken(b, want)) == Span([b]) == HEADER + b.size
  {
    var t := Taken(b, want);
    if |t| == 2 {
      assert t[1..] == [t[1]] && t[1..][1..] == [];
    }
  }

  /** Placing a request keeps the total, adds one live block of at least that size, at the
      chosen offset, and leaves every other live block where it was. */
  lemma PlaceKeeps(bs: Blocks, i: nat, want: nat)
    requires i < |bs| && Serves(bs[i], want)
    ensures Span(Place(bs, i, want)) == Span(bs)
    ensures Live(Place(bs, i, want), 0) == Live(bs, 0) + {Region(Span(bs[..i]), Taken(bs[i], want)[0].size)}
    ensures Taken(bs[i], want)[0].size >= want
  {
    var a, c, t := bs[..i], bs[i + 1..], Taken(bs[i], want);
    var mid := Span(a);
    TakenSpan(bs[i], want);
    Parts(bs, i);
    var end := mid + Span(t);
    Middle(a, [bs[i]], c, mid, end);
    Middle(a, t, c, mid, end);
    assert Live([bs[i]], mid) == {};
    TakenLive(bs[i], want, mid);
  }

  lemma TakenLive(b: Header, want: nat, base: nat)
    requires Serves(b, want)
    ensures Live(Taken(b, want), base) == {Region(base, Taken(b, want)[0].size)}
  {
    var t := Taken(b, want);
    if |t| == 2 {
      assert t[1..] == [t[1]] && t[1..][1..] == [];
      assert Live(t[1..], base + HEADER + t[0].size) == {};
    } else {
      assert t[1..] == [];
    }
  }

  /** The block found was new to the live set: its header was that of a free block. */
  lemma PlaceIsNew(bs: Blocks, i: nat, want: nat)
    requires i < |bs| && Serves(bs[i], want)
    ensures Region(Span(bs[..i]), Taken(bs[i], want)[0].size) !in Live(bs, 0)
  {
    var a, c := bs[..i], bs[i + 1..];
    var mid := Span(a);
    var r := Region(mid, Taken(bs[i], want)[0].size);
    Parts(bs, i);
    LiveAppend(a, [bs[i]] + c, 0, mid);
    LiveAppend([bs[i]], c, mid, mid + HEADER + bs[i].size);
    if r in Live(a, 0) {
      LiveInside(a, 0, r);
    } else if r in Live(c, mid + HEADER + bs[i].size) {
      LiveInside(c, mid + HEADER + bs[i].size, r);
    }
  }

  // ---------- bytes ----------

  /** Payload bytes in live blocks. */
  ghost function LiveBytes(bs: Blocks): nat {
    if bs == [] then 0 else (if bs[0].free then 0 else bs[0].size) + LiveBytes(bs[1..])
  }

  /** Every byte of the heap is free, in a live block, or in a header. */
  lemma {:induction false} BytesConserved(bs: Blocks)
    ensures FreeBytes(bs) + LiveBytes(bs) + 16 * |bs| == Span(bs)
  {
    if bs != [] {
      BytesConserved(bs[1..]);
    }
  }

  lemma FreeBytesMiddle(a: Blocks, x: Blocks, c: Blocks)
    ensures FreeBytes(a + (x + c)) == FreeBytes(a) + FreeBytes(x) + FreeBytes(c)
  {
    FreeBytesAppend(a, x + c);
    FreeBytesAppend(x, c);
  }

  /** A request takes its own size out of the free bytes, and a header's when the rest of the block stays free;
      if it does not, that is because it could not hold a header and 16 bytes. */
  lemma PlaceBytes(bs: Blocks, i: nat, want: nat)
    requires i < |bs| && Serves(bs[i], want) && want % 16 == 0 && bs[i].size % 16 == 0
    ensures var bs' := Place(bs, i, want);
      if bs[i].size >= want + 32 then
        |bs'| == |bs| + 1 && bs'[i].size == want && FreeBytes(bs') == FreeBytes(bs) - want - 16
      else |bs'| == |bs| && want <= bs'[i].size <= want + 16 && FreeBytes(bs') == FreeBytes(bs) - bs'[i].size
  {
    var a, c, t := bs[..i], bs[i + 1..], Taken(bs[i], want);
    Parts(bs, i);
    FreeBytesMiddle(a, [bs[i]], c);
    FreeBytesMiddle(a, t, c);
    assert [bs[i]][1..] == [];
    if |t| == 2 {
      assert t[1..] == [t[1]] && t[1..][1..] == [];
    } else {
      assert t[1..] == [];
    }
    assert Place(bs, i, want)[i] == t[0];
  }

  lemma PlaceNoFreePair(bs: Blocks, i: nat, want: nat)
    requires i < |bs| && Serves(bs[i], want)
    requires forall j :: 0 < j < |bs| && j != i ==> !(bs[j - 1].free && bs[j].free)
    ensures NoFreePair(Place(bs, i, want))
  {
    var p, t := Place(bs, i, want), Taken(bs[i], want);
    forall j | 0 < j < |p| ensures !(p[j - 1].free && p[j].free) {
      if j < i {
        assert p[j - 1] == bs[j - 1] && p[j] == bs[j];
      } else if j >= i + |t| {
        assert p[j] == bs[j - |t| + 1];
        assert j > i + |t| ==> p[j - 1] == bs[j - |t|];
        assert bs[i].free;
      }
    }
  }

  /** Rewriting the headers of some blocks, inside the bytes they cover, leaves the others' in place. */
  lemma ReplaceMatches(cells: seq<Header>, cells': seq<Header>, a: Blocks, x: Blocks, y: Blocks, c: Blocks, mid: nat, end: nat)
    requires Matches(cells, a + (x + c), 0) && |cells'| == |cells|
    requires mid == Span(a) && end == mid + Span(x) && Span(y) == Span(x) && Matches(cells', y, mid)
    requires forall k :: 0 <= k < |cells| && !(mid <= 16 * k < end) ==> cells'[k] == cells[k]
    ensures Matches(cells', a + (y + c), 0)
  {
    MatchesAppend(cells, a, x + c, 0, mid);
    MatchesAppend(cells, x, c, mid, end);
    MatchesFrame(cells, cells', a, 0);
    MatchesFrame(cells, cells', c, end);
    MatchesAppend(cells', y, c, mid, end);
    MatchesAppend(cells', a, y + c, 0, mid);
  }

  /** Live blocks keep clear of the bytes of a block that is not live. */
  lemma LiveAvoidsFree(bs: Blocks, i: nat, r: Region)
    requires i < |bs| && bs[i].free && r in Live(bs, 0)
    ensures r.off + HEADER + r.size <= Span(bs[..i]) || Span(bs[..i]) + HEADER + bs[i].size <= r.off
  {
    var a, c := bs[..i], bs[i + 1..];
    var mid := Span(a);
    var end := mid + HEADER + bs[i].size;
    Parts(bs, i);
    Middle(a, [bs[i]], c, mid, end);
    if r in Live(a, 0) {
      LiveInside(a, 0, r);
    } else {
      LiveInside(c, end, r);
    }
  }

  /** Splitting or claiming a free block rewrites only headers inside it. */
  lemma PlaceMatches(cells: seq<Header>, cells': seq<Header>, bs: Blocks, i: nat, want: nat, mid: nat, end: nat)
    requires i < |bs| && Serves(bs[i], want) && want % 16 == 0 && Matches(cells, bs, 0) && |cells'| == |cells|
    requires mid == Span(bs[..i]) && end == mid + HEADER + bs[i].size
    requires Matches(cells', Taken(bs[i], want), mid)
    requires forall k :: 0 <= k < |cells| && !(mid <= 16 * k < end) ==> cells'[k] == cells[k]
    ensures Matches(cells', Place(bs, i, want), 0)
  {
    Parts(bs, i);
    TakenSpan(bs[i], want);
    ReplaceMatches(cells, cells', bs[..i], [bs[i]], Taken(bs[i], want), bs[i + 1..], mid, end);
  }

  // ---------- many requests ----------

  /** n requests one after the other, as long as some free block serves them. */
  ghost function Serve(bs: Blocks, want: nat, n: nat): Option<Blocks>
    decreases n
  {
    var i := FirstFit(bs, want);
    if n == 0 then Some(bs) else if i == |bs| then None else Serve(Place(bs, i, want), want, n - 1)
  }

  ghost predicate RoomAt(bs: Blocks, want: nat, n: nat, i: nat) {
    i < |bs| && bs[i].free && bs[i].size >= n * (want + 16)
  }

  /** Some one block has the bytes and the headers for n requests. */
  ghost predicate Roomy(bs: Blocks, want: nat, n: nat) {
    n == 0 || exists i: nat :: RoomAt(bs, want, n, i)
  }

  lemma RoomyStep(bs: Blocks, want: nat, n: nat)
    requires n > 0 && Roomy(bs, want, n)
    ensures FirstFit(bs, want) < |bs| && Roomy(Place(bs, FirstFit(bs, want), want), want, n - 1)
  {
    var i: nat :| RoomAt(bs, want, n, i);
    assert n * (want + 16) == (n - 1) * (want + 16) + want + 16;
    assert Serves(bs[i], want);
    var j := FirstFit(bs, want);
    var p, t := Place(bs, j, want), Taken(bs[j], want);
    if n > 1 {
      RoomMoves(want, n);
      if i > j {
        assert p[i + |t| - 1] == bs[i];
        assert RoomAt(p, want, n - 1, i + |t| - 1);
      } else {
        assert p[i + 1] == t[1];
        assert RoomAt(p, want, n - 1, i + 1);
      }
    }
  }

  lemma RoomMoves(want: nat, n: nat)
    requires n > 1
    ensures (n - 1) * (want + 16) >= want + 16
  {
  }

  /** Then every one of them is served without growing the heap. */
  lemma {:induction false} RoomyServes(bs: Blocks, want: nat, n: nat)
    requires Roomy(bs, want, n)
    ensures Serve(bs, want, n).Some?
    decreases n
  {
    if n > 0 {
      RoomyStep(bs, want, n);
      RoomyServes(Place(bs, FirstFit(bs, want), want), want, n - 1);
    }
  }

  /** Block i is the only free one. */
  ghost predicate Sole(bs: Blocks, i: nat) {
    i < |bs| && bs[i].free && forall j :: 0 <= j < |bs| && j != i ==> !bs[j].free
  }

  /** A heap with one free block serves exactly as many requests as fit into it with a header between each two. */
  lemma {:induction false} SoleServes(bs: Blocks, i: nat, want: nat, n: nat)
    requires Sole(bs, i) && bs[i].size % 16 == 0 && want % 16 == 0 && want > 0
    ensures Serve(bs, want, n).Some? <==> n * (want + 16) <= bs[i].size + 16
    decreases n
  {
    if n > 0 {
      assert n * (want + 16) == (n - 1) * (want + 16) + want + 16;
      assert n > 1 ==> (n - 1) * (want + 16) >= want + 16;
      var j := FirstFit(bs, want);
      if j < |bs| {
        assert j == i;
        var p, t := Place(bs, i, want), Taken(bs[i], want);
        assert |t| == 2 ==> p[i + 1] == t[1];
        if |t| == 2 {
          SoleMoves(bs, i, want);
          SoleServes(p, i + 1, want, n - 1);
        } else if n > 1 {
          NoneServes(p, want);
        }
      } else {
        assert !Serves(bs[i], want);
      }
    }
  }

  lemma SoleMoves(bs: Blocks, i: nat, want: nat)
    requires Sole(bs, i) && Serves(bs[i], want) && |Taken(bs[i], want)| == 2
    ensures Sole(Place(bs, i, want), i + 1)
  {
    var p, t := Place(bs, i, want), Taken(bs[i], want);
    forall j | 0 <= j < |p| && j != i + 1 ensures !p[j].free {
      if j < i {
        assert p[j] == bs[j];
      } else if j > i + 1 {
        assert p[j] == bs[j - 1];
      } else {
        assert p[j] == t[0];
      }
    }
    assert p[i + 1] == t[1];
  }

  lemma NoneServes(bs: Blocks, want: nat)
    requires forall j :: 0 <= j < |bs| ==> !bs[j].free
    ensures FirstFit(bs, want) == |bs|
  {
  }

  // ---------- freeing ----------

  /** Block i absorbs the block after it. */
  ghost function Join(bs: Blocks, i: nat): Blocks
    requires i + 1 < |bs|
  {
    bs[..i] + ([Header(bs[i].size + HEADER + bs[i + 1].size, bs[i].free)] + bs[i + 2..])
  }

  /** Block i absorbs every free block directly behind it. */
  ghost function Coalesced(bs: Blocks, i: nat): (r: Blocks)
    requires i < |bs|
    ensures i < |r| <= |bs| && r[..i] == bs[..i] && r[i].free == bs[i].free
    ensures i + 1 < |r| ==> !r[i + 1].free
    decreases |bs|
  {
    if i + 1 < |bs| && bs[i + 1].free then Coalesced(Join(bs, i), i) else bs
  }

  /** Freeing block i: marked free, merged with the free blocks behind it, then into a free one before it. */
  ghost function Freed(bs: Blocks, i: nat): Blocks
    requires i < |bs|
  {
    var r := Coalesced(bs[i := Header(bs[i].size, true)], i);
    if i > 0 && r[i - 1].free then Join(r, i - 1) else r
  }

  lemma Parts2(bs: Blocks, i: nat)
    requires i + 1 < |bs|
    ensures bs == bs[..i] + ([bs[i], bs[i + 1]] + bs[i + 2..])
  {
  }

  lemma PairSpan(b: Header, c: Header, base: nat)
    ensures Span([b, c]) == HEADER + b.size + HEADER + c.size
    ensures b.free && c.free ==> Live([b, c], base) == {}
  {
    assert [b, c] == [b] + [c];
    SpanAppend([b], [c]);
    LiveAppend([b], [c], base, base + HEADER + b.size);
  }

  lemma JoinKeeps(bs: Blocks, i: nat)
    requires i + 1 < |bs| && bs[i].free && bs[i + 1].free
    ensures Span(Join(bs, i)) == Span(bs) && Live(Join(bs, i), 0) == Live(bs, 0)
  {
    var a, c := bs[..i], bs[i + 2..];
    var x, y := [bs[i], bs[i + 1]], [Header(bs[i].size + HEADER + bs[i + 1].size, bs[i].free)];
    var mid := Span(a);
    Parts2(bs, i);
    PairSpan(bs[i], bs[i + 1], mid);
    assert Span(y) == Span(x);
    var end := mid + Span(x);
    Middle(a, x, c, mid, end);
    Middle(a, y, c, mid, end);
    assert Live(y, mid) == {};
  }

  lemma {:induction false} CoalescedKeeps(bs: Blocks, i: nat)
    requires i < |bs| && bs[i].free
    ensures Span(Coalesced(bs, i)) == Span(bs) && Live(Coalesced(bs, i), 0) == Live(bs, 0)
    decreases |bs|
  {
    if i + 1 < |bs| && bs[i + 1].free {
      JoinKeeps(bs, i);
      CoalescedKeeps(Join(bs, i), i);
    }
  }

  /** Marking block i free takes exactly its region out of the live set. */
  lemma FlipKeeps(bs: Blocks, i: nat)
    requires i < |bs|
    ensures var r := bs[i := Header(bs[i].size, true)];
      Span(r) == Span(bs) && Live(r, 0) == Live(bs, 0) - {Region(Span(bs[..i]), bs[i].size)}
  {
    var a, c := bs[..i], bs[i + 1..];
    var x, y := [bs[i]], [Header(bs[i].size, true)];
    var mid := Span(a);
    var r := bs[i := y[0]];
    Parts(bs, i);
    assert r == a + (y + c);
    assert Span(x) == Span(y) == HEADER + bs[i].size;
    var end := mid + Span(x);
    Middle(a, x, c, mid, end);
    Middle(a, y, c, mid, end);
    assert Live(y, mid) == {};
    NotIn(a, 0, c, end, Region(mid, bs[i].size));
  }

  /** A region between two stretches belongs to neither. */
  lemma NotIn(a: Blocks, base: nat, c: Blocks, end: nat, r: Region)
    requires r.off == base + Span(a) && end > r.off
    ensures r !in Live(a, base) && r !in Live(c, end)
  {
    if r in Live(a, base) {
      LiveInside(a, base, r);
    }
    if r in Live(c, end) {
      LiveInside(c, end, r);
    }
  }

  lemma JoinMatches(cells: seq<Header>, bs: Blocks, i: nat, mid: nat)
    requires i + 1 < |bs| && Matches(cells, bs, 0) && mid == Span(bs[..i])
    ensures mid / 16 < |cells| && mid % 16 == 0 && cells[mid / 16] == bs[i]
    ensures Matches(cells[mid / 16 := Join(bs, i)[i]], Join(bs, i), 0)
  {
    var x, y := [bs[i], bs[i + 1]], [Join(bs, i)[i]];
    var end := mid + HEADER + bs[i].size + HEADER + bs[i + 1].size;
    Parts2(bs, i);
    PairSpan(bs[i], bs[i + 1], mid);
    MatchesAppend(cells, bs[..i], x + bs[i + 2..], 0, mid);
    assert (x + bs[i + 2..])[1..] == [bs[i + 1]] + bs[i + 2..];
    var cells' := cells[mid / 16 := y[0]];
    assert 16 * (mid / 16) == mid;
    assert y[1..] == [] && Matches(cells', y, mid);
    ReplaceMatches(cells, cells', bs[..i], x, y, bs[i + 2..], mid, end);
  }

  lemma FlipMatches(cells: seq<Header>, bs: Blocks, i: nat, mid: nat)
    requires i < |bs| && Matches(cells, bs, 0) && mid == Span(bs[..i])
    ensures mid / 16 < |cells| && mid % 16 == 0 && cells[mid / 16] == bs[i]
    ensures var h := Header(bs[i].size, true); Matches(cells[mid / 16 := h], bs[i := h], 0)
  {
    var x, y := [bs[i]], [Header(bs[i].size, true)];
    var end := mid + HEADER + bs[i].size;
    Parts(bs, i);
    MatchesAppend(cells, bs[..i], x + bs[i + 1..], 0, mid);
    var cells' := cells[mid / 16 := y[0]];
    assert 16 * (mid / 16) == mid;
    assert y[1..] == [] && Matches(cells', y, mid);
    ReplaceMatches(cells, cells', bs[..i], x, y, bs[i + 1..], mid, end);
    assert bs[i := y[0]] == bs[..i] + (y + bs[i + 1..]);
  }

  /** Freeing keeps the total and removes exactly one live region. */
  lemma FreedKeeps(bs: Blocks, i: nat)
    requires i < |bs|
    ensures Span(Freed(bs, i)) == Span(bs)
    ensures Live(Freed(bs, i), 0) == Live(bs, 0) - {Region(Span(bs[..i]), bs[i].size)}
  {
    var f := bs[i := Header(bs[i].size, true)];
    FlipKeeps(bs, i);
    CoalescedKeeps(f, i);
    var r := Coalesced(f, i);
    if i > 0 && r[i - 1].free {
      JoinKeeps(r, i - 1);
    }
  }

  /** Freeing what was just placed restores the blocks: where no two neighbours were free, kfree undoes kalloc. */
  lemma FreeUndoesPlace(bs: Blocks, i: nat, want: nat)
    requires i < |bs| && Serves(bs[i], want) && NoFreePair(bs)
    ensures i < |Place(bs, i, want)| && Freed(Place(bs, i, want), i) == bs
  {
    var p, t := Place(bs, i, want), Taken(bs[i], want);
    assert p[i] == t[0];
    var f := p[i := Header(t[0].size, true)];
    assert !(i + 1 < |bs| && bs[i + 1].free) && Coalesced(bs, i) == bs;
    if |t| == 2 {
      PlaceMarked(bs, i, want);
    } else {
      assert f == bs;
    }
    assert Coalesced(f, i) == bs;
  }

  /** The two parts of a block that was cut join to the block it was. */
  lemma PlaceMarked(bs: Blocks, i: nat, want: nat)
    requires i < |bs| && Serves(bs[i], want) && |Taken(bs[i], want)| == 2
    ensures var f := Place(bs, i, want)[i := Header(want, true)]; f[i + 1].free && Join(f, i) == bs
  {
    var p, t := Place(bs, i, want), Taken(bs[i], want);
    var f := p[i := Header(want, true)];
    assert f[..i] == bs[..i] && f[i + 1] == t[1] && f[i + 2..] == bs[i + 1..];
    assert f[i].size + HEADER + f[i + 1].size == bs[i].size;
    Parts(bs, i);
  }

  /** A freed block's bytes are free, and so is every header that merging did away with. */
  lemma FreedBytes(bs: Blocks, i: nat)
    requires i < |bs| && !bs[i].free
    ensures FreeBytes(Freed(bs, i)) == FreeBytes(bs) + bs[i].size + 16 * (|bs| - |Freed(bs, i)|)
  {
    var f := bs[i := Header(bs[i].size, true)];
    var r := Coalesced(f, i);
    FlipBytes(bs, i);
    CoalescedBytes(f, i);
    if i > 0 && r[i - 1].free {
      JoinBytes(r, i - 1);
    }
  }

  lemma FlipBytes(bs: Blocks, i: nat)
    requires i < |bs| && !bs[i].free
    ensures FreeBytes(bs[i := Header(bs[i].size, true)]) == FreeBytes(bs) + bs[i].size
  {
    var a, c, h := bs[..i], bs[i + 1..], Header(bs[i].size, true);
    Parts(bs, i);
    assert bs[i := h] == a + ([h] + c);
    FreeBytesMiddle(a, [bs[i]], c);
    FreeBytesMiddle(a, [h], c);
    assert [bs[i]][1..] == [] && [h][1..] == [];
  }

  lemma JoinBytes(bs: Blocks, i: nat)
    requires i + 1 < |bs| && bs[i].free && bs[i + 1].free
    ensures FreeBytes(Join(bs, i)) == FreeBytes(bs) + 16
  {
    var a, c, x, y := bs[..i], bs[i + 2..], [bs[i], bs[i + 1]], [Join(bs, i)[i]];
    Parts2(bs, i);
    FreeBytesMiddle(a, x, c);
    FreeBytesMiddle(a, y, c);
    assert x[1..] == [bs[i + 1]] && x[1..][1..] == [] && y[1..] == [];
  }

  lemma {:induction false} CoalescedBytes(bs: Blocks, i: nat)
    requires i < |bs| && bs[i].free
    ensures FreeBytes(Coalesced(bs, i)) == FreeBytes(bs) + 16 * (|bs| - |Coalesced(bs, i)|)
    decreases |bs|
  {
    if i + 1 < |bs| && bs[i + 1].free {
      JoinBytes(bs, i);
      CoalescedBytes(Join(bs, i), i);
    }
  }

  /** Coalescing leaves no free pair except perhaps before block i. */
  lemma {:induction false} CoalescedPairs(bs: Blocks, i: nat)
    requires i < |bs|
    requires forall j :: 0 < j < |bs| && j != i && j != i + 1 ==> !(bs[j - 1].free && bs[j].free)
    ensures forall j :: 0 < j < |Coalesced(bs, i)| && j != i ==> !(Coalesced(bs, i)[j - 1].free && Coalesced(bs, i)[j].free)
    decreases |bs|
  {
    if i + 1 < |bs| && bs[i + 1].free {
      var b := Join(bs, i);
      forall j | 0 < j < |b| && j != i && j != i + 1 ensures !(b[j - 1].free && b[j].free) {
        if j < i {
          assert b[j - 1] == bs[j - 1] && b[j] == bs[j];
        } else {
          assert b[j - 1] == bs[j] && b[j] == bs[j + 1];
        }
      }
      CoalescedPairs(b, i);
    }
  }

  /** If no two neighbours were free, none are after a free. */
  lemma FreedNoFreePair(bs: Blocks, i: nat)
    requires i < |bs| && NoFreePair(bs)
    ensures NoFreePair(Freed(bs, i))
  {
    var f := bs[i := Header(bs[i].size, true)];
    CoalescedPairs(f, i);
    var r := Coalesced(f, i);
    if i > 0 && r[i - 1].free {
      var b := Join(r, i - 1);
      assert r[i - 1] == r[..i][i - 1] == f[..i][i - 1] == bs[i - 1];
      forall j | 0 < j < |b| ensures !(b[j - 1].free && b[j].free) {
        if j < i - 1 {
          assert b[j - 1] == r[j - 1] && b[j] == r[j];
        } else if j == i - 1 {
          assert b[j - 1] == r[j - 1] == r[..i][j - 1] == bs[j - 1] && bs[j].free;
        } else {
          assert b[j] == r[j + 1] && (j > i ==> b[j - 1] == r[j]);
        }
      }
    } else {
      assert i > 0 ==> r[i - 1] == r[..i][i - 1];
    }
  }

  // ---------- growth ----------

  /** The growth asked for: at least 64 KB, in whole pages, in 64-bit arithmetic. */
  function Rounded(minExtra: nat): nat
    requires minExtra < TWO64
  {
    var chunk := if minExtra < 65536 then 65536 else minExtra;
    if chunk % PAGE != 0 then (chunk + (PAGE - chunk % PAGE)) % TWO64 else chunk
  }

  /** The growth attempted: what is left below the cap, if the wrapped sum passes it. */
  function Chunk(heapSize: nat, minExtra: nat): nat
    requires minExtra < TWO64 && heapSize <= HEAP_CAP
  {
    if (heapSize + Rounded(minExtra)) % TWO64 > HEAP_CAP then HEAP_CAP - heapSize else Rounded(minExtra)
  }

  lemma RoundedPages(minExtra: nat)
    requires minExtra < TWO64
    ensures Rounded(minExtra) % PAGE == 0 && Rounded(minExtra) < TWO64
    ensures Rounded(minExtra) == 0 || (minExtra <= Rounded(minExtra) && 65536 <= Rounded(minExtra))
    ensures minExtra <= 65536 ==> Rounded(minExtra) == 65536
    ensures minExtra > 65536 ==> Rounded(minExtra) < minExtra + 4096
    ensures minExtra <= TWO64 - 4096 ==> Rounded(minExtra) != 0
  {
    var chunk := if minExtra < 65536 then 65536 else minExtra;
    if chunk % PAGE != 0 {
      var up := chunk + (PAGE - chunk % PAGE);
      assert up == PAGE * (chunk / PAGE + 1);
      assert up <= TWO64 == PAGE * 0x10_0000_0000_0000;
    }
  }

  lemma ChunkPages(heapSize: nat, minExtra: nat)
    requires minExtra < TWO64 && heapSize <= HEAP_CAP && heapSize % PAGE == 0
    ensures Chunk(heapSize, minExtra) % PAGE == 0
    ensures heapSize + Chunk(heapSize, minExtra) <= HEAP_CAP || Chunk(heapSize, minExtra) > TWO64 - HEAP_CAP - 1
  {
    RoundedPages(minExtra);
  }

  /** Unless the sum wraps, the heap grows by the rounded request or up to 16 MB. */
  lemma ChunkIs(heapSize: nat, minExtra: nat)
    requires minExtra <= TWO64 - 2 * HEAP_CAP && heapSize <= HEAP_CAP
    ensures var c, r := Chunk(heapSize, minExtra), Rounded(minExtra);
      r >= 65536 && r >= minExtra && c == if heapSize + r <= 16777216 then r else 16777216 - heapSize
  {
    RoundedPages(minExtra);
  }

  /** A new free block behind the last one. */
  lemma GrowKeeps(cells: seq<Header>, bs: Blocks, size: nat, mid: nat)
    requires Matches(cells, bs, 0) && mid == Span(bs) && mid % 16 == 0 && size % 16 == 0 && mid / 16 < |cells|
    ensures var h := Header(size, true);
      && Matches(cells[mid / 16 := h], bs + [h], 0)
      && Span(bs + [h]) == mid + HEADER + size && Live(bs + [h], 0) == Live(bs, 0)
  {
    var h := Header(size, true);
    var cells' := cells[mid / 16 := h];
    assert 16 * (mid / 16) == mid;
    MatchesFrame(cells, cells', bs, 0);
    assert [h][1..] == [];
    MatchesAppend(cells', bs, [h], 0, mid);
    SpanAppend(bs, [h]);
    LiveAppend(bs, [h], 0, mid);
  }
}
