/** The kernel heap allocator over its in-memory headers. */
module KernelHeaps {
  import opened HeapModel

  /** No machine this kernel runs on has more page frames. */
  const MAX_PAGES: nat := 262144

  const HEAP_BASE: nat := 0x5000_0000

  /** What an allocation call does: returns a payload offset, returns NULL, or never returns
      because it writes a header past the mapped heap. */
  datatype Outcome = Payload(off: nat) | Null | Stuck

  /** Block i's header is where the blocks before it end. */
  lemma HeaderAt(cells: seq<Header>, bs: Blocks, i: nat, off: nat)
    requires Matches(cells, bs, 0) && i <= |bs| && off == Span(bs[..i])
    ensures off <= Span(bs) && (off < Span(bs) <==> i < |bs|)
    ensures i < |bs| ==> off % 16 == 0 && off / 16 < |cells| && cells[off / 16] == bs[i] && bs[i].size % 16 == 0
    ensures i < |bs| ==> Span(bs[..i + 1]) == off + HEADER + bs[i].size <= Span(bs)
  {
    var a, b := bs[..i], bs[i..];
    assert bs == a + b;
    SpanAppend(a, b);
    MatchesAppend(cells, a, b, 0, off);
    if i < |bs| {
      assert bs[..i + 1] == a + [bs[i]];
      SpanAppend(a, [bs[i]]);
    }
  }

  class KernelHeap {
    const cells: array<Header>
    var heapSize: nat
    var heapCap: nat
    var inited: bool
    /** Pages that can still be mapped before the memory manager runs out. */
    var pages: nat
    ghost var blocks: Blocks

    /** The blocks tile the heap exactly, and memory holds their headers. */
    ghost predicate Tiled()
      reads this, cells
    {
      && heapCap == HEAP_CAP && heapSize % PAGE == 0 && 0 < heapSize <= HEAP_CAP
      && Span(blocks) == heapSize && Matches(cells[..], blocks, 0)
    }

    ghost predicate Valid()
      reads this, cells
    {
      cells.Length == CELLS && pages <= MAX_PAGES && if inited then Tiled() else heapSize == 0 && blocks == []
    }

    constructor (available: nat)
      requires available <= MAX_PAGES
      ensures Valid() && !inited && pages == available && fresh(cells)
    {
      cells := new Header[CELLS];
      heapSize, heapCap, inited, pages, blocks := 0, 0, false, available, [];
    }

    /** Maps whole pages behind the heap; partial growth is lost, and the size then stays. */
    method HeapGrow(minExtra: nat) returns (ok: bool)
      requires minExtra < TWO64 && heapSize <= HEAP_CAP == heapCap && heapSize % PAGE == 0 && pages <= MAX_PAGES
      modifies `heapSize, `pages
      ensures var chunk := Chunk(old(heapSize), minExtra);
        && (ok <==> chunk <= PAGE * old(pages))
        && heapSize == (if ok then old(heapSize) + chunk else old(heapSize))
        && pages == (if ok then old(pages) - chunk / PAGE else 0)
      ensures heapSize <= HEAP_CAP && heapSize % PAGE == 0
    {
      var chunk := minExtra;
      if chunk < 65536 {
        chunk := 65536;
      }
      if chunk % 4096 != 0 {
        chunk := (chunk + (4096 - chunk % 4096)) % TWO64;
      }
      if (heapSize + chunk) % TWO64 > heapCap {
        chunk := heapCap - heapSize;
      }
      ChunkPages(heapSize, minExtra);
      ok := MapPages(chunk);
      if ok {
        heapSize := heapSize + chunk;
      }
    }

    method MapPages(chunk: nat) returns (ok: bool)
      requires chunk % PAGE == 0
      modifies `pages
      ensures ok <==> chunk <= PAGE * old(pages)
      ensures pages == if ok then old(pages) - chunk / PAGE else 0
    {
      var mapped := 0;
      ok := true;
      while mapped < chunk && ok
        invariant 0 <= mapped <= chunk && mapped % PAGE == 0 && mapped / PAGE <= old(pages)
        invariant ok ==> pages == old(pages) - mapped / PAGE
        invariant !ok ==> pages == 0 && chunk > PAGE * old(pages)
        decreases chunk - mapped, ok
      {
        if pages == 0 {
          ok := false;
        } else {
          pages := pages - 1;
          mapped := mapped + 4096;
        }
      }
    }

    /** One free block over the whole heap; later calls forget every allocation. */
    method HeapInit() returns (ok: bool)
      requires Valid()
      modifies this`heapSize, this`heapCap, this`inited, this`pages, this`blocks, cells
      ensures ok ==> Valid() && inited && blocks == [Header(heapSize - HEADER, true)] && Live(blocks, 0) == {}
      ensures ok ==> heapSize == (if old(heapSize) == 0 then 65536 else old(heapSize))
      ensures ok ==> pages == (if old(heapSize) == 0 then old(pages) - 16 else old(pages))
      ensures ok <==> old(heapSize) > 0 || old(pages) >= 16
    {
      if heapSize == 0 {
        heapCap := HEAP_CAP;
        var grown := HeapGrow(65536);
      }
      ok := heapSize > 0;
      if ok {
        cells[0] := Header(heapSize - HEADER, true);
        inited := true;
        blocks := [Header(heapSize - HEADER, true)];
        assert blocks[1..] == [];
      }
    }

    /** The first-fit scan. */
    method Scan(want: nat) returns (found: bool, offset: nat, ghost i: nat)
      requires Valid() && inited
      ensures i == FirstFit(blocks, want) && (found <==> i < |blocks|)
      ensures found ==> offset == Span(blocks[..i])
    {
      offset, found, i := 0, false, 0;
      while offset < heapSize && !found
        invariant i <= |blocks| && offset == Span(blocks[..i])
        invariant forall j :: 0 <= j < i ==> !Serves(blocks[j], want)
        invariant found ==> i < |blocks| && Serves(blocks[i], want)
        decreases heapSize - offset, !found
      {
        HeaderAt(cells[..], blocks, i, offset);
        var block := cells[offset / 16];
        if block.free && block.size >= want {
          found := true;
        } else {
          offset := offset + HEADER + block.size;
          i := i + 1;
        }
      }
      HeaderAt(cells[..], blocks, i, offset);
    }

    /** Claims free block i, cutting off the rest when it is big enough. */
    method Take(offset: nat, want: nat, ghost i: nat)
      requires Valid() && inited && i < |blocks| && offset == Span(blocks[..i]) && Serves(blocks[i], want) && want % 16 == 0
      modifies `blocks, cells
      ensures Valid() && blocks == Place(old(blocks), i, want)
      ensures forall k :: 0 <= k < CELLS && !(offset <= 16 * k < offset + HEADER + old(blocks)[i].size) ==> cells[k] == old(cells[k])
    {
      ghost var cells0, end := cells[..], offset + HEADER + blocks[i].size;
      HeaderAt(cells[..], blocks, i, offset);
      var block := cells[offset / 16];
      if block.size >= want + HEADER + 16 {
        var remainder := offset + HEADER + want;
        cells[remainder / 16] := Header(block.size - want - HEADER, true);
        block := Header(want, false);
      }
      cells[offset / 16] := Header(block.size, false);
      TakenMatches(cells[..], blocks[i], want, offset);
      PlaceMatches(cells0, cells[..], blocks, i, want, offset, end);
      PlaceKeeps(blocks, i, want);
      blocks := Place(blocks, i, want);
    }

    method TryPlace(want: nat) returns (found: bool, offset: nat)
      requires Valid() && inited && want % 16 == 0
      modifies `blocks, cells
      ensures Valid()
      ensures var i := FirstFit(old(blocks), want);
        && (found <==> i < |old(blocks)|)
        && (found ==> offset == Span(old(blocks)[..i]) && blocks == Place(old(blocks), i, want))
      ensures found ==> Region(offset, Taken(old(blocks)[FirstFit(old(blocks), want)], want)[0].size) in Live(blocks, 0)
      ensures !found ==> blocks == old(blocks)
      ensures Untouched(old(cells[..]), cells[..], Live(old(blocks), 0))
    {
      ghost var i;
      found, offset, i := Scan(want);
      if found {
        PlaceKeeps(blocks, i, want);
        Take(offset, want, i);
        OutsideFree(old(cells[..]), cells[..], old(blocks), i, offset);
      }
    }

    /** Grows and turns the new bytes into a free block; `stuck` when growth yields no bytes at all. */
    method GrowBlock(want: nat) returns (ok: bool, stuck: bool)
      requires Valid() && inited && want < TWO64
      modifies `heapSize, `pages, `blocks, cells
      ensures Valid() && inited && Live(blocks, 0) == Live(old(blocks), 0)
      ensures Untouched(old(cells[..]), cells[..], Live(old(blocks), 0))
      ensures var c := Chunk(old(heapSize), MinExtra(want));
        && (ok <==> c <= PAGE * old(pages)) && (stuck <==> c == 0)
        && heapSize == (if ok then old(heapSize) + c else old(heapSize))
        && pages == (if ok then old(pages) - c / PAGE else 0)
        && blocks == if ok && !stuck then old(blocks) + [Header(c - HEADER, true)] else old(blocks)
    {
      var oldSize := heapSize;
      ChunkPages(heapSize, (want + HEADER) % TWO64);
      ok := HeapGrow((want + HEADER) % TWO64);
      stuck := ok && heapSize == oldSize;
      if ok && !stuck {
        Format(oldSize);
      }
    }

    /** Returns the payload's address, or 0. `stuck` stands for a call that never returns. */
    method Kalloc(size: nat) returns (ptr: nat, stuck: bool)
      requires Valid() && size < TWO64
      modifies this`heapSize, this`heapCap, this`inited, this`pages, this`blocks, cells
      ensures !stuck ==> Valid() && inited && Served(ptr, size, Live(old(blocks), 0), Live(blocks, 0))
      ensures !stuck ==> Untouched(old(cells[..]), cells[..], Live(old(blocks), 0))
      ensures !stuck && NoFreePair(old(blocks)) && size < TWO64 - 2 * HEAP_CAP ==> NoFreePair(blocks)
      ensures old(inited) ==> Settled(Answer(ptr, stuck), old(blocks), old(heapSize), old(pages), blocks, Round16(size))
      ensures old(inited) && !stuck ==> pages == PagesLeft(old(blocks), old(heapSize), old(pages), Round16(size))
      ensures old(inited) && !stuck && ptr != 0 ==> FreeBytes(blocks) == FreeLeft(old(blocks), old(heapSize), Round16(size))
      ensures !old(inited) && old(pages) < 16 ==> stuck
      ensures !old(inited) && old(pages) >= 16 ==>
        Settled(Answer(ptr, stuck), [Header(65520, true)], 65536, old(pages) - 16, blocks, Round16(size))
      ensures !old(inited) && !stuck ==> pages == PagesLeft([Header(65520, true)], 65536, old(pages) - 16, Round16(size))
      ensures !old(inited) && !stuck && ptr != 0 ==> FreeBytes(blocks) == FreeLeft([Header(65520, true)], 65536, Round16(size))
    {
      ptr, stuck := 0, false;
      if !inited {
        var ok := HeapInit();
        stuck := !ok;
      }
      if !stuck {
        ptr, stuck := Request(size);
      }
    }

    /** kalloc on a heap already set up. */
    method Request(size: nat) returns (ptr: nat, stuck: bool)
      requires Valid() && inited && size < TWO64
      modifies `heapSize, `pages, `blocks, cells
      ensures Valid() && inited && Untouched(old(cells[..]), cells[..], Live(old(blocks), 0))
      ensures !stuck ==> Served(ptr, size, Live(old(blocks), 0), Live(blocks, 0))
      ensures !stuck && NoFreePair(old(blocks)) && size < TWO64 - 2 * HEAP_CAP ==> NoFreePair(blocks)
      ensures Settled(Answer(ptr, stuck), old(blocks), old(heapSize), old(pages), blocks, Round16(size))
      ensures !stuck ==> pages == PagesLeft(old(blocks), old(heapSize), old(pages), Round16(size))
      ensures !stuck && ptr != 0 ==> FreeBytes(blocks) == FreeLeft(old(blocks), old(heapSize), Round16(size))
    {
      var want := Round16(size);
      RoundsUp(size);
      ghost var bs0, h0, b0 := blocks, heapSize, pages;
      var r := Allocate(want);
      ptr, stuck := 0, r.Stuck?;
      if r.Payload? {
        ptr := HEAP_BASE + r.off;
      }
      RequestMeans(bs0, h0, b0, blocks, old(cells[..]), cells[..], size, r);
    }

    /** n requests in a row that one free block has room for: all are served, each elsewhere, and the heap does not grow. */
    method KallocEach(size: nat, n: nat) returns (ptrs: seq<nat>)
      requires Valid() && inited && size < TWO64 && Roomy(blocks, Round16(size), n)
      modifies this`heapSize, this`heapCap, this`inited, this`pages, this`blocks, cells
      ensures Valid() && inited && heapSize == old(heapSize) && pages == old(pages)
      ensures |ptrs| == n && (forall j :: 0 <= j < n ==> ptrs[j] != 0) && (forall j, k :: 0 <= j < k < n ==> ptrs[j] != ptrs[k])
      ensures Serve(old(blocks), Round16(size), n) == Some(blocks) && Live(old(blocks), 0) <= Live(blocks, 0)
    {
      ptrs := [];
      RoomyServes(blocks, Round16(size), n);
      while |ptrs| < n
        invariant Valid() && inited && heapSize == old(heapSize) && pages == old(pages) && |ptrs| <= n
        invariant Roomy(blocks, Round16(size), n - |ptrs|) && Serve(old(blocks), Round16(size), n) == Serve(blocks, Round16(size), n - |ptrs|)
        invariant Payloads(ptrs, Live(blocks, 0)) && Live(old(blocks), 0) <= Live(blocks, 0)
        invariant forall j, k :: 0 <= j < k < |ptrs| ==> ptrs[j] != ptrs[k]
      {
        ghost var bs := blocks;
        RoomyStep(blocks, Round16(size), n - |ptrs|);
        PlaceKeeps(blocks, FirstFit(blocks, Round16(size)), Round16(size));
        var ptr, stuck := Kalloc(size);
        AnotherPayload(bs, ptrs, ptr, size, blocks);
        ptrs := ptrs + [ptr];
      }
    }

    /** The search loop of kalloc, for a request already rounded. */
    method Allocate(want: nat) returns (r: Outcome)
      requires Valid() && inited && want % 16 == 0 && want < TWO64
      modifies `heapSize, `pages, `blocks, cells
      ensures Valid() && inited && Untouched(old(cells[..]), cells[..], Live(old(blocks), 0))
      ensures Settled(r, old(blocks), old(heapSize), old(pages), blocks, want)
      ensures !r.Stuck? ==> pages == PagesLeft(old(blocks), old(heapSize), old(pages), want)
    {
      ghost var bs0, h0, b0, k := blocks, heapSize, pages, 0;
      ghost var c0 := Chunk(h0, MinExtra(want));
      var done := false;
      r := Stuck;
      while !done
        invariant Valid() && inited && Untouched(old(cells[..]), cells[..], Live(bs0, 0))
        invariant !done ==> Searching(h0, b0, heapSize, pages, want, k) && Grown(bs0, c0, blocks, want, k)
        invariant done ==> Settled(r, bs0, h0, b0, blocks, want) && (!r.Stuck? ==> pages == PagesLeft(bs0, h0, b0, want))
        decreases !done, pages
      {
        r, done, k := Attempt(want, bs0, h0, b0, c0, k);
      }
    }

    /** One turn of the loop: place the request, or grow. */
    method Attempt(want: nat, ghost bs0: Blocks, ghost h0: nat, ghost b0: nat, ghost c0: nat, ghost k: nat)
      returns (r: Outcome, done: bool, ghost k': nat)
      requires Valid() && inited && want % 16 == 0 && want < TWO64 && h0 <= HEAP_CAP && Span(bs0) == h0 && c0 == Chunk(h0, MinExtra(want))
      requires Searching(h0, b0, heapSize, pages, want, k) && Grown(bs0, c0, blocks, want, k)
      modifies `heapSize, `pages, `blocks, cells
      ensures Valid() && inited && Untouched(old(cells[..]), cells[..], Live(bs0, 0))
      ensures !done ==> Searching(h0, b0, heapSize, pages, want, k') && Grown(bs0, c0, blocks, want, k') && pages < old(pages)
      ensures done ==> Settled(r, bs0, h0, b0, blocks, want) && (!r.Stuck? ==> pages == PagesLeft(bs0, h0, b0, want))
    {
      var found, offset := TryPlace(want);
      if found {
        FoundSettles(bs0, h0, b0, c0, old(blocks), heapSize, pages, want, k, offset);
        r, done, k' := Payload(offset + HEADER), true, k;
      } else {
        NotFound(bs0, h0, b0, c0, blocks, want, k);
        r, done, k' := Enlarge(want, bs0, h0, b0, c0, k);
      }
    }

    method Enlarge(want: nat, ghost bs0: Blocks, ghost h0: nat, ghost b0: nat, ghost c0: nat, ghost k: nat)
      returns (r: Outcome, done: bool, ghost k': nat)
      requires Valid() && inited && want % 16 == 0 && want < TWO64 && h0 <= HEAP_CAP && c0 == Chunk(h0, MinExtra(want))
      requires Searching(h0, b0, heapSize, pages, want, k) && Grown(bs0, c0, blocks, want, k)
      requires FirstFit(bs0, want) == |bs0| && !(k > 0 && GrowthServes(h0, b0, want))
      modifies `heapSize, `pages, `blocks, cells
      ensures Valid() && inited && Untouched(old(cells[..]), cells[..], Live(bs0, 0))
      ensures !done ==> Searching(h0, b0, heapSize, pages, want, k') && Grown(bs0, c0, blocks, want, k') && pages < old(pages)
      ensures done ==> Settled(r, bs0, h0, b0, blocks, want) && (!r.Stuck? ==> pages == PagesLeft(bs0, h0, b0, want))
    {
      r, done, k' := Stuck, true, k;
      ghost var h, b := heapSize, pages;
      var ok, stuck := GrowBlock(want);
      if !ok {
        SearchRunsOut(h0, b0, h, b, want, k);
        r := Null;
      } else if stuck {
        SearchStuck(h0, b0, h, b, want, k);
      } else {
        SearchGrows(h0, b0, h, b, want, k, heapSize - h, heapSize, pages);
        GrownMore(bs0, c0, old(blocks), want, k, heapSize - h, blocks);
        done, k' := false, k + 1;
      }
    }

    /** The pointer is one kfree ignores, or block i's payload. */
    ghost predicate FreesBlock(ptr: nat, i: nat)
      reads this
    {
      InHeap(ptr) ==> i < |blocks| && ptr == HEAP_BASE + HEADER + Span(blocks[..i])
    }

    predicate InHeap(ptr: nat)
      reads this
    {
      HEAP_BASE + HEADER <= ptr < HEAP_BASE + heapSize
    }

    /** Frees block i and merges it with its free neighbours; NULL and pointers outside the heap do nothing. */
    method Kfree(ptr: nat, ghost i: nat)
      requires Valid() && inited && FreesBlock(ptr, i)
      modifies `blocks, cells
      ensures Valid() && blocks == if InHeap(ptr) then Freed(old(blocks), i) else old(blocks)
      ensures InHeap(ptr) ==> Live(blocks, 0) == Live(old(blocks), 0) - {Region(ptr - HEAP_BASE - HEADER, old(blocks)[i].size)}
      ensures NoFreePair(old(blocks)) ==> NoFreePair(blocks)
      ensures Untouched(old(cells[..]), cells[..], Live(blocks, 0))
    {
      if ptr == 0 || !InHeap(ptr) {
        return;
      }
      var offset := ptr - HEAP_BASE - HEADER;
      FreedKeeps(blocks, i);
      MarkFree(offset, i);
      MergeForward(offset, i);
      MergeBackward(offset, i);
      if NoFreePair(old(blocks)) {
        FreedNoFreePair(old(blocks), i);
      }
    }

    method MarkFree(offset: nat, ghost i: nat)
      requires Valid() && inited && i < |blocks| && offset == Span(blocks[..i])
      modifies `blocks, cells
      ensures Valid() && blocks == old(blocks)[i := Header(old(blocks)[i].size, true)] && offset == Span(blocks[..i])
      ensures Untouched(old(cells[..]), cells[..], Live(blocks, 0))
    {
      FlipMatches(cells[..], blocks, i, offset);
      FlipKeeps(blocks, i);
      HeaderWrite(cells[..], cells[..][offset / 16 := Header(blocks[i].size, true)], blocks, i, offset);
      cells[offset / 16] := Header(cells[offset / 16].size, true);
      blocks := blocks[i := Header(blocks[i].size, true)];
      assert blocks[..i] == old(blocks)[..i];
    }

    /** Block i takes in the block behind it. */
    method Absorb(offset: nat, next: Header, ghost i: nat)
      requires Valid() && inited && i + 1 < |blocks| && offset == Span(blocks[..i])
      requires blocks[i].free && blocks[i + 1].free && next == blocks[i + 1]
      modifies `blocks, cells
      ensures Valid() && blocks == Join(old(blocks), i) && offset == Span(blocks[..i]) && Live(blocks, 0) == Live(old(blocks), 0)
      ensures Untouched(old(cells[..]), cells[..], Live(blocks, 0))
    {
      JoinMatches(cells[..], blocks, i, offset);
      JoinKeeps(blocks, i);
      var block := cells[offset / 16];
      HeaderWrite(cells[..], cells[..][offset / 16 := Join(blocks, i)[i]], blocks, i, offset);
      cells[offset / 16] := Header(block.size + HEADER + next.size, block.free);
      blocks := Join(blocks, i);
      assert blocks[..i] == old(blocks)[..i];
    }

    method MergeForward(offset: nat, ghost i: nat)
      requires Valid() && inited && i < |blocks| && offset == Span(blocks[..i]) && blocks[i].free
      modifies `blocks, cells
      ensures Valid() && blocks == Coalesced(old(blocks), i) && offset == Span(blocks[..i]) && Live(blocks, 0) == Live(old(blocks), 0)
      ensures Untouched(old(cells[..]), cells[..], Live(blocks, 0))
    {
      HeaderAt(cells[..], blocks, i, offset);
      var next := offset + HEADER + cells[offset / 16].size;
      var more := true;
      while next < heapSize && more
        invariant Valid() && i < |blocks| && blocks[i].free && offset == Span(blocks[..i]) && next == Span(blocks[..i + 1])
        invariant Coalesced(blocks, i) == Coalesced(old(blocks), i) && Live(blocks, 0) == Live(old(blocks), 0)
        invariant Untouched(old(cells[..]), cells[..], Live(blocks, 0))
        invariant !more ==> i + 1 < |blocks| && !blocks[i + 1].free
        decreases |blocks|, more
      {
        HeaderAt(cells[..], blocks, i + 1, next);
        var nextBlock := cells[next / 16];
        more := nextBlock.free;
        if more {
          Absorb(offset, nextBlock, i);
          HeaderAt(cells[..], blocks, i, offset);
          next := offset + HEADER + cells[offset / 16].size;
        }
      }
      HeaderAt(cells[..], blocks, i + 1, next);
    }

    /** Finds the block before by scanning from the start, and merges into it if it is free. */
    method MergeBackward(offset: nat, ghost i: nat)
      requires Valid() && inited && i < |blocks| && offset == Span(blocks[..i]) && blocks[i].free
      modifies `blocks, cells
      ensures Valid() && blocks == if i > 0 && old(blocks)[i - 1].free then Join(old(blocks), i - 1) else old(blocks)
      ensures Live(blocks, 0) == Live(old(blocks), 0) && Untouched(old(cells[..]), cells[..], Live(blocks, 0))
    {
      var found, scan := FindPrevious(offset, i);
      if found {
        HeaderAt(cells[..], blocks, i - 1, scan);
        HeaderAt(cells[..], blocks, i, offset);
        if cells[scan / 16].free {
          Absorb(scan, cells[offset / 16], i - 1);
        }
      }
    }

    /** The block that ends where block i starts. */
    method FindPrevious(offset: nat, ghost i: nat) returns (found: bool, scan: nat)
      requires Valid() && inited && i < |blocks| && offset == Span(blocks[..i])
      ensures found <==> i > 0
      ensures found ==> scan == Span(blocks[..i - 1])
    {
      scan, found := 0, false;
      ghost var j: nat := 0;
      SpanOrder(blocks, 0, i);
      while scan < offset && !found
        invariant j <= i && scan == Span(blocks[..j]) && (found ==> j + 1 == i)
        invariant !found && i > 0 ==> scan < offset
        decreases i - j, !found
      {
        HeaderAt(cells[..], blocks, j, scan);
        SpanOrder(blocks, i, j);
        SpanOrder(blocks, j + 1, i);
        if scan + HEADER + cells[scan / 16].size == offset {
          found := true;
        } else {
          scan := scan + HEADER + cells[scan / 16].size;
          j := j + 1;
        }
      }
    }

    /** The bytes in free blocks, of a heap set up on demand; `stuck` as for kalloc. */
    method HeapFreeBytes() returns (total: nat, stuck: bool)
      requires Valid()
      modifies this`heapSize, this`heapCap, this`inited, this`pages, this`blocks, cells
      ensures stuck <==> !old(inited) && old(pages) < 16
      ensures !stuck ==> Valid() && inited && total == FreeBytes(blocks)
      ensures !stuck ==> blocks == if old(inited) then old(blocks) else [Header(65520, true)]
    {
      total, stuck := 0, false;
      if !inited {
        var ok := HeapInit();
        stuck := !ok;
      }
      if !stuck {
        total := CountFree();
      }
    }

    method CountFree() returns (total: nat)
      requires Valid() && inited
      ensures total == FreeBytes(blocks)
    {
      total := 0;
      var offset := 0;
      ghost var i := 0;
      while offset < heapSize
        invariant i <= |blocks| && offset == Span(blocks[..i]) <= heapSize && total == FreeBytes(blocks[..i])
        decreases heapSize - offset
      {
        HeaderAt(cells[..], blocks, i, offset);
        var block := cells[offset / 16];
        assert blocks[..i + 1] == blocks[..i] + [blocks[i]];
        FreeBytesAppend(blocks[..i], [blocks[i]]);
        if block.free {
          total := total + block.size;
        }
        offset := offset + HEADER + block.size;
        i := i + 1;
      }
      HeaderAt(cells[..], blocks, i, offset);
      assert blocks[..i] == blocks;
    }

    /** Makes one free block of the bytes from oldSize on. */
    method Format(oldSize: nat)
      requires cells.Length == CELLS && heapSize % PAGE == 0 && oldSize % PAGE == 0 && oldSize < heapSize <= HEAP_CAP
      requires Span(blocks) == oldSize && Matches(cells[..], blocks, 0)
      modifies `blocks, cells
      ensures blocks == old(blocks) + [Header(heapSize - oldSize - HEADER, true)]
      ensures Span(blocks) == heapSize && Matches(cells[..], blocks, 0) && Live(blocks, 0) == Live(old(blocks), 0)
      ensures Untouched(old(cells[..]), cells[..], Live(old(blocks), 0))
    {
      var size := heapSize - oldSize - HEADER;
      WholePages(oldSize, heapSize);
      GrowKeeps(cells[..], blocks, size, oldSize);
      cells[oldSize / 16] := Header(size, true);
      BehindAll(old(cells[..]), cells[..], blocks, oldSize);
      blocks := blocks + [Header(size, true)];
    }
  }

  /** Later blocks start later. */
  lemma SpanOrder(bs: Blocks, i: nat, j: nat)
    requires i <= |bs| && j <= |bs|
    ensures i < j ==> Span(bs[..i]) < Span(bs[..j])
  {
    if i < j {
      assert bs[..j] == bs[..i] + bs[i..j];
      SpanAppend(bs[..i], bs[i..j]);
    }
  }

  lemma WholePages(oldSize: nat, heapSize: nat)
    requires heapSize % PAGE == 0 && oldSize % PAGE == 0 && oldSize < heapSize <= HEAP_CAP
    ensures oldSize % 16 == 0 && oldSize / 16 < CELLS && heapSize - oldSize > HEADER && (heapSize - oldSize - HEADER) % 16 == 0
  {
    var p, q := oldSize / PAGE, heapSize / PAGE;
    assert oldSize == 16 * (256 * p) && heapSize - oldSize - HEADER == 16 * (256 * (q - p) - 1);
  }

  lemma OutsideFree(cells: seq<Header>, cells': seq<Header>, bs: Blocks, i: nat, off: nat)
    requires i < |bs| && bs[i].free && off == Span(bs[..i]) && |cells'| == |cells|
    requires forall k :: 0 <= k < |cells| && !(off <= 16 * k < off + HEADER + bs[i].size) ==> cells'[k] == cells[k]
    ensures Untouched(cells, cells', Live(bs, 0))
  {
    forall r: Region, k: nat | r in Live(bs, 0) && InPayload(r, k) && k < |cells| ensures cells'[k] == cells[k] {
      LiveAvoidsFree(bs, i, r);
    }
  }

  /** Writing a header between or behind live payloads touches none of them. */
  lemma HeaderWrite(cells: seq<Header>, cells': seq<Header>, bs: Blocks, i: nat, off: nat)
    requires i <= |bs| && off == Span(bs[..i]) && off % 16 == 0 && off / 16 < |cells|
    requires |cells'| == |cells| && forall k :: 0 <= k < |cells| && k != off / 16 ==> cells'[k] == cells[k]
    ensures Untouched(cells, cells', Live(bs, 0))
  {
    var a, b := bs[..i], bs[i..];
    assert bs == a + b;
    LiveAppend(a, b, 0, off);
    forall r: Region, k: nat | r in Live(bs, 0) && InPayload(r, k) && k < |cells| ensures cells'[k] == cells[k] {
      if r in Live(a, 0) {
        LiveInside(a, 0, r);
      } else {
        LiveInside(b, off, r);
      }
    }
  }

  lemma BehindAll(cells: seq<Header>, cells': seq<Header>, bs: Blocks, off: nat)
    requires off == Span(bs) && off % 16 == 0 && off / 16 < |cells| == |cells'| && cells' == cells[off / 16 := cells'[off / 16]]
    ensures Untouched(cells, cells', Live(bs, 0))
  {
    assert bs[..|bs|] == bs;
    HeaderWrite(cells, cells', bs, |bs|, off);
  }

  // ---------- what a request that no block serves leads to ----------

  const HUGE: nat := 0xFFFF_FFFF_FFFF_FFF0

  ghost function MinExtra(want: nat): (m: nat)
    ensures m < TWO64
  {
    (want + HEADER) % TWO64
  }

  /** Growth from this size provides a block that serves the request. */
  ghost predicate GrowthServes(h: nat, b: nat, want: nat)
    requires h <= HEAP_CAP
  {
    want + HEADER <= Chunk(h, MinExtra(want)) <= PAGE * b
  }

  /** The request runs out of pages and returns NULL. */
  ghost predicate RunsOut(h: nat, b: nat, want: nat)
    requires h <= HEAP_CAP
  {
    var c, r := Chunk(h, MinExtra(want)), Rounded(MinExtra(want));
    if want == HUGE then PAGE * b < HEAP_CAP - h else c > PAGE * b || (0 < c < want + HEADER && r >= TWO64 - HEAP_CAP)
  }

  /** How many blocks a request adds to the heap before it returns NULL. */
  ghost function Abandoned(h: nat, b: nat, want: nat): nat
    requires h <= HEAP_CAP
  {
    if want == HUGE then b / 16 else if Chunk(h, MinExtra(want)) > PAGE * b then 0 else 1
  }

  /** The old blocks with free blocks behind them. */
  ghost predicate Extends(bs0: Blocks, bs: Blocks, k: nat) {
    |bs| == |bs0| + k && bs[..|bs0|] == bs0 && forall i :: |bs0| <= i < |bs| ==> bs[i].free
  }

  /** The blocks after k growths: for an ordinary request, at most one new block, of the growth's size. */
  ghost predicate Grown(bs0: Blocks, c0: nat, bs: Blocks, want: nat, k: nat) {
    && Extends(bs0, bs, k) && Live(bs, 0) == Live(bs0, 0) && (k > 0 ==> FirstFit(bs0, want) == |bs0|)
    && (k > 0 && want != HUGE ==> k == 1 && c0 > HEADER && bs == bs0 + [Header(c0 - HEADER, true)])
  }

  ghost function Answer(ptr: nat, stuck: bool): Outcome {
    if stuck then Stuck else if ptr < HEAP_BASE then Null else Payload(ptr - HEAP_BASE)
  }

  /** The outcome of a request and the blocks it leaves, from the heap it met. */
  ghost predicate Settled(r: Outcome, bs0: Blocks, h0: nat, b0: nat, bs: Blocks, want: nat)
    requires h0 <= HEAP_CAP
  {
    var i := FirstFit(bs0, want);
    if i < |bs0| then r == Payload(Span(bs0[..i]) + HEADER) && bs == Place(bs0, i, want)
    else if GrowthServes(h0, b0, want) then
      var g := Header(Chunk(h0, MinExtra(want)) - HEADER, true);
      r == Payload(h0 + HEADER) && bs == Place(bs0 + [g], |bs0|, want)
    else if RunsOut(h0, b0, want) then r == Null && Extends(bs0, bs, Abandoned(h0, b0, want)) && Live(bs, 0) == Live(bs0, 0)
    else r == Stuck
  }

  /** The pages a request that returns leaves: what growth did not take, and none at all once growth has failed. */
  ghost function PagesLeft(bs0: Blocks, h0: nat, b0: nat, want: nat): int
    requires h0 <= HEAP_CAP
  {
    if FirstFit(bs0, want) < |bs0| then b0
    else if GrowthServes(h0, b0, want) then b0 - Chunk(h0, MinExtra(want)) / PAGE
    else 0
  }

  lemma GrownMore(bs0: Blocks, c0: nat, bs: Blocks, want: nat, k: nat, c: nat, bs': Blocks)
    requires Grown(bs0, c0, bs, want, k) && FirstFit(bs0, want) == |bs0| && c > HEADER
    requires want != HUGE ==> k == 0 && c == c0
    requires bs' == bs + [Header(c - HEADER, true)] && Live(bs', 0) == Live(bs, 0)
    ensures Grown(bs0, c0, bs', want, k + 1)
  {
    assert bs'[..|bs0|] == bs[..|bs0|];
    assert k == 0 ==> bs == bs0;
  }

  lemma NotFound(bs0: Blocks, h0: nat, b0: nat, c0: nat, bs: Blocks, want: nat, k: nat)
    requires h0 <= HEAP_CAP && c0 == Chunk(h0, MinExtra(want)) && Grown(bs0, c0, bs, want, k) && FirstFit(bs, want) == |bs| && want <= HUGE
    ensures FirstFit(bs0, want) == |bs0| && !(k > 0 && GrowthServes(h0, b0, want))
  {
    if k == 0 {
      assert bs == bs0;
    } else if want == HUGE {
      HugeChunk(h0);
    } else {
      assert !Serves(bs[|bs0|], want);
    }
  }

  lemma FoundSettles(bs0: Blocks, h0: nat, b0: nat, c0: nat, bs: Blocks, h: nat, b: nat, want: nat, k: nat, offset: nat)
    requires h0 <= HEAP_CAP && c0 == Chunk(h0, MinExtra(want)) && Grown(bs0, c0, bs, want, k) && FirstFit(bs, want) < |bs| && want <= HUGE
    requires Searching(h0, b0, h, b, want, k) && Span(bs) == h && Span(bs0) == h0 && offset == Span(bs[..FirstFit(bs, want)])
    ensures Settled(Payload(offset + HEADER), bs0, h0, b0, Place(bs, FirstFit(bs, want), want), want)
    ensures b == PagesLeft(bs0, h0, b0, want)
  {
    var i := FirstFit(bs, want);
    if k == 0 {
      assert bs == bs0;
    } else {
      SizeBelowSpan(bs, i);
    }
  }

  lemma SizeBelowSpan(bs: Blocks, i: nat)
    requires i < |bs|
    ensures bs[i].size < Span(bs)
  {
    Parts(bs, i);
    Middle(bs[..i], [bs[i]], bs[i + 1..], Span(bs[..i]), Span(bs[..i]) + HEADER + bs[i].size);
  }

  /** A served request: one new live block at the payload returned, at least as large as asked. */
  lemma PayloadMeans(bs0: Blocks, h0: nat, b0: nat, bs: Blocks, cells: seq<Header>, want: nat, r: Outcome) returns (g: Region)
    requires h0 <= HEAP_CAP && Span(bs0) == h0 && r.Payload? && Settled(r, bs0, h0, b0, bs, want) && Matches(cells, bs, 0)
    ensures r.off == g.off + 16 && g.off % 16 == 0 && g.size < Span(bs)
    ensures g.size >= want && (want % 16 == 0 ==> g.size <= want + 16)
    ensures g !in Live(bs0, 0) && Live(bs, 0) == Live(bs0, 0) + {g}
  {
    var i := FirstFit(bs0, want);
    var c := Chunk(h0, MinExtra(want));
    var before := if i < |bs0| then bs0 else bs0 + [Header(c - HEADER, true)];
    if i == |bs0| {
      assert before[..i] == bs0;
      LiveAppend(bs0, [before[i]], 0, h0);
      assert Live([before[i]], h0) == {};
    }
    g := PlacedMeans(before, i, want, cells);
  }

  lemma PlacedMeans(bs: Blocks, i: nat, want: nat, cells: seq<Header>) returns (g: Region)
    requires i < |bs| && Serves(bs[i], want) && Matches(cells, Place(bs, i, want), 0)
    ensures g.off == Span(bs[..i]) && g.off % 16 == 0 && g.size < Span(Place(bs, i, want))
    ensures g.size >= want && (want % 16 == 0 ==> g.size <= want + 16)
    ensures g !in Live(bs, 0) && Live(Place(bs, i, want), 0) == Live(bs, 0) + {g}
  {
    g := Region(Span(bs[..i]), Taken(bs[i], want)[0].size);
    PlaceKeeps(bs, i, want);
    PlaceIsNew(bs, i, want);
    LiveAligned(cells, Place(bs, i, want), 0, g);
    LiveInside(Place(bs, i, want), 0, g);
  }

  /** The block a request is placed in: the first free one that serves it, or the one that growth makes. */
  ghost function Chosen(bs0: Blocks, h0: nat, want: nat): Header
    requires h0 <= HEAP_CAP
  {
    var i, c := FirstFit(bs0, want), Chunk(h0, MinExtra(want));
    if i < |bs0| then bs0[i] else Header(if c >= 16 then c - 16 else 0, true)
  }

  /** The free bytes a served request leaves: those there were and those of a growth, less the block's and less the
      header of what is left of the block, when that is at least 16 bytes behind a header. */
  ghost function FreeLeft(bs0: Blocks, h0: nat, want: nat): int
    requires h0 <= HEAP_CAP
  {
    var b := Chosen(bs0, h0, want);
    var before := FreeBytes(bs0) + if FirstFit(bs0, want) < |bs0| then 0 else b.size;
    if b.size >= want + 32 then before - want - 16 else before - b.size
  }

  lemma {:induction false} SizesAligned(cells: seq<Header>, bs: Blocks, base: nat, j: nat)
    requires Matches(cells, bs, base) && j < |bs|
    ensures bs[j].size % 16 == 0
    decreases |bs|
  {
    if j > 0 {
      SizesAligned(cells, bs[1..], base + HEADER + bs[0].size, j - 1);
    }
  }

  lemma PayloadBytes(bs0: Blocks, h0: nat, b0: nat, bs: Blocks, cells: seq<Header>, want: nat, r: Outcome)
    requires h0 <= HEAP_CAP && h0 % PAGE == 0 && want % 16 == 0 && r.Payload? && Settled(r, bs0, h0, b0, bs, want) && Matches(cells, bs0, 0)
    ensures FreeBytes(bs) == FreeLeft(bs0, h0, want)
  {
    var i, c := FirstFit(bs0, want), Chunk(h0, MinExtra(want));
    if i < |bs0| {
      SizesAligned(cells, bs0, 0, i);
      PlaceBytes(bs0, i, want);
    } else {
      ChunkPages(h0, MinExtra(want));
      GrownBytes(bs0, c, want);
    }
  }

  lemma GrownBytes(bs0: Blocks, c: nat, want: nat)
    requires c % PAGE == 0 && c >= want + 16 && want % 16 == 0
    ensures var bs := Place(bs0 + [Header(c - 16, true)], |bs0|, want);
      FreeBytes(bs) == FreeBytes(bs0) + if c - 16 >= want + 32 then c - 16 - want - 16 else 0
  {
    var g := Header(c - 16, true);
    assert c == 16 * (256 * (c / PAGE));
    FreeBytesAppend(bs0, [g]);
    assert [g][1..] == [];
    PlaceBytes(bs0 + [g], |bs0|, want);
  }

  /** What a caller of kalloc gets: a new aligned block, as large as asked unless rounding wraps and less than
      32 bytes larger, beside every block that was live; or nothing. */
  ghost predicate Served(ptr: nat, size: nat, live: set<Region>, live': set<Region>) {
    if ptr == 0 then live' == live
    else exists g: Region :: NewBlock(g, ptr, size, live, live')
  }

  ghost predicate NewBlock(g: Region, ptr: nat, size: nat, live: set<Region>, live': set<Region>) {
    && ptr == 0x5000_0000 + g.off + 16 && ptr % 16 == 0 && g !in live && live' == live + {g}
    && (g.size >= size <==> size <= TWO64 - 16) && g.size < size + 32
  }

  ghost predicate PayloadOf(ptr: nat, live: set<Region>, g: Region) {
    g in live && ptr == HEAP_BASE + g.off + HEADER
  }

  ghost predicate IsPayload(ptr: nat, live: set<Region>) {
    exists g: Region :: PayloadOf(ptr, live, g)
  }

  /** Each pointer is that of a live block. */
  ghost predicate Payloads(ptrs: seq<nat>, live: set<Region>) {
    forall j :: 0 <= j < |ptrs| ==> IsPayload(ptrs[j], live)
  }

  /** A new block's pointer is none of those handed out for blocks still live. */
  lemma AnotherPayload(bs0: Blocks, ptrs: seq<nat>, ptr: nat, size: nat, bs: Blocks)
    requires Payloads(ptrs, Live(bs0, 0)) && ptr != 0 && Served(ptr, size, Live(bs0, 0), Live(bs, 0))
    ensures Payloads(ptrs + [ptr], Live(bs, 0)) && forall j :: 0 <= j < |ptrs| ==> ptrs[j] != ptr
  {
    var g: Region :| NewBlock(g, ptr, size, Live(bs0, 0), Live(bs, 0));
    assert PayloadOf(ptr, Live(bs, 0), g);
    forall j | 0 <= j < |ptrs| ensures ptrs[j] != ptr && IsPayload(ptrs[j], Live(bs, 0)) {
      var h: Region :| PayloadOf(ptrs[j], Live(bs0, 0), h);
      LiveDisjoint(bs, 0, g, h);
      assert PayloadOf(ptrs[j], Live(bs, 0), h);
    }
  }

  /** The first request on a fresh heap is served at its start, and the rest of the 64 KB stays free. */
  lemma FirstRequest(r: Outcome, b0: nat, bs: Blocks, want: nat)
    requires Settled(r, [Header(65520, true)], 65536, b0, bs, want) && want % 16 == 0 && want <= 65520
    ensures r == Payload(16)
    ensures bs == if want <= 65488 then [Header(want, false), Header(65504 - want, true)] else [Header(65520, false)]
  {
    assert Serves([Header(65520, true)][0], want);
  }

  lemma PayloadServes(bs0: Blocks, h0: nat, b0: nat, bs: Blocks, cells: seq<Header>, size: nat, r: Outcome)
    requires h0 <= HEAP_CAP && Span(bs0) == h0 && r.Payload? && size < TWO64 && Span(bs) <= HEAP_CAP
    requires Settled(r, bs0, h0, b0, bs, Round16(size)) && Matches(cells, bs, 0)
    ensures Served(HEAP_BASE + r.off, size, Live(bs0, 0), Live(bs, 0))
  {
    RoundsUp(size);
    var g := PayloadMeans(bs0, h0, b0, bs, cells, Round16(size), r);
    assert NewBlock(g, HEAP_BASE + r.off, size, Live(bs0, 0), Live(bs, 0));
  }

  /** A request short of wrapping leaves no free neighbours, whether it is served or refused. */
  lemma OrdinaryKeepsPairs(bs0: Blocks, h0: nat, b0: nat, bs: Blocks, want: nat, r: Outcome)
    requires h0 <= HEAP_CAP && Settled(r, bs0, h0, b0, bs, want) && !r.Stuck? && want % 16 == 0
    ensures NoFreePair(bs0) && want <= TWO64 - 2 * HEAP_CAP ==> NoFreePair(bs)
  {
    var i := FirstFit(bs0, want);
    if NoFreePair(bs0) && want <= TWO64 - 2 * HEAP_CAP {
      if i < |bs0| {
        PlaceNoFreePair(bs0, i, want);
      } else if GrowthServes(h0, b0, want) {
        PlaceNoFreePair(bs0 + [Header(Chunk(h0, MinExtra(want)) - HEADER, true)], i, want);
      } else {
        assert Rounded(MinExtra(want)) < TWO64 - HEAP_CAP;
        assert bs == bs0;
      }
    }
  }

  lemma RequestMeans(bs0: Blocks, h0: nat, b0: nat, bs: Blocks, cells0: seq<Header>, cells: seq<Header>, size: nat, r: Outcome)
    requires h0 <= HEAP_CAP && h0 % PAGE == 0 && Span(bs0) == h0 && size < TWO64 && Span(bs) <= HEAP_CAP
    requires Settled(r, bs0, h0, b0, bs, Round16(size)) && Matches(cells0, bs0, 0) && Matches(cells, bs, 0)
    ensures r.Payload? ==> Served(HEAP_BASE + r.off, size, Live(bs0, 0), Live(bs, 0)) && FreeBytes(bs) == FreeLeft(bs0, h0, Round16(size))
    ensures r.Null? ==> Live(bs, 0) == Live(bs0, 0)
    ensures !r.Stuck? && NoFreePair(bs0) && size < TWO64 - 2 * HEAP_CAP ==> NoFreePair(bs)
  {
    RoundsUp(size);
    if r.Payload? {
      PayloadServes(bs0, h0, b0, bs, cells, size, r);
      PayloadBytes(bs0, h0, b0, bs, cells0, Round16(size), r);
    }
    if !r.Stuck? {
      OrdinaryKeepsPairs(bs0, h0, b0, bs, Round16(size), r);
    }
  }

  /** Exactly which refused requests leave neighbouring free blocks behind. */
  lemma RefusedPairs(bs0: Blocks, h0: nat, b0: nat, bs: Blocks, want: nat)
    requires h0 <= HEAP_CAP && Settled(Null, bs0, h0, b0, bs, want) && NoFreePair(bs0)
    ensures var k := Abandoned(h0, b0, want);
      NoFreePair(bs) <==> k == 0 || (k == 1 && (bs0 == [] || !bs0[|bs0| - 1].free))
  {
    var k, n := Abandoned(h0, b0, want), |bs0|;
    forall j | 0 <= j < n ensures bs[j] == bs0[j] {
      assert bs[j] == bs[..n][j];
    }
    if k >= 2 {
      assert bs[n].free && bs[n + 1].free;
      assert !NoFreePair(bs) by { assert bs[(n + 1) - 1].free; }
    } else if k == 1 && n > 0 && bs0[n - 1].free {
      assert bs[n - 1].free && bs[n].free;
    }
  }

  /** The largest multiple of 16 really does so: on a fresh 64 KB heap with sixteen pages left. */
  lemma HugeRequestLeavesPair(bs: Blocks)
    requires Settled(Null, [Header(65520, true)], 65536, 16, bs, HUGE)
    ensures RunsOut(65536, 16, HUGE) && !NoFreePair(bs)
  {
    var bs0 := [Header(65520, true)];
    RefusedPairs(bs0, 65536, 16, bs, HUGE);
  }

  /** Where the search stands after k growths, none of which has served the request. */
  ghost predicate Searching(h0: nat, b0: nat, h: nat, b: nat, want: nat, k: nat)
    requires h0 <= HEAP_CAP
  {
    && h0 <= h <= HEAP_CAP && h0 % PAGE == 0 && h % PAGE == 0 && b + (h - h0) / PAGE == b0 <= MAX_PAGES && (k == 0 ==> h == h0)
    && (want == HUGE && h < HEAP_CAP ==> h == h0 + 65536 * k)
    && (want != HUGE && k > 0 ==> k == 1 && h == h0 + Chunk(h0, MinExtra(want)) && 0 < Chunk(h0, MinExtra(want)) <= PAGE * b0)
  }

  lemma HugeChunk(h: nat)
    requires h <= HEAP_CAP
    ensures Chunk(h, MinExtra(HUGE)) == if h + 65536 > HEAP_CAP then HEAP_CAP - h else 65536
  {
  }

  /** A growth that is too small for an ordinary request has reached the cap. */
  lemma TooSmallReachesCap(h: nat, want: nat)
    requires want < HUGE && want % 16 == 0 && h <= HEAP_CAP && 0 < Chunk(h, MinExtra(want)) < want + HEADER
    ensures h + Chunk(h, MinExtra(want)) == HEAP_CAP && Rounded(MinExtra(want)) >= want + HEADER
  {
    RoundedPages(MinExtra(want));
  }

  /** At the cap a further growth is either empty or impossibly large. */
  lemma ChunkAtCap(want: nat)
    requires want < HUGE && Rounded(MinExtra(want)) > 0
    ensures var c, r := Chunk(HEAP_CAP, MinExtra(want)), Rounded(MinExtra(want));
      if r >= TWO64 - HEAP_CAP then c > PAGE * MAX_PAGES else c == 0
  {
    RoundedPages(MinExtra(want));
  }

  lemma SearchGrows(h0: nat, b0: nat, h: nat, b: nat, want: nat, k: nat, c: nat, h': nat, b': nat)
    requires h0 <= HEAP_CAP && want % 16 == 0 && want <= HUGE && Searching(h0, b0, h, b, want, k) && !(k > 0 && GrowthServes(h0, b0, want))
    requires c == Chunk(h, MinExtra(want)) && 0 < c <= PAGE * b && h' == h + c && b' == b - c / PAGE
    ensures Searching(h0, b0, h', b', want, k + 1) && b' < b
    ensures want != HUGE ==> k == 0 && h == h0
  {
    ChunkPages(h, MinExtra(want));
    if want == HUGE {
      HugeChunk(h);
    } else if k > 0 {
      TooSmallReachesCap(h0, want);
      ChunkAtCap(want);
    }
  }

  lemma SearchRunsOut(h0: nat, b0: nat, h: nat, b: nat, want: nat, k: nat)
    requires h0 <= HEAP_CAP && want % 16 == 0 && want <= HUGE && Searching(h0, b0, h, b, want, k) && !(k > 0 && GrowthServes(h0, b0, want))
    requires Chunk(h, MinExtra(want)) > PAGE * b
    ensures RunsOut(h0, b0, want) && k == Abandoned(h0, b0, want) && !GrowthServes(h0, b0, want)
  {
    if want == HUGE {
      HugeChunk(h);
      HugeChunk(h0);
    } else if k > 0 {
      TooSmallReachesCap(h0, want);
      ChunkAtCap(want);
    }
  }

  lemma SearchStuck(h0: nat, b0: nat, h: nat, b: nat, want: nat, k: nat)
    requires h0 <= HEAP_CAP && want % 16 == 0 && want <= HUGE && Searching(h0, b0, h, b, want, k) && !(k > 0 && GrowthServes(h0, b0, want))
    requires Chunk(h, MinExtra(want)) == 0
    ensures !RunsOut(h0, b0, want) && !GrowthServes(h0, b0, want)
  {
    if want == HUGE {
      HugeChunk(h);
      HugeChunk(h0);
    } else if k > 0 {
      TooSmallReachesCap(h0, want);
      ChunkAtCap(want);
    }
  }

  lemma TakenMatches(cells: seq<Header>, b: Header, want: nat, base: nat)
    requires Serves(b, want) && want % 16 == 0 && base % 16 == 0 && b.size % 16 == 0 && base / 16 < |cells|
    requires var t := Taken(b, want); cells[base / 16] == t[0] && (|t| == 2 ==>
      (base + HEADER + want) / 16 < |cells| && cells[(base + HEADER + want) / 16] == t[1])
    ensures Matches(cells, Taken(b, want), base)
  {
    var t := Taken(b, want);
    if |t| == 2 {
      assert t[1..] == [t[1]] && t[1..][1..] == [];
      assert Matches(cells, t[1..], base + HEADER + want);
    } else {
      assert t[1..] == [];
    }
  }
}
