/** The physical frame allocator: one bit per 4 KB frame, set while the frame is in use. */
module Frames {
  import opened PageModel

  const BITMAP_BYTES: nat := 32768
  const PAGE_SIZE: nat := 4096
  const ONE_GB: nat := 1073741824

  /** A bitmap byte, kept as its eight bits, least significant first. */
  type Bits = b: seq<bool> | |b| == 8 witness [true, true, true, true, true, true, true, true]

  const ALL_ONES: Bits := [true, true, true, true, true, true, true, true]

  /** `(bitmap[f / 8] & (1 << (f % 8))) != 0` */
  predicate BitOf(bitmap: seq<Bits>, f: nat)
    requires |bitmap| == BITMAP_BYTES && f < TOTAL_FRAMES
  {
    bitmap[f / 8][f % 8]
  }

  class FrameAllocator {
    const bitmap: array<Bits>
    var freeCount: nat
    /** The frames whose bit is clear. */
    ghost var free: set<nat>

    /** The bitmap says what is free, the counter counts it, and frame 0, whose address
        would read as NULL, is never handed out. */
    ghost predicate Valid()
      reads this, bitmap
    {
      && bitmap.Length == BITMAP_BYTES
      && (forall f {:trigger BitOf(bitmap[..], f)} :: 0 <= f < TOTAL_FRAMES ==> (f in free <==> !BitOf(bitmap[..], f)))
      && (forall f :: f in free ==> 0 < f < TOTAL_FRAMES)
      && freeCount == |free|
    }

    /** Everything starts used. */
    constructor ()
      ensures Valid() && free == {} && fresh(bitmap)
    {
      bitmap := new Bits[BITMAP_BYTES](i => ALL_ONES);
      freeCount := 0;
      free := {};
    }

    method FrameTest(f: nat) returns (used: bool)
      requires Valid() && f < TOTAL_FRAMES
      ensures used <==> f !in free
    {
      used := bitmap[f / 8][f % 8];
      assert used == BitOf(bitmap[..], f);
    }

    method FrameSet(f: nat)
      requires Valid() && f in free
      modifies bitmap, `free, `freeCount
      ensures Valid() && free == old(free) - {f}
    {
      ghost var before := bitmap[..];
      bitmap[f / 8] := bitmap[f / 8][f % 8 := true];
      freeCount := freeCount - 1;
      free := free - {f};
      forall g | 0 <= g < TOTAL_FRAMES ensures g in free <==> !BitOf(bitmap[..], g) {
        assert g == f || BitOf(bitmap[..], g) == BitOf(before, g);
      }
    }

    method FrameClear(f: nat)
      requires Valid() && 0 < f < TOTAL_FRAMES && f !in free
      modifies bitmap, `free, `freeCount
      ensures Valid() && free == old(free) + {f}
    {
      ghost var before := bitmap[..];
      bitmap[f / 8] := bitmap[f / 8][f % 8 := false];
      freeCount := freeCount + 1;
      free := free + {f};
      forall g | 0 <= g < TOTAL_FRAMES ensures g in free <==> !BitOf(bitmap[..], g) {
        assert g == f || BitOf(bitmap[..], g) == BitOf(before, g);
      }
    }

    /** Frees the whole frames between the bounds, clamped to [kernelEnd, 1 GB). */
    method MarkRangeFree(start: nat, end: nat, kernelEnd: nat)
      requires Valid() && kernelEnd >= PAGE_SIZE
      modifies bitmap, `free, `freeCount
      ensures Valid()
      ensures var lo := (if start < kernelEnd then kernelEnd else start) / 4096;
        var hi := (if end > 0x4000_0000 then 0x4000_0000 else end) / 4096;
        forall f :: f in free <==> f in old(free) || lo <= f < hi
    {
      var lo := if start < kernelEnd then kernelEnd else start;
      var hi := if end > ONE_GB then ONE_GB else end;
      ClearFrames(lo / PAGE_SIZE, hi / PAGE_SIZE);
    }

    method ClearFrames(first: nat, frameEnd: nat)
      requires Valid() && 0 < first && frameEnd <= TOTAL_FRAMES
      modifies bitmap, `free, `freeCount
      ensures Valid() && forall f :: f in free <==> f in old(free) || first <= f < frameEnd
    {
      var frame := first;
      while frame < frameEnd
        invariant first <= frame && (frame <= frameEnd || frame == first)
        invariant Valid()
        invariant forall f :: f in free <==> f in old(free) || first <= f < frame
      {
        var used := FrameTest(frame);
        if used {
          FrameClear(frame);
        }
        frame := frame + 1;
      }
    }

    /** The lowest free frame, or 0 for the NULL the source returns when none is left. */
    method AllocFrame() returns (f: nat)
      requires Valid()
      modifies bitmap, `free, `freeCount
      ensures Valid()
      ensures f == 0 <==> old(free) == {}
      ensures f == 0 ==> free == old(free)
      ensures f != 0 ==> f in old(free) && (forall g :: g in old(free) ==> f <= g) && free == old(free) - {f}
    {
      var i := 0;
      while i < TOTAL_FRAMES
        invariant 0 <= i <= TOTAL_FRAMES
        invariant Valid() && free == old(free)
        invariant forall g :: g in free ==> i <= g
      {
        var used := FrameTest(i);
        if !used {
          FrameSet(i);
          return i;
        }
        i := i + 1;
      }
      f := 0;
    }

    /** Frees the frame the pointer's low 32 frame-number bits name; idempotent. */
    method FreeFrame(p: Ptr)
      requires Valid() && 0 < p.frame < TOTAL_FRAMES
      modifies bitmap, `free, `freeCount
      ensures Valid() && free == old(free) + {p.frame}
    {
      var frame := Address(p) / PAGE_SIZE % 0x1_0000_0000;
      FrameNumberDropsNx(p);
      var used := FrameTest(frame);
      if used {
        FrameClear(frame);
      }
    }
  }
}
