/** The copy-on-write table: a fixed array of slots searched linearly, proved to be a
    map from frame pointers to reference counts. */
module Cow {
  import opened PageModel

  const COW_SLOTS: nat := 64

  datatype CowEntry = CowEntry(used: bool, frame: Ptr, refcount: int)

  /** The table state after `cow_track(frame)` has succeeded. */
  ghost function TrackedOnce(refs: map<Ptr, int>, p: Ptr): map<Ptr, int> {
    if p in refs then refs[p := refs[p] + 1] else refs[p := 2]
  }

  /** The table state after `cow_should_free(frame)`. */
  ghost function Dropped(refs: map<Ptr, int>, p: Ptr): map<Ptr, int> {
    if p !in refs then refs else if refs[p] <= 1 then refs - {p} else refs[p := refs[p] - 1]
  }

  class CowTable {
    const slots: array<CowEntry>
    /** The tracked frames and their counts. */
    ghost var refs: map<Ptr, int>

    ghost predicate Valid()
      reads this, slots
    {
      slots.Length == COW_SLOTS && SlotsMatch(slots[..], refs)
    }

    constructor ()
      ensures Valid() && refs == map[] && fresh(slots)
    {
      slots := new CowEntry[COW_SLOTS](i => CowEntry(false, Ptr(false, 0), 0));
      refs := map[];
    }

    method FindSlot(p: Ptr) returns (slot: int)
      requires Valid()
      ensures slot >= 0 <==> p in refs
      ensures slot >= 0 ==> slot < COW_SLOTS && slots[slot].used && slots[slot].frame == p
      ensures slot < 0 ==> slot == -1
    {
      var i := 0;
      while i < COW_SLOTS
        invariant 0 <= i <= COW_SLOTS
        invariant forall j :: 0 <= j < i ==> !(slots[j].used && slots[j].frame == p)
      {
        if slots[i].used && slots[i].frame == p {
          assert EntryAt(slots[..], refs, i);
          return i;
        }
        i := i + 1;
      }
      assert HeldAt(slots[..], refs, p);
      return -1;
    }

    /** Starts a count at two or raises it by one; fails exactly when a new slot is needed
        and none is left. */
    method Track(p: Ptr) returns (ok: bool)
      requires Valid()
      modifies slots, `refs
      ensures Valid()
      ensures ok <==> p in old(refs) || |old(refs)| < 64
      ensures !ok ==> |old(refs)| == 64
      ensures refs == if ok then TrackedOnce(old(refs), p) else old(refs)
    {
      var slot := FindSlot(p);
      ghost var before := slots[..];
      if slot >= 0 {
        assert EntryAt(before, refs, slot);
        SlotUpdate(before, refs, slot, p, refs[p] + 1);
        slots[slot] := slots[slot].(refcount := slots[slot].refcount + 1);
        assert slots[..] == before[slot := CowEntry(true, p, refs[p] + 1)];
        refs := refs[p := refs[p] + 1];
        return true;
      }
      var i := 0;
      while i < COW_SLOTS
        invariant 0 <= i <= COW_SLOTS
        invariant slots[..] == before && refs == old(refs)
        invariant forall j :: 0 <= j < i ==> slots[j].used
      {
        if !slots[i].used {
          FreeSlotMeansRoom(before, refs, i);
          SlotUpdate(before, refs, i, p, 2);
          slots[i] := CowEntry(true, p, 2);
          assert slots[..] == before[i := CowEntry(true, p, 2)];
          refs := refs[p := 2];
          return true;
        }
        i := i + 1;
      }
      FullTable(slots[..], refs);
      return false;
    }

    method IsShared(p: Ptr) returns (shared: bool)
      requires Valid()
      ensures shared <==> p in refs
    {
      var slot := FindSlot(p);
      return slot >= 0;
    }

    /** Drops one reference; true when the caller must free the frame. */
    method ShouldFree(p: Ptr) returns (doFree: bool)
      requires Valid()
      modifies slots, `refs
      ensures Valid()
      ensures doFree <==> p !in old(refs) || old(refs)[p] <= 1
      ensures refs == Dropped(old(refs), p)
    {
      var slot := FindSlot(p);
      if slot < 0 {
        return true;
      }
      ghost var before, count := slots[..], slots[slot].refcount - 1;
      assert EntryAt(before, refs, slot);
      slots[slot] := slots[slot].(refcount := slots[slot].refcount - 1);
      if slots[slot].refcount <= 0 {
        slots[slot] := slots[slot].(used := false);
        SlotDrop(before, refs, slot, count);
        assert slots[..] == before[slot := CowEntry(false, p, count)];
        refs := refs - {p};
        return true;
      }
      SlotUpdate(before, refs, slot, p, count);
      assert slots[..] == before[slot := CowEntry(true, p, count)];
      refs := refs[p := refs[p] - 1];
      return false;
    }
  }

  /** The frames held by the used slots among the first n. */
  ghost function UsedFrames(s: seq<CowEntry>, n: nat): set<Ptr>
    requires n <= |s|
  {
    if n == 0 then {}
    else if s[n - 1].used then UsedFrames(s, n - 1) + {s[n - 1].frame}
    else UsedFrames(s, n - 1)
  }

  ghost function UsedCount(s: seq<CowEntry>, n: nat): nat
    requires n <= |s|
  {
    if n == 0 then 0 else UsedCount(s, n - 1) + if s[n - 1].used then 1 else 0
  }

  ghost predicate EntryAt(s: seq<CowEntry>, refs: map<Ptr, int>, i: nat) {
    i < |s| && s[i].used ==> s[i].frame in refs && refs[s[i].frame] == s[i].refcount
  }

  ghost predicate ApartAt(s: seq<CowEntry>, i: nat, j: nat) {
    i < j < |s| && s[i].used && s[j].used ==> s[i].frame != s[j].frame
  }

  ghost predicate HeldAt(s: seq<CowEntry>, refs: map<Ptr, int>, p: Ptr) {
    p in refs ==> Holds(s, p)
  }

  ghost predicate Apart(s: seq<CowEntry>) {
    forall i: nat, j: nat {:trigger ApartAt(s, i, j)} :: ApartAt(s, i, j)
  }

  /** The used slots hold distinct frames, and are the entries of the map. */
  ghost predicate SlotsMatch(s: seq<CowEntry>, refs: map<Ptr, int>) {
    && |s| == COW_SLOTS && Apart(s)
    && (forall i: nat {:trigger EntryAt(s, refs, i)} :: EntryAt(s, refs, i))
    && (forall p: Ptr {:trigger HeldAt(s, refs, p)} :: HeldAt(s, refs, p))
  }

  ghost predicate Holds(s: seq<CowEntry>, p: Ptr) {
    exists i :: 0 <= i < |s| && s[i].used && s[i].frame == p
  }

  /** Rewriting slot i for frame p rewrites the map at p. */
  lemma SlotUpdate(s: seq<CowEntry>, refs: map<Ptr, int>, i: nat, p: Ptr, count: int)
    requires SlotsMatch(s, refs) && i < |s|
    requires if s[i].used then s[i].frame == p else p !in refs
    ensures SlotsMatch(s[i := CowEntry(true, p, count)], refs[p := count])
  {
    var t, refs' := s[i := CowEntry(true, p, count)], refs[p := count];
    assert EntryAt(s, refs, i);
    forall q: Ptr ensures HeldAt(t, refs', q) {
      if q == p {
        assert t[i].used && t[i].frame == p;
      } else if q in refs {
        assert HeldAt(s, refs, q);
        var k :| 0 <= k < |s| && s[k].used && s[k].frame == q;
        assert t[k] == s[k];
      }
    }
    forall j: nat ensures EntryAt(t, refs', j) {
      assert EntryAt(s, refs, j) && ApartAt(s, i, j) && ApartAt(s, j, i);
    }
    forall j: nat, k: nat ensures ApartAt(t, j, k) {
      assert ApartAt(s, j, k) && EntryAt(s, refs, j) && EntryAt(s, refs, k);
    }
  }

  lemma SlotDrop(s: seq<CowEntry>, refs: map<Ptr, int>, i: nat, count: int)
    requires SlotsMatch(s, refs) && i < |s| && s[i].used
    ensures SlotsMatch(s[i := CowEntry(false, s[i].frame, count)], refs - {s[i].frame})
  {
    var p := s[i].frame;
    var t, refs' := s[i := CowEntry(false, p, count)], refs - {p};
    forall q: Ptr ensures HeldAt(t, refs', q) {
      if q in refs' {
        assert HeldAt(s, refs, q);
        var k :| 0 <= k < |s| && s[k].used && s[k].frame == q;
        assert t[k] == s[k];
      }
    }
    forall j: nat ensures EntryAt(t, refs', j) {
      assert EntryAt(s, refs, j) && ApartAt(s, i, j) && ApartAt(s, j, i);
    }
    forall j: nat, k: nat ensures ApartAt(t, j, k) {
      assert ApartAt(s, j, k);
    }
  }

  lemma {:induction false} UsedFramesCounted(s: seq<CowEntry>, n: nat)
    requires n <= |s|
    requires Apart(s)
    ensures forall p :: p in UsedFrames(s, n) <==> exists i :: 0 <= i < n && s[i].used && s[i].frame == p
    ensures |UsedFrames(s, n)| == UsedCount(s, n)
  {
    if n > 0 {
      UsedFramesCounted(s, n - 1);
      forall i: nat | i < n - 1 && s[i].used && s[n - 1].used ensures s[i].frame != s[n - 1].frame {
        assert ApartAt(s, i, n - 1);
      }
      if s[n - 1].used { assert s[n - 1].frame !in UsedFrames(s, n - 1); }
    }
  }

  lemma SizeIsUsedCount(s: seq<CowEntry>, refs: map<Ptr, int>)
    requires SlotsMatch(s, refs)
    ensures |refs| == UsedCount(s, |s|)
  {
    UsedFramesCounted(s, |s|);
    forall p | p in refs ensures p in UsedFrames(s, |s|) { assert HeldAt(s, refs, p); }
    forall p | p in UsedFrames(s, |s|) ensures p in refs {
      var i :| 0 <= i < |s| && s[i].used && s[i].frame == p;
      assert EntryAt(s, refs, i);
    }
    assert refs.Keys == UsedFrames(s, |s|);
  }

  lemma FullTable(s: seq<CowEntry>, refs: map<Ptr, int>)
    requires SlotsMatch(s, refs) && forall i :: 0 <= i < |s| ==> s[i].used
    ensures |refs| == COW_SLOTS
  {
    SizeIsUsedCount(s, refs);
    CountBounds(s, |s|, 0);
  }

  lemma FreeSlotMeansRoom(s: seq<CowEntry>, refs: map<Ptr, int>, i: nat)
    requires SlotsMatch(s, refs) && i < |s| && !s[i].used
    ensures |refs| < COW_SLOTS
  {
    SizeIsUsedCount(s, refs);
    CountBounds(s, |s|, i);
  }

  lemma {:induction false} CountBounds(s: seq<CowEntry>, n: nat, i: nat)
    requires n <= |s| && i < |s|
    ensures UsedCount(s, n) <= n
    ensures i < n && !s[i].used ==> UsedCount(s, n) < n
    ensures (forall j :: 0 <= j < n ==> s[j].used) ==> UsedCount(s, n) == n
  {
    if n > 0 { CountBounds(s, n - 1, i); }
  }
}
