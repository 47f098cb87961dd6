/** The fork system call: when it is granted, and exactly when its failure path frees a frame that is still mapped. */
module ForkCall {
  import opened PageModel
  import opened Frames
  import opened Cow
  import opened CowModel
  import opened Paging
  import opened WriteFault
  import opened ForkCost
  import opened ForkWalk
  import opened CowFork
  import opened CowExit

  // ---------- the conditions, in terms of the state before the call ----------

  /** What is left for sharing once the child's root and its PDPT are taken. */
  ghost function Afforded(h: Now): Start {
    Start(h.mem, h.role, h.flat, h.refs, if |h.free| < 2 then 0 else |h.free| - 2)
  }

  /** Frames for the child's root, its PDPT and its tables, and a slot for each untracked page of the parent. */
  ghost predicate ForkGranted(h: Now, parent: nat) {
    |h.free| >= 2 + TablesTo(h.flat, parent, HI) && |h.refs| + SlotsTo(h.flat, h.refs, parent, HI) <= COW_SLOTS
  }

  ghost predicate NoNxBelow(flat: Flat, r: nat, v: nat) {
    forall u: nat {:trigger Key(r, u)} :: u < v && Key(r, u) in flat ==> !flat[Key(r, u)].nx
  }

  /** Frames run out at a page below which no page is no-execute. */
  ghost predicate ForkUndone(s: Start, parent: nat) {
    exists v: nat :: Stops(s, parent, v, NoFrames) && NoNxBelow(s.flat, parent, v)
  }

  /** The call is granted, or fails and gives back every frame the child took and every reference, and no more. (The
      one frame of a call that finds no second is not among them.) */
  ghost predicate ForkCounts(h: Now, parent: nat) {
    |h.free| < 2 || ForkGranted(h, parent) || ForkUndone(Afforded(h), parent)
  }

  /** The page where frames or slots run out is untracked. */
  ghost predicate StopsUntracked(s: Start, parent: nat) {
    exists v: nat, r :: r != Done && Stops(s, parent, v, r) && Untracked(s.flat, s.refs, Key(parent, v))
  }

  /** The call fails and leaves a page of the parent that cannot be stored to any more: the walk has made it
      read-only, and nothing gives the right back. */
  ghost predicate ForkSticks(h: Now, parent: nat) {
    |h.free| >= 2 && StopsUntracked(Afforded(h), parent)
  }

  /** The call is granted, or fails and leaves everything in order. */
  ghost predicate ForkSound(h: Now, parent: nat) {
    ForkCounts(h, parent) && !ForkSticks(h, parent)
  }

  lemma StopIsUnique(s: Start, parent: nat, a: nat, r: ForkResult, b: nat, q: ForkResult)
    requires r != Done && q != Done && Stops(s, parent, a, r) && Stops(s, parent, b, q)
    ensures a == b && r == q
  {
    if a < b {
      CostsGrow(s.flat, s.refs, parent, a + 1, b);
    } else if b < a {
      CostsGrow(s.flat, s.refs, parent, b + 1, a);
    }
  }

  lemma {:induction false} FirstShortfall(s: Start, parent: nat, hi: nat) returns (at: nat, r: ForkResult)
    requires !Reaches(s, parent, hi) && |s.refs| <= COW_SLOTS && forall k :: k in s.flat ==> Private(k.vpn)
    ensures r != Done && at < hi && Stops(s, parent, at, r)
  {
    if Reaches(s, parent, hi - 1) {
      at, r := hi - 1, if TablesTo(s.flat, parent, hi) > s.frames then NoFrames else TableFull;
    } else {
      at, r := FirstShortfall(s, parent, hi - 1);
    }
  }

  /** Where the walk stops decides. */
  lemma SticksIff(s: Start, parent: nat, at: nat, r: ForkResult)
    requires r != Done && Stops(s, parent, at, r)
    ensures StopsUntracked(s, parent) <==> Untracked(s.flat, s.refs, Key(parent, at))
    ensures ForkUndone(s, parent) <==> r == NoFrames && NoNxBelow(s.flat, parent, at)
    ensures r == TableFull ==> Untracked(s.flat, s.refs, Key(parent, at))
  {
    forall v: nat, q | q != Done && Stops(s, parent, v, q) ensures v == at && q == r {
      StopIsUnique(s, parent, at, r, v, q);
    }
    if r == TableFull {
      var next := at + 1;
      assert SlotsTo(s.flat, s.refs, parent, next) > SlotsTo(s.flat, s.refs, parent, at);
    }
  }

  /** A fork that can be completed stops nowhere. */
  lemma NoStop(s: Start, parent: nat)
    requires Reaches(s, parent, HI)
    ensures !StopsUntracked(s, parent) && !ForkUndone(s, parent)
  {
    forall v: nat, r ensures r == Done || !Stops(s, parent, v, r) {
      if r != Done && Stops(s, parent, v, r) { StopIsFinal(s, parent, v, r); }
    }
  }

  /** With frames enough, a fork leaves everything in order exactly when there is a slot for every untracked page of the parent. */
  lemma SlotsDecide(h: Now, parent: nat)
    requires |h.free| >= 2 + TablesTo(h.flat, parent, HI)
    ensures ForkSound(h, parent) <==> |h.refs| + SlotsTo(h.flat, h.refs, parent, HI) <= COW_SLOTS
    ensures ForkCounts(h, parent) <==> ForkSound(h, parent)
  {
    if ForkGranted(h, parent) {
      NoStop(Afforded(h), parent);
    } else if ForkUndone(Afforded(h), parent) {
      var v: nat :| Stops(Afforded(h), parent, v, NoFrames);
      CostsGrow(h.flat, h.refs, parent, v + 1, HI);
    }
  }

  /** With slots enough and no no-execute page in the parent, counts stay exact; but a page of the parent is
      lost to stores exactly when frames run out at an untracked one. */
  lemma NoNxDecides(h: Now, parent: nat)
    requires |h.refs| <= COW_SLOTS && (forall k :: k in h.flat ==> Private(k.vpn)) && NoNxBelow(h.flat, parent, HI)
    ensures ForkCounts(h, parent) <==> |h.free| < 2 || !exists v: nat :: Stops(Afforded(h), parent, v, TableFull)
    ensures |h.refs| + SlotsTo(h.flat, h.refs, parent, HI) <= COW_SLOTS ==>
      && ForkCounts(h, parent)
      && (ForkSound(h, parent) <==> |h.free| < 2 || forall v: nat :: Stops(Afforded(h), parent, v, NoFrames) ==> !Untracked(h.flat, h.refs, Key(parent, v)))
  {
    var s := Afforded(h);
    if |h.free| >= 2 {
      if !Reaches(s, parent, HI) {
        var at, r := FirstShortfall(s, parent, HI);
        SticksIff(s, parent, at, r);
        forall v: nat, q | q != Done && Stops(s, parent, v, q) ensures v == at && q == r {
          StopIsUnique(s, parent, at, r, v, q);
        }
        CostsGrow(h.flat, h.refs, parent, at + 1, HI);
      } else {
        NoStop(s, parent);
        forall v: nat, r | r != Done ensures !Stops(s, parent, v, r) {
          if Stops(s, parent, v, r) { StopIsFinal(s, parent, v, r); }
        }
      }
    }
  }

  // ---------- undoing a fork that stopped ----------

  /** The page shared without a slot is the parent's too. */
  lemma StopStrays(h: Now, s: Start, parent: nat, child: nat, r: ForkResult, at: nat)
    requires ForkStopped(h, s, parent, child, r, at) && parent != child
    ensures StraysOk(h.flat, Leaving(child, Stray(r, child, at), h.free, h.refs))
  {
    var x := Leaving(child, Stray(r, child, at), h.free, h.refs);
    forall k ensures StrayAt(h.flat, x, k) {
      if k in x.stray {
        var p := Key(parent, at);
        assert ChildAt(s.flat, h.flat, parent, child, at + 1, at) && SameFrameAt(s.flat, h.flat, child, p);
        assert p in h.flat && p !in x.stray && h.flat[p].frame == h.flat[k].frame;
      }
    }
  }

  /** A page of the child that the teardown misses comes from a no-execute page of the parent. */
  lemma StopMisses(h: Now, s: Start, parent: nat, child: nat, at: nat)
    requires ForkStopped(h, s, parent, child, NoFrames, at) && parent != child
    ensures NoneMissed(h.flat, h.refs, child) <==> NoNxBelow(s.flat, parent, at)
  {
    forall u: nat ensures Missed(h.flat, h.refs, child, Key(child, u)) <==> u < at && Key(parent, u) in s.flat && s.flat[Key(parent, u)].nx {
      assert ChildAt(s.flat, h.flat, parent, child, at, u) && SameFrameAt(s.flat, h.flat, child, Key(parent, u));
      if Key(child, u) in h.flat {
        assert SameFrame(h.flat, Key(child, u), Key(parent, u));
      }
    }
    forall k | Missed(h.flat, h.refs, child, k) ensures k == Key(child, k.vpn) {
    }
  }

  /** A data frame is free exactly when nothing is left on it, or a lost leaf was. */
  ghost predicate ExactlyFreed(h: Now, x: Leaving, flat: Flat, free: set<nat>) {
    forall f :: f in h.role && h.role[f].Data? ==> (f in free <==> Refs(flat, f) == {} || LostOn(h.flat, x, f))
  }

  lemma UndoDangles(h: Now, s: Start, parent: nat, child: nat, r: ForkResult, at: nat, free: set<nat>)
    requires ForkStopped(h, s, parent, child, r, at) && parent != child
    requires r == TableFull || (r == NoFrames && !NoneMissed(h.flat, h.refs, child))
    requires ExactlyFreed(h, Leaving(child, Stray(r, child, at), h.free, h.refs), Without(h.flat, child), free)
    ensures Dangling(Without(h.flat, child), free)
  {
    var x := Leaving(child, Stray(r, child, at), h.free, h.refs);
    var k := if r == TableFull then Key(child, at) else var l :| Missed(h.flat, h.refs, child, l); l;
    var p := Key(parent, k.vpn);
    assert k == Key(child, k.vpn);
    assert ChildAt(s.flat, h.flat, parent, child, if r == TableFull then at + 1 else at, k.vpn);
    assert SameFrameAt(s.flat, h.flat, child, p) && LeafAt(h.flat, h.role, k);
    PagesBelowTop(h);
    assert Lost(h.flat, x, k);
    assert p in Without(h.flat, child);
  }

  /** Where no leaf was lost, none that is left dangles. */
  lemma NothingLost(h: Now, x: Leaving, free: set<nat>)
    requires Sound(h) && x.stray == {} && NoneMissed(h.flat, x.refs, x.root)
    requires ExactlyFreed(h, x, Without(h.flat, x.root), free)
    ensures !Dangling(Without(h.flat, x.root), free)
  {
    var flat := Without(h.flat, x.root);
    forall k | k in flat ensures flat[k].frame !in free {
      assert LeafAt(h.flat, h.role, k);
      assert k in Refs(flat, flat[k].frame);
      forall l ensures !Lost(h.flat, x, l) {
        assert !Missed(h.flat, x.refs, x.root, l);
      }
    }
  }

  lemma SoundNotDangling(h: Now)
    requires Sound(h)
    ensures !Dangling(h.flat, h.free)
  {
    forall k | k in h.flat ensures h.flat[k].frame !in h.free {
      assert LeafAt(h.flat, h.role, k) && PartitionAt(h.role, h.free, h.flat[k].frame);
    }
  }

  /** What is left once a fork that stopped has been undone: every page that was, with its contents. */
  lemma UndoneFork(mem0: Memory, role0: map<nat, Role>, flat0: Flat, mem: Memory, role: map<nat, Role>, flat: Flat, child: nat)
    requires LeavesOk(flat0, role0) && Grown(mem0, role0, mem, role) && SameFrames(flat0, flat, child) && FreshChild(flat0, child)
    ensures Without(View(mem, flat), child) == View(mem0, flat0)
  {
    GrownMeans(mem0, role0, mem, role);
    var a, b := Without(View(mem, flat), child), View(mem0, flat0);
    forall k: Key ensures k in a <==> k in b {
      assert SameFrameAt(flat0, flat, child, k);
      assert k == Key(k.root, k.vpn);
    }
    forall k | k in a ensures a[k] == b[k] {
      assert SameFrameAt(flat0, flat, child, k) && LeafAt(flat0, role0, k);
    }
  }

  /** The parent's page where the walk stopped: still mapped, read-only, and tracked if it was. */
  ghost predicate StuckPage(flat0: Flat, refs0: map<Ptr, int>, flat: Flat, refs: map<Ptr, int>, k: Key) {
    && k in flat0 && k in flat && !flat[k].writable
    && (Tracked(refs, flat[k].frame) <==> Tracked(refs0, flat0[k].frame))
  }

  /** After the undoing that page, and only that one, may be out of reach for stores. */
  lemma UndoStorable(h: Now, s: Start, parent: nat, child: nat, r: ForkResult, at: nat, refs: map<Ptr, int>)
    requires ForkStopped(h, s, parent, child, r, at) && parent != child && TracksKept(Without(h.flat, child), h.refs, refs)
    ensures StuckPage(s.flat, s.refs, Without(h.flat, child), refs, Key(parent, at))
    ensures Storable(s.flat, s.refs) ==> (Storable(Without(h.flat, child), refs) <==> !Untracked(s.flat, s.refs, Key(parent, at)))
  {
    var flat, p := Without(h.flat, child), Key(parent, at);
    assert SameFrameAt(s.flat, h.flat, child, p) && StopAt(h, s, parent, child, at, p);
    assert p in flat && !StorableAt(flat, refs, p) <==> Untracked(s.flat, s.refs, p);
    if Storable(s.flat, s.refs) && Tracked(s.refs, s.flat[p].frame) {
      forall k ensures StorableAt(flat, refs, k) {
        assert StorableAt(s.flat, s.refs, k) && StopAt(h, s, parent, child, at, k);
      }
    }
  }

  /** The table is left with the tracked frames that are still mapped. */
  ghost predicate TracksLeft(flat: Flat, refs0: map<Ptr, int>, refs: map<Ptr, int>) {
    forall f: nat {:trigger Tracked(refs, f)} :: Tracked(refs, f) <==> Tracked(refs0, f) && f in Mapped(flat)
  }

  lemma TracksAreLeft(flat: Flat, refs0: map<Ptr, int>, refs: map<Ptr, int>)
    requires TracksKept(flat, refs0, refs) && RefsOk(flat, refs)
    ensures TracksLeft(flat, refs0, refs)
  {
    forall f: nat ensures Tracked(refs, f) <==> Tracked(refs0, f) && f in Mapped(flat) {
      if Tracked(refs, f) {
        TrackedMapped(flat, refs, f);
      } else if f in Mapped(flat) {
        var k :| k in flat && flat[k].frame == f;
      }
    }
  }

  lemma TrackedMapped(flat: Flat, refs: map<Ptr, int>, f: nat)
    requires RefsOk(flat, refs) && Tracked(refs, f)
    ensures f in Mapped(flat)
  {
    assert CountAt(flat, refs, Ptr(false, f));
    var k :| k in Refs(flat, f);
  }

  /** The same pages on the same frames. */
  ghost predicate SamePages(flat0: Flat, flat: Flat) {
    && (forall k :: k in flat <==> k in flat0)
    && (forall k :: k in flat ==> flat[k].frame == flat0[k].frame)
  }

  lemma UndoPages(h: Now, s: Start, parent: nat, child: nat, r: ForkResult, at: nat)
    requires ForkStopped(h, s, parent, child, r, at) && FreshChild(s.flat, child)
    ensures SamePages(s.flat, Without(h.flat, child)) && KernelFrames(h.role) == KernelFrames(s.role)
    ensures SpotsWithout(Spots(h.role), child) == SpotsWithout(Spots(s.role), child)
    ensures StructureWithout(Structure(h.role), child) == StructureWithout(Structure(s.role), child)
  {
    GrownKernel(s.mem, s.role, h.mem, h.role);
    UndoStructure(h, s, child);
    var flat := Without(h.flat, child);
    forall k: Key ensures (k in flat <==> k in s.flat) && (k in flat ==> flat[k].frame == s.flat[k].frame) {
      assert SameFrameAt(s.flat, h.flat, child, k) && k == Key(k.root, k.vpn);
    }
  }

  lemma UndoStructure(h: Now, s: Start, child: nat)
    requires Grown(s.mem, s.role, h.mem, h.role) && NewOf(s.role, h.role, child)
    ensures StructureWithout(Structure(h.role), child) == StructureWithout(Structure(s.role), child)
  {
    var a, b := StructureWithout(Structure(h.role), child), StructureWithout(Structure(s.role), child);
    forall f: nat ensures (f in a <==> f in b) && (f in a ==> a[f] == b[f]) {
      assert GrownAt(s.mem, s.role, h.mem, h.role, f);
    }
    assert a == b;
  }

  /** After the undoing the table holds what it did and the frames of the pages that had been shared. */
  lemma UndoTracks(h: Now, s: Start, parent: nat, child: nat, at: nat, refs: map<Ptr, int>)
    requires ForkStopped(h, s, parent, child, NoFrames, at) && parent != child && TracksLeft(Without(h.flat, child), h.refs, refs)
    ensures forall f: nat {:trigger TrackAt(s.flat, s.refs, refs, parent, at, f)} :: TrackAt(s.flat, s.refs, refs, parent, at, f)
  {
    forall f: nat ensures TrackAt(s.flat, s.refs, refs, parent, at, f) {
      assert TrackAt(s.flat, s.refs, h.refs, parent, at, f);
      if Tracked(h.refs, f) {
        TrackedMapped(h.flat, h.refs, f);
        var k :| k in h.flat && h.flat[k].frame == f;
        var p := Key(parent, k.vpn);
        assert k == Key(k.root, k.vpn) && ChildAt(s.flat, h.flat, parent, child, at, k.vpn) && SameFrameAt(s.flat, h.flat, child, p);
        var l := if k.root == child then p else k;
        assert l in Without(h.flat, child) && Without(h.flat, child)[l].frame == f;
      }
      assert Tracked(refs, f) <==> Tracked(h.refs, f) && f in Mapped(Without(h.flat, child));
    }
  }

  // ---------- the teardown's test ----------

  /** Decides, leaf by leaf, whether tearing a space down will give back every reference it holds.
      The kernel has no such test; runs use it to know where its counts stop being exact. */
  method MissesNothing(k: Kernel, root: nat) returns (b: bool)
    requires k.Valid() && IsRoot(k.role, root)
    ensures b <==> NoneMissed(k.flat, k.cow.refs, root)
  {
    var v := LO;
    b := true;
    while v < HI && b
      invariant LO <= v <= HI
      invariant b ==> NoneMissedBelow(k.flat, k.cow.refs, root, v)
      invariant !b ==> !NoneMissed(k.flat, k.cow.refs, root)
    {
      b := LeafCounted(k, root, v);
      v := v + 1;
    }
    if b {
      AllBelow(k.mem, k.role, k.flat, k.cow.refs, root);
    }
  }

  ghost predicate NoneMissedBelow(flat: Flat, refs: map<Ptr, int>, root: nat, v: nat) {
    forall k: Key {:trigger Missed(flat, refs, root, k)} :: LO <= k.vpn < v ==> !Missed(flat, refs, root, k)
  }

  lemma AllBelow(mem: Memory, role: map<nat, Role>, flat: Flat, refs: map<Ptr, int>, root: nat)
    requires FlatOk(mem, role, flat) && NoneMissedBelow(flat, refs, root, HI)
    ensures NoneMissed(flat, refs, root)
  {
    forall k: Key ensures !Missed(flat, refs, root, k) {
      assert FlatAt(mem, role, flat, k.root, k.vpn) && k == Key(k.root, k.vpn);
    }
  }

  method LeafCounted(k: Kernel, root: nat, v: nat) returns (b: bool)
    requires k.Valid() && IsRoot(k.role, root) && LO <= v < HI
    ensures b <==> !Missed(k.flat, k.cow.refs, root, Key(root, v))
    ensures b && NoneMissedBelow(k.flat, k.cow.refs, root, v) ==> NoneMissedBelow(k.flat, k.cow.refs, root, v + 1)
  {
    var leaf := LeafOf(k, root, v * 4096);
    var shared := false;
    if leaf.present {
      shared := k.cow.IsShared(Ptr(false, leaf.frame));
    }
    b := !(leaf.present && leaf.nx && shared);
    assert forall k': Key :: k'.root == root && k'.vpn == v ==> k' == Key(root, v);
  }

  /** An exiting process. The counts stay exact if and only if none of its pages is no-execute and tracked. */
  method Teardown(k: Kernel, root: nat) returns (sound: bool)
    requires k.Valid() && IsRoot(k.role, root)
    modifies k`role, k`flat, k.frames, k.frames.bitmap, k.cow`refs, k.cow.slots
    ensures sound <==> NoneMissed(old(k.flat), old(k.cow.refs), root)
    ensures k.Works() && (k.Valid() <==> sound)
    ensures old(Storable(k.flat, k.cow.refs)) ==> Storable(k.flat, k.cow.refs)
    ensures KernelFrames(k.role) == KernelFrames(old(k.role)) && Spots(k.role) == SpotsWithout(Spots(old(k.role)), root)
    ensures Structure(k.role) == StructureWithout(Structure(old(k.role)), root)
    ensures k.flat == Without(old(k.flat), root) && (sound ==> TracksLeft(k.flat, old(k.cow.refs), k.cow.refs))
    ensures forall r: nat :: IsRoot(k.role, r) <==> IsRoot(old(k.role), r) && r != root
    ensures View(k.mem, k.flat) == Without(old(View(k.mem, k.flat)), root)
  {
    sound := MissesNothing(k, root);
    ghost var h := Here(k);
    ghost var x := Leaving(root, {}, h.free, h.refs);
    assert k.flat - {} == k.flat;
    forall l ensures StrayAt(k.flat, x, l) {
    }
    FreeAddressSpace(k, root, {});
    if sound {
      NothingLost(h, x, k.frames.free);
      TracksAreLeft(k.flat, h.refs, k.cow.refs);
    }
    if Storable(h.flat, h.refs) {
      forall l ensures StorableAt(k.flat, k.cow.refs, l) {
        assert StorableAt(h.flat, h.refs, l);
      }
    }
  }

  // ---------- the system call ----------

  lemma SpaceView(mem0: Memory, role0: map<nat, Role>, flat: Flat, mem: Memory, role: map<nat, Role>)
    requires LeavesOk(flat, role0) && Kept(mem0, role0, mem, role)
    ensures View(mem, flat) == View(mem0, flat)
  {
    forall k | k in flat ensures PageAt(mem, flat[k].frame) == PageAt(mem0, flat[k].frame) {
      assert LeafAt(flat, role0, k);
    }
  }

  /** A root taken from a free frame has no page. */
  lemma NewRootIsFresh(mem: Memory, role: map<nat, Role>, flat: Flat, child: nat)
    requires FlatOk(mem, role, flat) && child !in role
    ensures FreshChild(flat, child)
  {
    forall v: nat ensures Key(child, v) !in flat {
      assert FlatAt(mem, role, flat, child, v);
    }
  }

  lemma NewRootHasNoSpot(mem: Memory, role: map<nat, Role>, child: nat)
    requires TablesOk(mem, role) && child !in role
    ensures forall x: Spot :: x in Spots(role) ==> x.root != child
  {
    forall x: Spot | x in Spots(role) ensures x.root != child {
      SpotHasRoot(mem, role, x);
    }
  }

  /** The failure path: the child is torn down whatever made the walk stop. */
  method UndoFork(k: Kernel, parent: nat, child: nat, r: ForkResult, at: nat, ghost s: Start) returns (sound: bool)
    requires k.Works() && r != Done && ForkStopped(Here(k), s, parent, child, r, at) && IsRoot(k.role, parent) && IsRoot(k.role, child)
    requires parent != child && LeavesOk(s.flat, s.role) && FreshChild(s.flat, child)
    modifies k`role, k`flat, k.frames, k.frames.bitmap, k.cow`refs, k.cow.slots
    ensures k.Trees() && k.cow.Valid() && k.frames.free != {}
    ensures sound <==> r == NoFrames && NoNxBelow(s.flat, parent, at) && !Untracked(s.flat, s.refs, Key(parent, at))
    ensures if r == NoFrames && NoNxBelow(s.flat, parent, at) then k.Valid() else Dangling(k.flat, k.frames.free)
    ensures StuckPage(s.flat, s.refs, k.flat, k.cow.refs, Key(parent, at))
    ensures Undone(s, Here(k), parent, child, at, r == NoFrames && NoNxBelow(s.flat, parent, at))
    ensures Storable(s.flat, s.refs) ==> (Storable(k.flat, k.cow.refs) <==> !Untracked(s.flat, s.refs, Key(parent, at)))
    ensures forall q: nat :: IsRoot(k.role, q) <==> IsRoot(old(k.role), q) && q != child
    ensures View(k.mem, k.flat) == View(s.mem, s.flat)
  {
    ghost var h, stray := Here(k), Stray(r, child, at);
    sound := false;
    if r == NoFrames {
      sound := UndoneInOrder(k, parent, child, at, s);
    }
    StopStrays(h, s, parent, child, r, at);
    UndoneFork(s.mem, s.role, s.flat, h.mem, h.role, h.flat, child);
    FreeAddressSpace(k, child, stray);
    UndoStorable(h, s, parent, child, r, at, k.cow.refs);
    UndoCounts(h, s, parent, child, r, at, k.frames.free);
    UndoPages(h, s, parent, child, r, at);
    if r == NoFrames && NoNxBelow(s.flat, parent, at) {
      TracksAreLeft(k.flat, h.refs, k.cow.refs);
      UndoTracks(h, s, parent, child, at, k.cow.refs);
    }
  }

  /** The books once the child is gone again: the kernel's frames, the tables and the pages as before, and, if counts
      are exact, in the table the frames of the pages that had been shared beside those that were there. */
  ghost predicate Undone(s: Start, h: Now, parent: nat, child: nat, at: nat, counts: bool) {
    && KernelFrames(h.role) == KernelFrames(s.role) && Spots(h.role) == SpotsWithout(Spots(s.role), child)
    && Structure(h.role) == StructureWithout(Structure(s.role), child) && SamePages(s.flat, h.flat)
    && (counts ==> Tracks(h, s, parent, at))
  }

  /** Decides whether the undoing will leave everything in order. */
  method UndoneInOrder(k: Kernel, parent: nat, child: nat, at: nat, ghost s: Start) returns (b: bool)
    requires k.Works() && ForkStopped(Here(k), s, parent, child, NoFrames, at) && IsRoot(k.role, parent) && IsRoot(k.role, child)
    requires parent != child
    ensures b <==> NoNxBelow(s.flat, parent, at) && !Untracked(s.flat, s.refs, Key(parent, at))
  {
    ghost var h := Here(k);
    StopMisses(h, s, parent, child, at);
    assert SameFrameAt(s.flat, h.flat, child, Key(parent, at)) && StopAt(h, s, parent, child, at, Key(parent, at));
    b := MissesNothing(k, child);
    var leaf := LeafOf(k, parent, at * 4096);
    var shared := k.cow.IsShared(Ptr(false, leaf.frame));
    b := b && shared;
  }

  /** Whether a mapped frame was freed. */
  lemma UndoCounts(h: Now, s: Start, parent: nat, child: nat, r: ForkResult, at: nat, free: set<nat>)
    requires ForkStopped(h, s, parent, child, r, at) && parent != child && r != Done
    requires ExactlyFreed(h, Leaving(child, Stray(r, child, at), h.free, h.refs), Without(h.flat, child), free)
    ensures Dangling(Without(h.flat, child), free) <==> !(r == NoFrames && NoNxBelow(s.flat, parent, at))
    ensures r == NoFrames && NoNxBelow(s.flat, parent, at) ==> NoneMissed(h.flat, h.refs, child)
  {
    if r == NoFrames {
      StopMisses(h, s, parent, child, at);
    }
    if r == NoFrames && NoNxBelow(s.flat, parent, at) {
      NothingLost(h, Leaving(child, Stray(r, child, at), h.free, h.refs), free);
    } else {
      UndoDangles(h, s, parent, child, r, at, free);
    }
  }

  /** The page where the walk stops, and the table, after the call. */
  ghost predicate StuckSomewhere(h: Now, h': Now, parent: nat) {
    exists v: nat, r :: r != Done && Stops(Afforded(h), parent, v, r) && StuckPage(h.flat, h.refs, h'.flat, h'.refs, Key(parent, v))
                        && (ForkCounts(h, parent) ==> Tracks(h', Afforded(h), parent, v))
  }

  /** The books after the call: a lone free frame is the kernel's for good; a child has its PDPT and the tables
      of its pages, which are the parent's, on their frames, all of them in the table; or nothing is left of it. */
  ghost predicate ForkBooked(h: Now, h': Now, parent: nat, child: nat) {
    && KernelFrames(h'.role) == (if |h.free| == 1 then KernelFrames(h.role) + h.free else KernelFrames(h.role))
    && Spots(h'.role) == (if child != 0 then Spots(h.role) + {Spot(3, child, 0)} + ForkSpots(h.flat, parent, child) else Spots(h.role))
    && (if child != 0 then Forked(h.flat, h'.flat, parent, child, HI) && Tracks(h', Afforded(h), parent, HI) else SamePages(h.flat, h'.flat))
    && (|h.free| < 2 ==> h'.refs == h.refs && h'.free == {})
    && (if child != 0 then Extends(h.role, h'.role, child) else Structure(h'.role) == AfterRefusal(h))
  }

  /** A fork or a new space that is refused leaves the frames that hold no page as they were, but for the loss. */
  ghost function AfterRefusal(h: Now): map<nat, Role> {
    if |h.free| < 2 then Structure(h.role) + map f | f in h.free :: Role.Kernel else Structure(h.role)
  }

  lemma RefusedStructure(h: Now, role: map<nat, Role>)
    requires |h.free| < 2 && Partition(h.role, h.free) && role == SpaceRoles(h.role, h.free, 0, 0)
    ensures Structure(role) == AfterRefusal(h)
  {
    forall f | f in h.free ensures f !in h.role {
      assert PartitionAt(h.role, h.free, f);
    }
  }

  /** The conditions do not depend on the tables themselves. */
  lemma SameConditions(h: Now, s: Start, parent: nat)
    requires |h.free| >= 2 && s.flat == h.flat && s.refs == h.refs && s.frames == |h.free| - 2
    ensures Reaches(s, parent, HI) <==> ForkGranted(h, parent)
    ensures ForkUndone(s, parent) <==> ForkUndone(Afforded(h), parent)
    ensures StopsUntracked(s, parent) <==> StopsUntracked(Afforded(h), parent)
  {
    var t := Afforded(h);
    forall v: nat, r ensures Stops(s, parent, v, r) <==> Stops(t, parent, v, r) {
    }
  }

  lemma SameTracks(h: Now, h': Now, s: Start, parent: nat, cur: nat)
    requires s.flat == h.flat && s.refs == h.refs && Tracks(h', s, parent, cur)
    ensures Tracks(h', Afforded(h), parent, cur)
  {
    forall f: nat ensures TrackAt(h.flat, h.refs, h'.refs, parent, cur, f) {
      assert TrackAt(s.flat, s.refs, h'.refs, parent, cur, f);
    }
  }

  /** A root and its PDPT have come to what was there. */
  ghost predicate SpaceAdded(h: Now, role: map<nat, Role>, child: nat, pdpt: nat) {
    && child != 0 && child !in h.role && pdpt !in h.role && child != pdpt && role == SpaceRoles(h.role, h.free, child, pdpt)
    && KernelFrames(role) == KernelFrames(h.role) && Spots(role) == Spots(h.role) + {Spot(3, child, 0)}
    && forall x: Spot :: x in Spots(h.role) ==> x.root != child
  }

  lemma ExtendsTrans(role0: map<nat, Role>, role1: map<nat, Role>, role: map<nat, Role>, root: nat)
    requires Extends(role0, role1, root) && Extends(role1, role, root)
    ensures Extends(role0, role, root)
  {
  }

  lemma GoneAgain(h: Now, role: map<nat, Role>, child: nat, pdpt: nat)
    requires SpaceAdded(h, role, child, pdpt)
    ensures StructureWithout(Structure(role), child) == Structure(h.role) && SpotsWithout(Spots(role), child) == Spots(h.role)
  {
    forall f | f in h.role && h.role[f].Table? ensures h.role[f].root != child {
      CoveredSpot(h.role, f, h.role[f].level, h.role[f].root, h.role[f].base);
    }
    var a, b := StructureWithout(Structure(role), child), Structure(h.role);
    assert forall f: nat :: (f in a <==> f in b) && (f in a ==> a[f] == b[f]);
    assert a == b;
  }

  lemma DoneBooks(h: Now, h': Now, s: Start, parent: nat, child: nat, pdpt: nat)
    requires s.flat == h.flat && s.refs == h.refs && |h.free| >= 2 && SpaceAdded(h, s.role, child, pdpt)
    requires KernelFrames(h'.role) == KernelFrames(s.role) && Extends(s.role, h'.role, child)
    requires Spots(h'.role) == Spots(s.role) + ForkSpots(s.flat, parent, child)
    requires Forked(s.flat, h'.flat, parent, child, HI) && Tracks(h', s, parent, HI)
    ensures ForkBooked(h, h', parent, child)
  {
    SameTracks(h, h', s, parent, HI);
    SpaceExtends(h.role, h.free, child, pdpt);
    ExtendsTrans(h.role, s.role, h'.role, child);
  }

  lemma UndoneBooks(h: Now, h': Now, s: Start, parent: nat, child: nat, pdpt: nat, r: ForkResult, at: nat)
    requires s.flat == h.flat && s.refs == h.refs && |h.free| >= 2 && s.frames == |h.free| - 2 && SpaceAdded(h, s.role, child, pdpt)
    requires r != Done && Stops(s, parent, at, r) && StuckPage(s.flat, s.refs, h'.flat, h'.refs, Key(parent, at))
    requires Undone(s, h', parent, child, at, r == NoFrames && NoNxBelow(s.flat, parent, at))
    ensures ForkBooked(h, h', parent, 0) && StuckSomewhere(h, h', parent)
  {
    GoneAgain(h, s.role, child, pdpt);
    var t := Afforded(h);
    assert Stops(t, parent, at, r);
    if ForkCounts(h, parent) {
      StopIsFinal(t, parent, at, r);
      SticksIff(t, parent, at, r);
      SameTracks(h, h', s, parent, at);
    }
  }

  /** Sharing with a new child, undone when it cannot be completed; h is the state before the child was made. */
  method ShareWithChild(k: Kernel, parent: nat, child: nat, ghost pdpt: nat, ghost h: Now) returns (done: bool, sound: bool)
    requires k.Valid() && IsRoot(k.role, parent) && IsRoot(k.role, child) && parent != child && FreshChild(k.flat, child)
    requires Bare(k.role, child) && SpaceAdded(h, k.role, child, pdpt)
    requires h.flat == k.flat && h.refs == k.cow.refs && |h.free| == |k.frames.free| + 2
    modifies k`mem, k`role, k`flat, k.frames, k.frames.bitmap, k.cow`refs, k.cow.slots
    ensures k.Trees() && k.cow.Valid()
    ensures done <==> ForkGranted(h, parent)
    ensures sound <==> ForkSound(h, parent)
    ensures if ForkCounts(h, parent) then k.Valid() else Dangling(k.flat, k.frames.free)
    ensures Storable(h.flat, h.refs) ==> (Storable(k.flat, k.cow.refs) <==> !ForkSticks(h, parent))
    ensures !done ==> k.frames.free != {} && StuckSomewhere(h, Here(k), parent)
    ensures ForkBooked(h, Here(k), parent, if done then child else 0)
    ensures forall r: nat :: IsRoot(k.role, r) <==> IsRoot(old(k.role), r) && (done || r != child)
    ensures View(k.mem, k.flat) ==
            if done then EagerFork(old(View(k.mem, k.flat)), parent, child) else old(View(k.mem, k.flat))
  {
    ghost var s := StartOf(k);
    SameConditions(h, s, parent);
    var r, at := CloneAddressSpaceCow(k, parent, child);
    done, sound := r == Done, true;
    if r == Done {
      NoStop(s, parent);
      DoneBooks(h, Here(k), s, parent, child, pdpt);
    } else {
      SticksIff(s, parent, at, r);
      sound := UndoFork(k, parent, child, r, at, s);
      UndoneBooks(h, Here(k), s, parent, child, pdpt, r, at);
    }
  }

  /**
   * The fork system call's address-space work; 0 reports failure. Granted exactly when there are frames for the
   * child's root, PDPT and tables and a slot for every untracked page of the parent. When it fails, every process
   * still reads what it read before. But unless frames ran out below every no-execute page of the parent, the
   * teardown of the child has freed a frame that the parent maps; and the page where the walk stopped stays
   * read-only, so that the parent cannot store to it any more exactly when its frame was untracked.
   */
  method SyscallFork(k: Kernel, parent: nat) returns (child: nat, sound: bool)
    requires k.Valid() && IsRoot(k.role, parent)
    modifies k`mem, k`role, k`flat, k.frames, k.frames.bitmap, k.cow`refs, k.cow.slots
    ensures k.Trees() && k.cow.Valid()
    ensures child != 0 <==> ForkGranted(old(Here(k)), parent)
    ensures k.Valid() <==> ForkCounts(old(Here(k)), parent)
    ensures Dangling(k.flat, k.frames.free) <==> !ForkCounts(old(Here(k)), parent)
    ensures old(Storable(k.flat, k.cow.refs)) ==> (Storable(k.flat, k.cow.refs) <==> !ForkSticks(old(Here(k)), parent))
    ensures |old(k.frames.free)| >= 2 && child == 0 ==> k.frames.free != {} && StuckSomewhere(old(Here(k)), Here(k), parent)
    ensures ForkBooked(old(Here(k)), Here(k), parent, child)
    ensures sound <==> ForkSound(old(Here(k)), parent)
    ensures child != 0 ==> !IsRoot(old(k.role), child)
    ensures forall r: nat :: IsRoot(k.role, r) <==> IsRoot(old(k.role), r) || (child != 0 && r == child)
    ensures View(k.mem, k.flat) ==
            if child != 0 then EagerFork(old(View(k.mem, k.flat)), parent, child) else old(View(k.mem, k.flat))
  {
    sound := true;
    ghost var pdpt;
    child, pdpt := CloneAddressSpace(k);
    SpaceView(old(k.mem), old(k.role), k.flat, k.mem, k.role);
    if child != 0 {
      assert PartitionAt(old(k.role), old(k.frames.free), child);
      NewRootIsFresh(old(k.mem), old(k.role), k.flat, child);
      NewRootHasNoSpot(old(k.mem), old(k.role), child);
      var done;
      done, sound := ShareWithChild(k, parent, child, pdpt, old(Here(k)));
      if !done {
        child := 0;
      }
    } else {
      RefusedStructure(old(Here(k)), k.role);
    }
    if k.Valid() {
      SoundNotDangling(Here(k));
    }
  }

  // ---------- one such fork ----------

  lemma {:induction false} TablesAtMost(flat: Flat, r: nat, a: nat, n: nat, cur: nat)
    requires forall v: nat {:trigger Key(r, v)} :: Key(r, v) in flat ==> a <= v < a + n
    ensures TablesTo(flat, r, cur) <= if cur <= a then 0 else if cur <= a + n then 2 * (cur - a) else 2 * n
  {
    if cur > 0 {
      TablesAtMost(flat, r, a, n, cur - 1);
    }
  }

  lemma {:induction false} SlotsAtLeast(flat: Flat, refs: map<Ptr, int>, r: nat, a: nat, n: nat, cur: nat)
    requires RefsOk(flat, refs)
    requires forall v: nat {:trigger Key(r, v)} :: a <= v < a + n ==> Key(r, v) in flat && flat[Key(r, v)].writable
    ensures SlotsTo(flat, refs, r, cur) >= if cur <= a then 0 else if cur <= a + n then cur - a else n
  {
    if cur > 0 {
      SlotsAtLeast(flat, refs, r, a, n, cur - 1);
      assert ReadOnlyAt(flat, refs, Key(r, cur - 1));
    }
  }

  /** The space has the n pages from the first private one on, all writable, and no other. */
  ghost predicate FirstPages(flat: Flat, r: nat, n: nat) {
    forall v: nat {:trigger Key(r, v)} ::
      (Key(r, v) in flat <==> LO <= v < LO + n) && (Key(r, v) in flat ==> flat[Key(r, v)].writable)
  }

  /** A process with one written page more than the table has slots. */
  method GrowProcess(k: Kernel) returns (root: nat)
    requires k.Valid() && |k.frames.free| >= 400
    modifies k`mem, k`role, k`flat, k.frames, k.frames.bitmap
    ensures k.Valid() && IsRoot(k.role, root) && FirstPages(k.flat, root, COW_SLOTS + 1) && |k.frames.free| >= 200
  {
    ghost var pdpt;
    root, pdpt := CloneAddressSpace(k);
    assert PartitionAt(old(k.role), old(k.frames.free), root);
    NewRootIsFresh(old(k.mem), old(k.role), k.flat, root);
    var n := 0;
    while n < COW_SLOTS + 1
      invariant 0 <= n <= COW_SLOTS + 1 && k.Valid() && IsRoot(k.role, root)
      invariant FirstPages(k.flat, root, n) && |k.frames.free| >= 398 - 3 * n
    {
      GrowByOne(k, root, n);
      n := n + 1;
    }
  }

  method GrowByOne(k: Kernel, root: nat, n: nat)
    requires k.Valid() && IsRoot(k.role, root) && n <= COW_SLOTS && FirstPages(k.flat, root, n) && |k.frames.free| >= 3
    modifies k`mem, k`role, k`flat, k.frames, k.frames.bitmap
    ensures k.Valid() && IsRoot(k.role, root) && FirstPages(k.flat, root, n + 1) && |k.frames.free| >= |old(k.frames.free)| - 3
  {
    assert (LO + n) * 4096 / 4096 == LO + n;
    var ok := MapFreshPage(k, root, (LO + n) * 4096, false);
  }

  /** From any sound state with 400 free frames: a process of 65 pages forks, the call fails, and the
      process still maps a frame that is free. */
  method ForkPastTheTable(k: Kernel) returns (parent: nat, child: nat)
    requires k.Valid() && |k.frames.free| >= 400
    modifies k`mem, k`role, k`flat, k.frames, k.frames.bitmap, k.cow`refs, k.cow.slots
    ensures child == 0 && IsRoot(k.role, parent) && Dangling(k.flat, k.frames.free) && !k.Valid()
  {
    parent := GrowProcess(k);
    ghost var h := Here(k);
    TablesAtMost(k.flat, parent, LO, COW_SLOTS + 1, HI);
    SlotsAtLeast(k.flat, k.cow.refs, parent, LO, COW_SLOTS + 1, HI);
    SlotsDecide(h, parent);
    var sound;
    child, sound := SyscallFork(k, parent);
  }

  /** Sharing a single page takes a page directory and a page table. */
  lemma OnePageStops(s: Start, parent: nat)
    requires FirstPages(s.flat, parent, 1) && s.frames == 0 && |s.refs| <= COW_SLOTS
    ensures Stops(s, parent, LO, NoFrames)
  {
    assert !LeafIn(s.flat, parent, 0, LO);
    CostsSkip(s.flat, s.refs, parent, 0, LO);
    var next := LO + 1;
    assert NewTables(s.flat, parent, LO) == 2;
    assert TablesTo(s.flat, parent, next) == TablesTo(s.flat, parent, LO) + 2;
  }

  /** A process of one page, of the last frames but two. */
  method OnePageProcess(k: Kernel) returns (root: nat)
    requires k.Valid() && |k.frames.free| == 7
    modifies k`mem, k`role, k`flat, k.frames, k.frames.bitmap
    ensures k.Valid() && IsRoot(k.role, root) && FirstPages(k.flat, root, 1) && |k.frames.free| == 2
  {
    ghost var pdpt;
    root, pdpt := CloneAddressSpace(k);
    assert PartitionAt(old(k.role), old(k.frames.free), root);
    NewRootIsFresh(old(k.mem), old(k.role), k.flat, root);
    assert LO * 4096 / 4096 == LO;
    assert Unbuilt(k.role, root, LO) == 2;
    var ok := MapFreshPage(k, root, LO * 4096, false);
  }

  lemma OnePageForkFails(h: Now, h': Now, parent: nat)
    requires FirstPages(h.flat, parent, 1) && |h.free| == 2 && |h.refs| <= COW_SLOTS && RefsOk(h.flat, h.refs)
    ensures !ForkGranted(h, parent) && ForkCounts(h, parent)
    ensures StuckSomewhere(h, h', parent) ==>
      var p := Key(parent, LO); p in h'.flat && !h'.flat[p].writable && !Tracked(h'.refs, h'.flat[p].frame)
  {
    var s := Afforded(h);
    OnePageStops(s, parent);
    StopIsFinal(s, parent, LO, NoFrames);
    SticksIff(s, parent, LO, NoFrames);
    assert ReadOnlyAt(h.flat, h.refs, Key(parent, LO));
    if StuckSomewhere(h, h', parent) {
      var v: nat, q :| q != Done && Stops(s, parent, v, q) && StuckPage(h.flat, h.refs, h'.flat, h'.refs, Key(parent, v));
      StopIsUnique(s, parent, LO, NoFrames, v, q);
    }
  }

  /** From any sound state with seven free frames: a process of one writable page forks, the call fails for want of
      frames, no count is lost and frames are free; but the process's next store to its page halts the machine. */
  method StoreAfterFailedFork(k: Kernel, i: nat, value: U64) returns (parent: nat, child: nat, ok: bool)
    requires k.Valid() && |k.frames.free| == 7 && i < 512
    modifies k`mem, k`role, k`flat, k.frames, k.frames.bitmap, k.cow`refs, k.cow.slots
    ensures k.Valid() && child == 0 && Key(parent, LO) in k.flat && !ok
  {
    parent := OnePageProcess(k);
    child := OnePageFork(k, parent);
    ok := StoreToStuck(k, parent, LO, i, value);
  }

  method StoreToStuck(k: Kernel, root: nat, v: nat, i: nat, value: U64) returns (ok: bool)
    requires k.Valid() && IsRoot(k.role, root) && Private(v) && i < 512
    requires var p := Key(root, v); p in k.flat && !k.flat[p].writable && !Tracked(k.cow.refs, k.flat[p].frame)
    modifies k`mem, k`role, k`flat, k.frames, k.frames.bitmap, k.cow`refs, k.cow.slots
    ensures k.Valid() && !ok && k.flat == old(k.flat)
  {
    assert v * 4096 / 4096 == v;
    ok := Ring3Store(k, root, v * 4096, i, value);
  }

  method OnePageFork(k: Kernel, parent: nat) returns (child: nat)
    requires k.Valid() && IsRoot(k.role, parent) && FirstPages(k.flat, parent, 1) && |k.frames.free| == 2
    modifies k`mem, k`role, k`flat, k.frames, k.frames.bitmap, k.cow`refs, k.cow.slots
    ensures k.Valid() && IsRoot(k.role, parent) && child == 0 && k.frames.free != {}
    ensures var p := Key(parent, LO); p in k.flat && !k.flat[p].writable && !Tracked(k.cow.refs, k.flat[p].frame)
  {
    ghost var h := Here(k);
    SlotsBound(k.cow);
    OnePageForkFails(h, h, parent);
    var sound;
    child, sound := SyscallFork(k, parent);
    OnePageForkFails(h, Here(k), parent);
  }
}
