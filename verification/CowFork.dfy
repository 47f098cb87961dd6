/** Copy-on-write fork: the walk over the parent's private pages that leaves every page
    shared read-only with the child. */
module CowFork {
  import opened PageModel
  import opened Frames
  import opened Cow
  import opened CowModel
  import opened Paging
  import opened WriteFault
  import opened ForkCost
  import opened ForkWalk

  // ---------- one page ----------

  lemma SharedLeaves(flat: Flat, mem: Memory, role: map<nat, Role>, mem': Memory, role': map<nat, Role>, parent: Key, child: Key)
    requires LeavesOk(flat, role) && parent in flat && child !in flat
    requires Grown(mem, role, mem', role')
    ensures LeavesOk(Shared(flat, parent, child), role')
  {
    var flat' := Shared(flat, parent, child);
    forall f ensures DataAt(flat', role', f) {
      assert DataAt(flat, role, f) && GrownAt(mem, role, mem', role', f);
      SharedRefs(flat, parent, child, f);
    }
    assert LeafAt(flat, role, parent) && GrownAt(mem, role, mem', role', flat[parent].frame);
    forall k ensures LeafAt(flat', role', k) {
      assert LeafAt(flat, role, k) && (k in flat ==> GrownAt(mem, role, mem', role', flat[k].frame));
    }
  }

  /** The demotion of the parent's leaf alone. */
  lemma DemoteKeepsAll(flat: Flat, mem: Memory, role: map<nat, Role>, mem': Memory, role': map<nat, Role>, refs: map<Ptr, int>, k: Key)
    requires LeavesOk(flat, role) && RefsOk(flat, refs) && k in flat
    requires Grown(mem, role, mem', role')
    ensures LeavesOk(flat, role')
    ensures LeavesOk(flat[k := ReadOnly(flat[k])], role') && RefsOk(flat[k := ReadOnly(flat[k])], refs)
  {
    var flat' := flat[k := ReadOnly(flat[k])];
    forall f: nat ensures Refs(flat', f) == Refs(flat, f) {
    }
    forall f ensures DataAt(flat', role', f) && DataAt(flat, role', f) {
      assert DataAt(flat, role, f) && GrownAt(mem, role, mem', role', f);
    }
    forall l ensures LeafAt(flat', role', l) && LeafAt(flat, role', l) {
      assert LeafAt(flat, role, l) && (l in flat ==> GrownAt(mem, role, mem', role', flat[l].frame));
    }
    DemoteKeepsRefs(flat, refs, k);
  }

  lemma DemoteKeepsRefs(flat: Flat, refs: map<Ptr, int>, k: Key)
    requires RefsOk(flat, refs) && k in flat
    ensures RefsOk(flat[k := ReadOnly(flat[k])], refs)
  {
    var flat' := flat[k := ReadOnly(flat[k])];
    forall p ensures CountAt(flat', refs, p) {
      assert CountAt(flat, refs, p);
      assert Refs(flat', p.frame) == Refs(flat, p.frame);
    }
    forall l ensures ReadOnlyAt(flat', refs, l) { assert ReadOnlyAt(flat, refs, l); }
    forall i, j | SameFrame(flat', i, j) ensures Tracked(refs, flat'[i].frame) {
      assert SameFrame(flat, i, j);
    }
  }

  /** The two mappings of one shared page; says how many were made. */
  method MapBoth(k: Kernel, parent: nat, child: nat, vaddr: nat, paddr: Ptr, cowFlags: U64) returns (made: nat)
    requires k.Trees() && IsRoot(k.role, parent) && IsRoot(k.role, child) && Private(vaddr / 4096)
    requires paddr.frame < 0x8_0000_0000_0000
    modifies k`mem, k`role, k`flat, k.frames, k.frames.bitmap
    ensures k.Trees() && Grown(old(k.mem), old(k.role), k.mem, k.role) && made <= 2
    ensures var pk, ck, w := Key(parent, vaddr / 4096), Key(child, vaddr / 4096), MakePte(paddr, cowFlags);
      k.flat == if made == 0 then old(k.flat) else if made == 1 then old(k.flat)[pk := w] else old(k.flat)[pk := w][ck := w]
    ensures old(HasPt(k.mem, parent, vaddr / 4096)) ==>
      made >= 1 && (made == 2 <==> |old(k.frames.free)| >= old(Unbuilt(k.role, child, vaddr / 4096)))
    ensures old(HasPt(k.mem, parent, vaddr / 4096)) ==>
      if made == 2 then PathBuilt(old(k.role), old(k.frames.free), k.role, k.frames.free, child, vaddr / 4096)
      else PathStalled(old(k.role), old(k.frames.free), k.role, child, vaddr / 4096)
    ensures old(HasPt(k.mem, parent, vaddr / 4096)) ==> NewOf(old(k.role), k.role, child)
  {
    var mapped := k.MapPageIn(parent, vaddr, paddr, cowFlags);
    if !mapped {
      return 0;
    }
    ghost var mem1, role1 := k.mem, k.role;
    assert GrownAt(old(k.mem), old(k.role), k.mem, k.role, child);
    mapped := k.MapPageIn(child, vaddr, paddr, cowFlags);
    GrownTrans(old(k.mem), old(k.role), mem1, role1, k.mem, k.role);
    return if mapped then 2 else 1;
  }

  /** One leaf made read-only. */
  ghost predicate Demoted(flat0: Flat, flat: Flat, k: Key) {
    k in flat0 && flat == flat0[k := ReadOnly(flat0[k])]
  }

  /** The mappings of a shared page, in terms of the leaf being shared. */
  method MapShared(k: Kernel, parent: nat, child: nat, vaddr: nat, w: U64, ghost refs: map<Ptr, int>) returns (ok: bool)
    requires k.Trees() && IsRoot(k.role, parent) && IsRoot(k.role, child) && Private(vaddr / 4096)
    requires LeavesOk(k.flat, k.role) && RefsOk(k.flat, refs) && w.present
    requires Key(parent, vaddr / 4096) in k.flat && w == k.flat[Key(parent, vaddr / 4096)] && Key(child, vaddr / 4096) !in k.flat
    modifies k`mem, k`role, k`flat, k.frames, k.frames.bitmap
    ensures k.Trees() && Grown(old(k.mem), old(k.role), k.mem, k.role) && LeavesOk(k.flat, k.role)
    ensures var pk, ck := Key(parent, vaddr / 4096), Key(child, vaddr / 4096);
      if ok then k.flat == Shared(old(k.flat), pk, ck) else Demoted(old(k.flat), k.flat, pk) && RefsOk(k.flat, refs)
    ensures ok <==> |old(k.frames.free)| >= old(Unbuilt(k.role, child, vaddr / 4096))
    ensures if ok then PathBuilt(old(k.role), old(k.frames.free), k.role, k.frames.free, child, vaddr / 4096)
            else PathStalled(old(k.role), old(k.frames.free), k.role, child, vaddr / 4096)
    ensures NewOf(old(k.role), k.role, child)
  {
    ghost var flat0, role0 := k.flat, k.role;
    ghost var pk, ck := Key(parent, vaddr / 4096), Key(child, vaddr / 4096);
    FlatLookup(k.mem, k.role, k.flat, parent, vaddr / 4096);
    var made := MapBoth(k, parent, child, vaddr, Physical(w), ReadOnly(w));
    DemoteKeepsAll(flat0, old(k.mem), role0, k.mem, k.role, refs, pk);
    SharedLeaves(flat0, old(k.mem), role0, k.mem, k.role, pk, ck);
    ok := made == 2;
  }

  /** Demotes the parent's leaf, maps the same frame read-only in the child, and tracks it.
      The counts stay exact, but for the child's leaf when the table has no slot left for the frame. */
  method ShareLeaf(k: Kernel, parent: nat, child: nat, vaddr: nat, w: U64) returns (r: ForkResult)
    requires k.Valid() && IsRoot(k.role, parent) && IsRoot(k.role, child) && Private(vaddr / 4096) && w.present
    requires Key(parent, vaddr / 4096) in k.flat && w == k.flat[Key(parent, vaddr / 4096)] && Key(child, vaddr / 4096) !in k.flat
    modifies k`mem, k`role, k`flat, k.frames, k.frames.bitmap, k.cow`refs, k.cow.slots
    ensures k.Trees() && k.cow.Valid() && Grown(old(k.mem), old(k.role), k.mem, k.role) && LeavesOk(k.flat, k.role)
    ensures var pk, ck := Key(parent, vaddr / 4096), Key(child, vaddr / 4096);
      if r.NoFrames? then Demoted(old(k.flat), k.flat, pk) else k.flat == Shared(old(k.flat), pk, ck)
    ensures RefsOk(k.flat, k.cow.refs) <==> r != TableFull
    ensures RefsOk(k.flat - Stray(r, child, vaddr / 4096), k.cow.refs)
    ensures r == NoFrames <==> |old(k.frames.free)| < old(Unbuilt(k.role, child, vaddr / 4096))
    ensures if r != NoFrames then PathBuilt(old(k.role), old(k.frames.free), k.role, k.frames.free, child, vaddr / 4096)
            else PathStalled(old(k.role), old(k.frames.free), k.role, child, vaddr / 4096)
    ensures NewOf(old(k.role), k.role, child)
    ensures r == TableFull ==> !Tracked(old(k.cow.refs), w.frame) && |old(k.cow.refs)| == COW_SLOTS
    ensures r == Done ==> Tracked(old(k.cow.refs), w.frame) || |old(k.cow.refs)| < COW_SLOTS
    ensures k.cow.refs == if r == Done then TrackedOnce(old(k.cow.refs), Physical(w)) else old(k.cow.refs)
  {
    ghost var flat0, refs0 := k.flat, k.cow.refs;
    ghost var pk, ck := Key(parent, vaddr / 4096), Key(child, vaddr / 4096);
    var mapped := MapShared(k, parent, child, vaddr, w, refs0);
    if !mapped {
      r := NoFrames;
      assert k.flat - {} == k.flat;
    } else {
      var ok := k.cow.Track(Physical(w));
      ShareOutcome(flat0, refs0, pk, ck, ok);
      r := if ok then Done else TableFull;
      StrayOutcome(flat0, refs0, pk, ck);
      assert k.flat - {} == k.flat;
    }
  }

  lemma StrayOutcome(flat: Flat, refs: map<Ptr, int>, pk: Key, ck: Key)
    requires RefsOk(flat, refs) && pk in flat && ck !in flat
    ensures RefsOk(Shared(flat, pk, ck) - {ck}, refs)
  {
    DemoteKeepsRefs(flat, refs, pk);
    assert Shared(flat, pk, ck) - {ck} == flat[pk := ReadOnly(flat[pk])];
  }

  lemma ShareOutcome(flat: Flat, refs: map<Ptr, int>, pk: Key, ck: Key, ok: bool)
    requires RefsOk(flat, refs) && pk in flat && ck !in flat && (!ok ==> !Tracked(refs, flat[pk].frame))
    ensures RefsOk(Shared(flat, pk, ck), if ok then TrackedOnce(refs, Physical(flat[pk])) else refs) <==> ok
  {
    if ok { ShareKeepsRefs(flat, refs, pk, ck); } else { ShareUntrackedBreaksRefs(flat, refs, pk, ck); }
  }

  /** What slot i of the page table covering `base` says about the flat map. */
  lemma SlotIsLeaf(mem: Memory, role: map<nat, Role>, flat: Flat, root: nat, pt: nat, base: nat, i: nat)
    requires TablesOk(mem, role) && FlatOk(mem, role, flat) && Covers(role, pt, 1, root, base) && i < 512
    requires Private(base * 512 + i)
    ensures mem[pt][i].present <==> Key(root, base * 512 + i) in flat
    ensures mem[pt][i].present ==> flat[Key(root, base * 512 + i)] == mem[pt][i]
  {
    var v := base * 512 + i;
    PathFromRole(mem, role, root, v, pt);
    FlatLookup(mem, role, flat, root, v);
  }

  /** The parent's page table of `base` and the directory i3 it hangs from are in place. */
  ghost predicate InPlace(role: map<nat, Role>, parent: nat, pd: nat, i3: nat, pt: nat, base: nat) {
    Covers(role, pd, 2, parent, i3) && Covers(role, pt, 1, parent, base)
  }

  /** One slot of one of the parent's page tables. */
  method ForkSlot(k: Kernel, parent: nat, child: nat, pt: nat, base: nat, i1: nat, v: nat, ghost pd: nat, ghost i3: nat,
                  ghost s: Start, ghost from: nat)
    returns (r: ForkResult, at: nat, ghost upto: nat)
    requires i1 < 512 && v == base * 512 + i1 && Private(v)
    requires k.Works() && from == v && Trail(Here(k), s, parent, child, from, Done, 0) == OnTrack && InPlace(k.role, parent, pd, i3, pt, base)
    modifies k`mem, k`role, k`flat, k.frames, k.frames.bitmap, k.cow`refs, k.cow.slots
    ensures InPlace(k.role, parent, pd, i3, pt, base)
    ensures k.Works() && Trail(Here(k), s, parent, child, upto, r, at) == OnTrack && (r == Done ==> at == 0 && upto == v + 1)
  {
    assert Look(0);
    SlotIsLeaf(k.mem, k.role, k.flat, parent, pt, base, i1);
    RootsKept(s.mem, s.role, k.mem, k.role, parent, child);
    var w := k.mem[pt][i1];
    if w.present {
      ghost var mem1, role1 := k.mem, k.role;
      r := SharePage(k, parent, child, v, w, s);
      at, upto := if r == Done then 0 else v, v + 1;
      assert GrownAt(mem1, role1, k.mem, k.role, pt) && GrownAt(mem1, role1, k.mem, k.role, pd);
    } else {
      SkipPages(Here(k), s, parent, child, v, v + 1);
      r, at, upto := Done, 0, v + 1;
    }
  }

  /** One page of the parent, in the terms of the walk. */
  method SharePage(k: Kernel, parent: nat, child: nat, v: nat, w: U64, ghost s: Start) returns (r: ForkResult)
    requires Private(v) && k.Works() && Forking(Here(k), s, parent, child, v) && IsRoot(k.role, parent) && IsRoot(k.role, child)
    requires w.present && Key(parent, v) in k.flat && w == k.flat[Key(parent, v)]
    modifies k`mem, k`role, k`flat, k.frames, k.frames.bitmap, k.cow`refs, k.cow.slots
    ensures Grown(old(k.mem), old(k.role), k.mem, k.role)
    ensures k.Works() && Walked(Here(k), s, parent, child, v + 1, r, v)
  {
    assert ForkAt(s.flat, k.flat, parent, child, v, parent, v);
    ghost var h := Here(k);
    SlotsBound(k.cow);
    ForkedShare(s.flat, h.flat, parent, child, v);
    r := ShareLeaf(k, parent, child, v * 4096, w);
    SharedWalk(h, Here(k), s, parent, child, v, r);
  }

  /** What sharing one page makes of the kernel's state. */
  ghost predicate SharesPage(h: Now, h': Now, parent: nat, child: nat, v: nat, r: ForkResult)
    requires Key(parent, v) in h.flat
  {
    var pk, ck := Key(parent, v), Key(child, v);
    && Sound(h') && Grown(h.mem, h.role, h'.mem, h'.role) && NewOf(h.role, h'.role, child)
    && (if r.NoFrames? then Demoted(h.flat, h'.flat, pk) else h'.flat == Shared(h.flat, pk, ck))
    && (RefsOk(h'.flat, h'.refs) <==> r != TableFull) && RefsOk(h'.flat - Stray(r, child, v), h'.refs)
    && (r == NoFrames <==> |h.free| < Unbuilt(h.role, child, v))
    && (if r != NoFrames then PathBuilt(h.role, h.free, h'.role, h'.free, child, v) else PathStalled(h.role, h.free, h'.role, child, v))
    && (r == TableFull ==> !Tracked(h.refs, h.flat[pk].frame) && |h.refs| == COW_SLOTS)
    && h'.refs == if r == Done then TrackedOnce(h.refs, Physical(h.flat[pk])) else h.refs
  }

  lemma SharedWalk(h: Now, h': Now, s: Start, parent: nat, child: nat, v: nat, r: ForkResult)
    requires Private(v) && Forking(h, s, parent, child, v) && |h.refs| <= COW_SLOTS && Key(parent, v) in h.flat
    requires SharesPage(h, h', parent, child, v, r)
    ensures Walked(h', s, parent, child, v + 1, r, v)
  {
    assert ForkAt(s.flat, h.flat, parent, child, v, parent, v);
    GrownTrans(s.mem, s.role, h.mem, h.role, h'.mem, h'.role);
    NewOfTrans(s.role, h.mem, h.role, h'.mem, h'.role, child);
    ForkedShare(s.flat, h.flat, parent, child, v);
    if r == Done {
      SpentShare(h.role, h.free, h.refs, s, parent, child, v, h'.role, h'.free);
    } else {
      ForkedSameFrames(s.flat, h.flat, parent, child, v);
      StoppedFrames(s.flat, h.flat, h'.flat, Key(parent, v), Key(child, v), r);
      StoppedChild(s.flat, h.flat, h'.flat, parent, child, v, r);
      StopsHere(h, s, parent, child, v, r);
      StoppedLeaves(h, h', s, parent, child, v, r);
      assert forall x: Spot :: x in Spots(h'.role) ==> x in Spots(h.role) || x.root == child;
      forall f: nat ensures TrackAt(s.flat, s.refs, h'.refs, parent, v, f) {
        assert TrackAt(s.flat, s.refs, h.refs, parent, v, f);
      }
    }
  }

  lemma StoppedLeaves(h: Now, h': Now, s: Start, parent: nat, child: nat, v: nat, r: ForkResult)
    requires Forking(h, s, parent, child, v) && Key(parent, v) in h.flat && SharesPage(h, h', parent, child, v, r) && r != Done
    ensures StopLeaves(h', s, parent, child, v)
  {
    assert ForkAt(s.flat, h.flat, parent, child, v, parent, v);
    StillUntracked(h.role, h.free, h.refs, s, parent, child, v);
    forall k ensures StopAt(h', s, parent, child, v, k) {
      if k.root != child && k != Key(parent, v) && k in h'.flat {
        assert k == Key(k.root, k.vpn);
        WalkStorable(h, s, parent, child, v, k);
      }
    }
  }

  /** A page outside the child that could be stored to before the walk still can, and every page shared can. */
  lemma WalkStorable(h: Now, s: Start, parent: nat, child: nat, cur: nat, k: Key)
    requires Forking(h, s, parent, child, cur)
    ensures StorableAt(s.flat, s.refs, if k.root == child then Key(parent, k.vpn) else k) ==> StorableAt(h.flat, h.refs, k)
  {
    var l := Key(parent, k.vpn);
    assert k == Key(k.root, k.vpn);
    assert ForkAt(s.flat, h.flat, parent, child, cur, k.root, k.vpn);
    if k in h.flat {
      assert TrackAt(s.flat, s.refs, h.refs, parent, cur, h.flat[k].frame);
      if (k.root == parent || k.root == child) && k.vpn < cur {
        assert l in s.flat && s.flat[l].frame == h.flat[k].frame;
        assert FrameBelow(s.flat, parent, cur, h.flat[k].frame);
      }
    }
  }

  lemma ForkStorable(h: Now, s: Start, parent: nat, child: nat)
    requires Forking(h, s, parent, child, HI) && Storable(s.flat, s.refs)
    ensures Storable(h.flat, h.refs)
  {
    forall k ensures StorableAt(h.flat, h.refs, k) {
      assert StorableAt(s.flat, s.refs, if k.root == child then Key(parent, k.vpn) else k);
      WalkStorable(h, s, parent, child, HI, k);
    }
  }

  lemma NewOfTrans(role0: map<nat, Role>, mem1: Memory, role1: map<nat, Role>, mem: Memory, role: map<nat, Role>, root: nat)
    requires NewOf(role0, role1, root) && NewOf(role1, role, root) && Grown(mem1, role1, mem, role)
    ensures NewOf(role0, role, root)
  {
    forall f | f in role && f !in role0 ensures role[f].Table? && role[f].root == root {
      assert GrownAt(mem1, role1, mem, role, f);
    }
  }

  lemma StopsHere(h: Now, s: Start, parent: nat, child: nat, v: nat, r: ForkResult)
    requires Private(v) && Forking(h, s, parent, child, v) && |h.refs| <= COW_SLOTS && Key(parent, v) in s.flat && r != Done
    requires r == NoFrames <==> |h.free| < Unbuilt(h.role, child, v)
    requires r == TableFull ==> !Tracked(h.refs, s.flat[Key(parent, v)].frame) && |h.refs| == COW_SLOTS
    ensures Stops(s, parent, v, r)
  {
    UnbuiltIs(h.role, h.free, h.refs, s, parent, child, v);
    StillUntracked(h.role, h.free, h.refs, s, parent, child, v);
    var next := v + 1;
    assert TablesTo(s.flat, parent, next) == TablesTo(s.flat, parent, v) + NewTables(s.flat, parent, v);
    assert Untracked(s.flat, s.refs, Key(parent, v)) ==> SlotsTo(s.flat, s.refs, parent, next) == SlotsTo(s.flat, s.refs, parent, v) + 1;
  }

  lemma StoppedChild(flat0: Flat, flat1: Flat, flat: Flat, parent: nat, child: nat, v: nat, r: ForkResult)
    requires parent != child && Forked(flat0, flat1, parent, child, v) && Key(parent, v) in flat0 && Key(parent, v) in flat1
    requires if r.NoFrames? then Demoted(flat1, flat, Key(parent, v)) else flat == Shared(flat1, Key(parent, v), Key(child, v))
    ensures ChildLeaves(flat0, flat, parent, child, if r.NoFrames? then v else v + 1)
  {
    var end := if r.NoFrames? then v else v + 1;
    assert ForkAt(flat0, flat1, parent, child, v, parent, v);
    forall u: nat ensures ChildAt(flat0, flat, parent, child, end, u) {
      assert ForkAt(flat0, flat1, parent, child, v, child, u);
    }
  }

  /** A stretch without pages. */
  lemma SkipPages(h: Now, s: Start, parent: nat, child: nat, a: nat, b: nat)
    requires a <= b && Forking(h, s, parent, child, a)
    requires forall v: nat :: a <= v < b ==> Key(parent, v) !in h.flat
    ensures Forking(h, s, parent, child, b)
  {
    ForkedSkip(s.flat, h.flat, parent, child, a, b);
    forall v: nat | a <= v < b ensures Key(parent, v) !in s.flat {
      assert ForkAt(s.flat, h.flat, parent, child, a, parent, v);
    }
    SpentSkip(h.role, h.free, h.refs, s, parent, child, a, b);
  }

  lemma RootsKept(mem0: Memory, role0: map<nat, Role>, mem: Memory, role: map<nat, Role>, r: nat, s: nat)
    requires Grown(mem0, role0, mem, role) && IsRoot(role0, r) && IsRoot(role0, s)
    ensures IsRoot(role, r) && IsRoot(role, s)
  {
    assert GrownAt(mem0, role0, mem, role, r) && GrownAt(mem0, role0, mem, role, s);
  }

  lemma ForkedSameFrames(flat0: Flat, flat: Flat, parent: nat, child: nat, cur: nat)
    requires FreshChild(flat0, child) && Forked(flat0, flat, parent, child, cur)
    ensures SameFrames(flat0, flat, child)
  {
    forall k ensures SameFrameAt(flat0, flat, child, k) {
      assert ForkAt(flat0, flat, parent, child, cur, k.root, k.vpn);
      assert k == Key(k.root, k.vpn);
    }
  }

  lemma StoppedFrames(flat0: Flat, flat1: Flat, flat: Flat, pk: Key, ck: Key, r: ForkResult)
    requires SameFrames(flat0, flat1, ck.root) && pk in flat1 && ck !in flat1
    requires if r.NoFrames? then Demoted(flat1, flat, pk) else flat == Shared(flat1, pk, ck)
    ensures SameFrames(flat0, flat, ck.root)
  {
    forall k ensures SameFrameAt(flat0, flat, ck.root, k) { assert SameFrameAt(flat0, flat1, ck.root, k); }
  }

  /** One of the parent's page tables. */
  method ForkPageTable(k: Kernel, parent: nat, child: nat, pt: nat, base: nat, start: nat, ghost pd: nat, ghost i3: nat,
                       ghost s: Start, ghost from: nat)
    returns (r: ForkResult, at: nat, ghost upto: nat)
    requires start == base * 512 && LO <= start && start + 512 <= HI
    requires k.Works() && from == start && Trail(Here(k), s, parent, child, from, Done, 0) == OnTrack && InPlace(k.role, parent, pd, i3, pt, base)
    modifies k`mem, k`role, k`flat, k.frames, k.frames.bitmap, k.cow`refs, k.cow.slots
    ensures Covers(k.role, pd, 2, parent, i3)
    ensures k.Works() && Trail(Here(k), s, parent, child, upto, r, at) == OnTrack && (r == Done ==> at == 0 && upto == start + 512)
  {
    var i1 := 0;
    var v := start;
    r, at, upto := Done, 0, from;
    while i1 < 512 && r == Done
      invariant 0 <= i1 <= 512 && v == start + i1 && InPlace(k.role, parent, pd, i3, pt, base)
      invariant k.Works() && Trail(Here(k), s, parent, child, upto, r, at) == OnTrack && (r == Done ==> at == 0 && upto == v)
      decreases 512 - i1
    {
      r, at, upto := ForkSlot(k, parent, child, pt, base, i1, v, pd, i3, s, upto);
      i1, v := i1 + 1, v + 1;
    }
    assert r == Done ==> v == start + 512;
  }

  lemma PageOfSlot(i3: nat, i2: nat, v: nat)
    requires i2 < 512 && (i3 * 512 + i2) * 512 <= v < (i3 * 512 + i2) * 512 + 512
    ensures I3(v) == i3 && I2(v) == i2
  {
    assert v / 512 == i3 * 512 + i2;
  }

  /** An absent page-directory slot covers no mapped page. */
  lemma AbsentTable(mem: Memory, role: map<nat, Role>, flat: Flat, root: nat, pd: nat, i3: nat, i2: nat)
    requires TablesOk(mem, role) && FlatOk(mem, role, flat) && Covers(role, pd, 2, root, i3) && 2 <= i3 < 512 && i2 < 512
    requires !mem[pd][i2].present
    ensures forall v: nat :: (i3 * 512 + i2) * 512 <= v < (i3 * 512 + i2) * 512 + 512 ==> Key(root, v) !in flat
  {
    forall v: nat | (i3 * 512 + i2) * 512 <= v < (i3 * 512 + i2) * 512 + 512 ensures Key(root, v) !in flat {
      PageOfSlot(i3, i2, v);
      PdFromRole(mem, role, root, v, pd, i3);
      FlatLookup(mem, role, flat, root, v);
    }
  }

  lemma AbsentDirectory(mem: Memory, role: map<nat, Role>, flat: Flat, root: nat, i3: nat)
    requires TablesOk(mem, role) && FlatOk(mem, role, flat) && IsRoot(role, root) && 2 <= i3 < 512
    requires !Entry(mem, Pdpt(mem, root), i3).present
    ensures forall v: nat :: i3 * 262144 <= v < i3 * 262144 + 262144 ==> Key(root, v) !in flat
  {
    forall v: nat | i3 * 262144 <= v < i3 * 262144 + 262144 ensures Key(root, v) !in flat {
      FlatLookup(mem, role, flat, root, v);
    }
  }

  /** One slot of one of the parent's page directories. */
  method ForkDirectorySlot(k: Kernel, parent: nat, child: nat, pd: nat, i3: nat, i2: nat, start: nat,
                           ghost s: Start, ghost from: nat)
    returns (r: ForkResult, at: nat, ghost upto: nat)
    requires 2 <= i3 < 512 && i2 < 512 && start == (i3 * 512 + i2) * 512
    requires k.Works() && from == start && Trail(Here(k), s, parent, child, from, Done, 0) == OnTrack && Covers(k.role, pd, 2, parent, i3)
    modifies k`mem, k`role, k`flat, k.frames, k.frames.bitmap, k.cow`refs, k.cow.slots
    ensures Covers(k.role, pd, 2, parent, i3)
    ensures k.Works() && Trail(Here(k), s, parent, child, upto, r, at) == OnTrack && (r == Done ==> at == 0 && upto == start + 512)
  {
    assert Look(0);
    assert LinkOk(k.mem, k.role, pd, i2);
    var entry := k.mem[pd][i2];
    if entry.present {
      r, at, upto := ForkPageTable(k, parent, child, entry.frame, i3 * 512 + i2, start, pd, i3, s, from);
    } else {
      AbsentTable(k.mem, k.role, k.flat, parent, pd, i3, i2);
      SkipPages(Here(k), s, parent, child, start, start + 512);
      r, at, upto := Done, 0, start + 512;
    }
  }

  /** One of the parent's page directories. */
  method ForkDirectory(k: Kernel, parent: nat, child: nat, pd: nat, i3: nat, start: nat,
                       ghost s: Start, ghost from: nat)
    returns (r: ForkResult, at: nat, ghost upto: nat)
    requires 2 <= i3 < 512 && start == i3 * 262144
    requires k.Works() && from == start && Trail(Here(k), s, parent, child, from, Done, 0) == OnTrack && Covers(k.role, pd, 2, parent, i3)
    modifies k`mem, k`role, k`flat, k.frames, k.frames.bitmap, k.cow`refs, k.cow.slots
    ensures k.Works() && Trail(Here(k), s, parent, child, upto, r, at) == OnTrack && (r == Done ==> at == 0 && upto == start + 262144)
  {
    var i2 := 0;
    r, at, upto := Done, 0, from;
    var cur := start;
    while i2 < 512 && r == Done
      invariant 0 <= i2 <= 512 && cur == start + i2 * 512
      invariant Covers(k.role, pd, 2, parent, i3)
      invariant k.Works() && Trail(Here(k), s, parent, child, upto, r, at) == OnTrack && (r == Done ==> at == 0 && upto == cur)
      decreases 512 - i2
    {
      r, at, upto := ForkDirectorySlot(k, parent, child, pd, i3, i2, cur, s, upto);
      i2, cur := i2 + 1, cur + 512;
    }
    assert r == Done ==> cur == start + 262144;
  }

  /** One slot of the parent's PDPT. */
  method ForkPdptSlot(k: Kernel, parent: nat, child: nat, i3: nat, start: nat,
                      ghost s: Start, ghost from: nat)
    returns (r: ForkResult, at: nat, ghost upto: nat)
    requires 2 <= i3 < 512 && start == i3 * 262144
    requires k.Works() && from == start && Trail(Here(k), s, parent, child, from, Done, 0) == OnTrack
    modifies k`mem, k`role, k`flat, k.frames, k.frames.bitmap, k.cow`refs, k.cow.slots
    ensures k.Works() && Trail(Here(k), s, parent, child, upto, r, at) == OnTrack && (r == Done ==> at == 0 && upto == start + 262144)
  {
    assert Look(0);
    RootsKept(s.mem, s.role, k.mem, k.role, parent, child);
    WalkRoles(k.mem, k.role, parent, start);
    var pdpt := k.mem[parent][0].frame;
    var entry := k.mem[pdpt][i3];
    assert LinkOk(k.mem, k.role, pdpt, i3);
    if entry.present {
      r, at, upto := ForkDirectory(k, parent, child, entry.frame, i3, start, s, from);
    } else {
      AbsentDirectory(k.mem, k.role, k.flat, parent, i3);
      SkipPages(Here(k), s, parent, child, start, start + 262144);
      r, at, upto := Done, 0, start + 262144;
    }
  }

  // ---------- the child's tables ----------

  /** The tables that map as many pages in the child as the parent has. */
  ghost function ForkSpots(flat: Flat, parent: nat, child: nat): set<Spot> {
    (set k | k in flat && k.root == parent :: Spot(1, child, k.vpn / 512))
    + (set k | k in flat && k.root == parent :: Spot(2, child, I3(k.vpn)))
  }

  lemma ForkSpotIff(flat: Flat, parent: nat, child: nat, b: nat)
    requires forall k :: k in flat ==> k.vpn < HI
    ensures Spot(1, child, b) in ForkSpots(flat, parent, child) <==> LeafIn(flat, parent, b * 512, Min(b * 512 + 512, HI))
    ensures Spot(2, child, b) in ForkSpots(flat, parent, child) <==> LeafIn(flat, parent, b * 262144, Min(b * 262144 + 262144, HI))
  {
    if Spot(1, child, b) in ForkSpots(flat, parent, child) {
      var k :| k in flat && k.root == parent && Spot(1, child, k.vpn / 512) == Spot(1, child, b);
      assert k == Key(parent, k.vpn) && b * 512 <= k.vpn < b * 512 + 512;
    }
    if Spot(2, child, b) in ForkSpots(flat, parent, child) {
      var k :| k in flat && k.root == parent && Spot(2, child, I3(k.vpn)) == Spot(2, child, b);
      assert k == Key(parent, k.vpn) && b * 262144 <= k.vpn < b * 262144 + 262144;
    }
    if LeafIn(flat, parent, b * 512, Min(b * 512 + 512, HI)) {
      var u: nat :| b * 512 <= u < Min(b * 512 + 512, HI) && Key(parent, u) in flat;
      assert Spot(1, child, Key(parent, u).vpn / 512) == Spot(1, child, b);
    }
    if LeafIn(flat, parent, b * 262144, Min(b * 262144 + 262144, HI)) {
      var u: nat :| b * 262144 <= u < Min(b * 262144 + 262144, HI) && Key(parent, u) in flat;
      assert Spot(2, child, I3(Key(parent, u).vpn)) == Spot(2, child, b);
    }
  }

  lemma SpotLevels(mem: Memory, role: map<nat, Role>, x: Spot)
    requires TablesOk(mem, role) && x in Spots(role)
    ensures 1 <= x.level <= 3
  {
    var f := SpotCovered(role, x);
    assert HangsAt(mem, role, f, role[f]);
  }

  /** When the walk is over, the child has exactly the tables its pages need. */
  lemma ForkedSpots(h: Now, s: Start, parent: nat, child: nat)
    requires Forking(h, s, parent, child, HI) && Bare(s.role, child) && TablesOk(s.mem, s.role)
    requires forall k :: k in s.flat ==> k.vpn < HI
    ensures Spots(h.role) == Spots(s.role) + ForkSpots(s.flat, parent, child)
  {
    forall x: Spot ensures x in Spots(h.role) <==> x in Spots(s.role) + ForkSpots(s.flat, parent, child) {
      ForkSpotIff(s.flat, parent, child, x.base);
      assert BuiltAt(h.role, s.flat, parent, child, HI, x.base);
      if x in Spots(h.role) { SpotLevels(h.mem, h.role, x); }
      if x in Spots(s.role) { SpotLevels(s.mem, s.role, x); }
      assert x == Spot(x.level, x.root, x.base);
    }
  }

  ghost function StartOf(k: Kernel): Start
    reads k, k.frames, k.cow
  {
    Start(k.mem, k.role, k.flat, k.cow.refs, |k.frames.free|)
  }

  /** Shares every private page of the parent with an empty child: exactly when frames and slots last. Every
      process then reads exactly what it would read had fork copied all of the parent's memory. */
  method CloneAddressSpaceCow(k: Kernel, parent: nat, child: nat) returns (r: ForkResult, at: nat)
    requires k.Valid() && IsRoot(k.role, parent) && IsRoot(k.role, child) && parent != child && FreshChild(k.flat, child)
    requires Bare(k.role, child)
    modifies k`mem, k`role, k`flat, k.frames, k.frames.bitmap, k.cow`refs, k.cow.slots
    ensures SameRoots(old(k.role), k.role)
    ensures r == Done <==> Reaches(old(StartOf(k)), parent, HI)
    ensures r == Done ==> k.Valid() && Forked(old(k.flat), k.flat, parent, child, HI)
    ensures r == Done ==> View(k.mem, k.flat) == EagerFork(old(View(k.mem, k.flat)), parent, child)
    ensures r == Done && old(Storable(k.flat, k.cow.refs)) ==> Storable(k.flat, k.cow.refs)
    ensures r == Done ==> Tracks(Here(k), old(StartOf(k)), parent, HI)
    ensures r == Done ==> Spots(k.role) == Spots(old(k.role)) + ForkSpots(old(k.flat), parent, child)
    ensures KernelFrames(k.role) == KernelFrames(old(k.role)) && Extends(old(k.role), k.role, child)
    ensures r != Done ==> k.Works() && ForkStopped(Here(k), old(StartOf(k)), parent, child, r, at)
  {
    ghost var s := StartOf(k);
    ghost var upto := LO;
    ForkedStart(k.mem, k.role, k.flat, parent, child);
    SpentStart(k.role, k.frames.free, s, parent, child);
    GrownSelf(k.mem, k.role);
    var i3 := 2;
    var cur := LO;
    r, at := Done, 0;
    while i3 < 512 && r == Done
      invariant 2 <= i3 <= 512 && cur == i3 * 262144
      invariant k.Works() && Trail(Here(k), s, parent, child, upto, r, at) == OnTrack && (r == Done ==> at == 0 && upto == cur)
      decreases 512 - i3
    {
      r, at, upto := ForkPdptSlot(k, parent, child, i3, cur, s, upto);
      i3, cur := i3 + 1, cur + 262144;
    }
    assert Look(0);
    GrownMeans(s.mem, s.role, k.mem, k.role);
    GrownKernel(s.mem, s.role, k.mem, k.role);
    GrownExtends(s.mem, s.role, k.mem, k.role, child);
    if r == Done {
      ForkedSpots(Here(k), s, parent, child);
      ForkedView(s.mem, k.mem, s.role, s.flat, k.flat, parent, child);
      SlotsBound(k.cow);
      if Storable(s.flat, s.refs) {
        ForkStorable(Here(k), s, parent, child);
      }
    } else {
      StopIsFinal(s, parent, at, r);
    }
  }

  /** Once something has run out, the whole fork does not fit. */
  lemma StopIsFinal(s: Start, parent: nat, at: nat, r: ForkResult)
    requires r != Done && Stops(s, parent, at, r)
    ensures !Reaches(s, parent, HI)
  {
    CostsGrow(s.flat, s.refs, parent, at + 1, HI);
  }

  lemma SlotsBound(c: CowTable)
    requires c.Valid()
    ensures |c.refs| <= COW_SLOTS
  {
    SizeIsUsedCount(c.slots[..], c.refs);
    CountBounds(c.slots[..], COW_SLOTS, 0);
  }

  lemma SpentStart(role: map<nat, Role>, free: set<nat>, s: Start, parent: nat, child: nat)
    requires Bare(role, child) && role == s.role && s.frames == |free| && forall k :: k in s.flat ==> LO <= k.vpn
    ensures Spent(role, free, s.refs, s, parent, child, LO)
  {
    assert !LeafIn(s.flat, parent, 0, LO);
    assert Spent(role, free, s.refs, s, parent, child, 0) by {
      forall b: nat ensures BuiltAt(role, s.flat, parent, child, 0, b) {
      }
      forall f: nat ensures TrackAt(s.flat, s.refs, s.refs, parent, 0, f) {
      }
    }
    SpentSkip(role, free, s.refs, s, parent, child, 0, LO);
  }

  lemma ForkedStart(mem: Memory, role: map<nat, Role>, flat: Flat, parent: nat, child: nat)
    requires FlatOk(mem, role, flat) && FreshChild(flat, child)
    ensures Forked(flat, flat, parent, child, LO)
    ensures forall k :: k in flat ==> LO <= k.vpn < HI
  {
    forall k | k in flat ensures LO <= k.vpn < HI {
      assert FlatAt(mem, role, flat, k.root, k.vpn);
    }
    forall r: nat, v: nat ensures ForkAt(flat, flat, parent, child, LO, r, v) {
      assert FlatAt(mem, role, flat, parent, v);
      assert Key(child, v) !in flat;
    }
  }
}
