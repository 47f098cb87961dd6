/** Address-space teardown: which frames are freed, and exactly when the reference counts
    survive it. */
module CowExit {
  import opened PageModel
  import opened Frames
  import opened Cow
  import opened CowModel
  import opened Paging
  import opened WriteFault
  import opened ForkWalk
  import opened CowFork

  /** Page k of the exiting space is no-execute and its frame is tracked. The teardown reads
      the frame pointer with bit 63 still in it and misses the table entry. */
  ghost predicate Missed(flat: Flat, refs: map<Ptr, int>, root: nat, k: Key) {
    k in flat && k.root == root && flat[k].nx && Tracked(refs, flat[k].frame)
  }

  ghost predicate NoneMissed(flat: Flat, refs: map<Ptr, int>, root: nat) {
    forall k {:trigger Missed(flat, refs, root, k)} :: !Missed(flat, refs, root, k)
  }

  /** A teardown: the space, its leaves that were shared without a slot, and what was free and tracked before. */
  datatype Leaving = Leaving(root: nat, stray: set<Key>, free: set<nat>, refs: map<Ptr, int>)

  /** A leaf shared without a slot belongs to the space, and another leaf maps its untracked frame. */
  ghost predicate StrayAt(flat: Flat, x: Leaving, k: Key) {
    k in x.stray ==> k in flat && k.root == x.root && !Tracked(x.refs, flat[k].frame)
                     && exists l :: l in flat && l !in x.stray && flat[l].frame == flat[k].frame
  }

  ghost predicate StraysOk(flat: Flat, x: Leaving) {
    forall k {:trigger StrayAt(flat, x, k)} :: StrayAt(flat, x, k)
  }

  /** The teardown frees the frame of leaf k at once, whoever else maps it. */
  ghost predicate Lost(flat: Flat, x: Leaving, k: Key) {
    k in flat && (Missed(flat, x.refs, x.root, k) || k in x.stray)
  }

  ghost predicate LostBelow(flat: Flat, x: Leaving, cur: nat, f: nat) {
    exists k :: Lost(flat, x, k) && k.vpn < cur && flat[k].frame == f
  }

  /** The leaves whose reference the table still holds: those not reached yet, and the missed ones. */
  ghost predicate CountedAt(flat: Flat, counted: Flat, x: Leaving, refs: map<Ptr, int>, cur: nat, k: Key) {
    && (k in counted <==> k in flat && k !in x.stray && (k.root != x.root || cur <= k.vpn || Missed(flat, x.refs, x.root, k)))
    && (k in counted ==> counted[k] == flat[k] && (Tracked(refs, flat[k].frame) <==> Tracked(x.refs, flat[k].frame)))
  }

  ghost predicate Counted(flat: Flat, counted: Flat, x: Leaving, refs: map<Ptr, int>, cur: nat) {
    && (forall k {:trigger CountedAt(flat, counted, x, refs, cur, k)} :: CountedAt(flat, counted, x, refs, cur, k))
    && (forall f: nat {:trigger Tracked(refs, f)} :: Tracked(refs, f) ==> Tracked(x.refs, f))
  }

  /** Which frames have been freed: what was free, the exiting space's page tables below b1 and directories
      below b2, and of the data frames those nobody counts any more and those of the lost leaves passed. */
  ghost predicate FreedAt(flat: Flat, role: map<nat, Role>, x: Leaving, free: set<nat>, counted: Flat, cur: nat, b1: nat, b2: nat, f: nat) {
    if f !in role then f in free <==> f in x.free
    else match role[f]
      case Data => f in free <==> Refs(counted, f) == {} || LostBelow(flat, x, cur, f)
      case Table(level, r, _, _, base) =>
        f in free <==> r == x.root && ((level == 1 && base < b1) || (level == 2 && base < b2))
      case _ => f !in free
  }

  ghost predicate Freed(flat: Flat, role: map<nat, Role>, x: Leaving, free: set<nat>, counted: Flat, cur: nat, b1: nat, b2: nat) {
    forall f: nat {:trigger FreedAt(flat, role, x, free, counted, cur, b1, b2, f)} :: FreedAt(flat, role, x, free, counted, cur, b1, b2, f)
  }

  // ---------- one leaf ----------

  lemma LostNext(flat: Flat, x: Leaving, v: nat, f: nat)
    ensures LostBelow(flat, x, v + 1, f)
       <==> LostBelow(flat, x, v, f) || exists k :: Lost(flat, x, k) && k.vpn == v && flat[k].frame == f
  {
    var next := v + 1;
    if LostBelow(flat, x, next, f) {
      var k :| Lost(flat, x, k) && k.vpn < next && flat[k].frame == f;
      assert k.vpn < v || k.vpn == v;
    }
    if LostBelow(flat, x, v, f) {
      var k :| Lost(flat, x, k) && k.vpn < v && flat[k].frame == f;
      assert k.vpn < next;
    }
  }

  lemma LostIsOurs(flat: Flat, x: Leaving, k: Key, v: nat)
    requires StraysOk(flat, x) && Lost(flat, x, k) && k.vpn == v
    ensures k == Key(x.root, v)
  {
    assert StrayAt(flat, x, k);
  }

  /** The frame of a lost leaf is freed at once, and the table is not touched. */
  lemma LostLeaf(flat: Flat, counted: Flat, role: map<nat, Role>, x: Leaving, refs: map<Ptr, int>, free: set<nat>, v: nat, b1: nat, b2: nat)
    requires LeavesOk(flat, role) && RefsOk(counted, refs) && StraysOk(flat, x) && Counted(flat, counted, x, refs, v)
    requires Lost(flat, x, Key(x.root, v)) && Freed(flat, role, x, free, counted, v, b1, b2)
    ensures Pointer(flat[Key(x.root, v)]) !in refs
    ensures Counted(flat, counted, x, refs, v + 1)
    ensures Freed(flat, role, x, free + {flat[Key(x.root, v)].frame}, counted, v + 1, b1, b2)
  {
    var k, next := Key(x.root, v), v + 1;
    assert StrayAt(flat, x, k) && CountAt(counted, refs, Pointer(flat[k])) && LeafAt(flat, role, k);
    assert Tracked(refs, flat[k].frame) ==> Tracked(x.refs, flat[k].frame);
    forall l ensures CountedAt(flat, counted, x, refs, next, l) {
      assert CountedAt(flat, counted, x, refs, v, l);
      assert l.root == x.root && l.vpn == v ==> l == k;
    }
    var free' := free + {flat[k].frame};
    forall f: nat ensures FreedAt(flat, role, x, free', counted, next, b1, b2, f) {
      assert FreedAt(flat, role, x, free, counted, v, b1, b2, f);
      LostNext(flat, x, v, f);
      forall l | Lost(flat, x, l) && l.vpn == v ensures l == k {
        LostIsOurs(flat, x, l, v);
      }
    }
  }

  /** Any other leaf gives back its reference, and its frame if that was the last. */
  lemma PlainLeaf(flat: Flat, counted: Flat, role: map<nat, Role>, x: Leaving, refs: map<Ptr, int>, free: set<nat>, v: nat, b1: nat, b2: nat)
    requires LeavesOk(flat, role) && RefsOk(counted, refs) && StraysOk(flat, x) && Counted(flat, counted, x, refs, v)
    requires Key(x.root, v) in flat && !Lost(flat, x, Key(x.root, v)) && Freed(flat, role, x, free, counted, v, b1, b2)
    ensures var w := flat[Key(x.root, v)];
      var freeIt := Physical(w) !in refs || refs[Physical(w)] <= 1;
      && RefsOk(counted - {Key(x.root, v)}, Dropped(refs, Physical(w)))
      && Counted(flat, counted - {Key(x.root, v)}, x, Dropped(refs, Physical(w)), v + 1)
      && Freed(flat, role, x, if freeIt then free + {w.frame} else free, counted - {Key(x.root, v)}, v + 1, b1, b2)
  {
    var k := Key(x.root, v);
    assert CountedAt(flat, counted, x, refs, v, k);
    RemoveKeepsRefs(counted, refs, k);
    RemoveCounted(flat, counted, x, refs, v);
    RemoveFreed(flat, role, x, free, counted, refs, v, b1, b2);
  }

  lemma RemoveCounted(flat: Flat, counted: Flat, x: Leaving, refs: map<Ptr, int>, v: nat)
    requires Counted(flat, counted, x, refs, v) && RefsOk(counted, refs)
    requires Key(x.root, v) in flat && Key(x.root, v) in counted && !Lost(flat, x, Key(x.root, v))
    ensures Counted(flat, counted - {Key(x.root, v)}, x, Dropped(refs, Physical(flat[Key(x.root, v)])), v + 1)
  {
    var key := Key(x.root, v);
    var counted', next := counted - {key}, v + 1;
    var p := Physical(flat[key]);
    var refs' := Dropped(refs, p);
    assert CountedAt(flat, counted, x, refs, v, key);
    assert CountAt(counted, refs, p);
    forall k ensures CountedAt(flat, counted', x, refs', next, k) {
      assert CountedAt(flat, counted, x, refs, v, k);
      assert k.root == x.root && k.vpn == v ==> k == key;
      if k in counted' && flat[k].frame == p.frame && p in refs {
        assert {k, key} <= Refs(counted, p.frame);
        SubsetCard({k, key}, Refs(counted, p.frame));
        assert |{k, key}| == 2;
      }
    }
    forall f: nat | Tracked(refs', f) ensures Tracked(x.refs, f) {
      assert Tracked(refs, f);
    }
  }

  lemma RemoveFreed(flat: Flat, role: map<nat, Role>, x: Leaving, free: set<nat>, counted: Flat, refs: map<Ptr, int>, v: nat, b1: nat, b2: nat)
    requires LeavesOk(flat, role) && RefsOk(counted, refs) && StraysOk(flat, x) && Freed(flat, role, x, free, counted, v, b1, b2)
    requires var k := Key(x.root, v); k in flat && k in counted && counted[k] == flat[k] && !Lost(flat, x, k)
    ensures var k := Key(x.root, v);
      var freeIt := Physical(flat[k]) !in refs || refs[Physical(flat[k])] <= 1;
      Freed(flat, role, x, if freeIt then free + {flat[k].frame} else free, counted - {k}, v + 1, b1, b2)
  {
    var k, next := Key(x.root, v), v + 1;
    assert LeafAt(flat, role, k);
    RemoveKeepsRefs(counted, refs, k);
    var p := Physical(flat[k]);
    var free' := if p !in refs || refs[p] <= 1 then free + {p.frame} else free;
    var counted' := counted - {k};
    assert k in Refs(counted, p.frame);
    forall f: nat ensures FreedAt(flat, role, x, free', counted', next, b1, b2, f) {
      assert FreedAt(flat, role, x, free, counted, v, b1, b2, f);
      RefsAfterRemove(counted, k, f);
      LostNext(flat, x, v, f);
      forall l | Lost(flat, x, l) && l.vpn == v ensures l == k {
        LostIsOurs(flat, x, l, v);
      }
    }
  }

  // ---------- the walk ----------

  ghost predicate Exiting(h: Now, x: Leaving, cur: nat, b1: nat, b2: nat, counted: Flat) {
    && StateOk(h.mem, h.role, h.flat, x.free, h.boot) && LeavesOk(h.flat, h.role) && IsRoot(h.role, x.root)
    && StraysOk(h.flat, x) && RefsOk(counted, h.refs) && Counted(h.flat, counted, x, h.refs, cur)
    && Freed(h.flat, h.role, x, h.free, counted, cur, b1, b2)
  }

  /** The same as one value for the loops that hand it on. */
  ghost function ExitTrail(h: Now, x: Leaving, cur: nat, b1: nat, b2: nat, counted: Flat): Track {
    if forall y: nat {:trigger Look(y)} :: Look(y) ==> Exiting(h, x, cur, b1, b2, counted) then OnTrack else Astray
  }

  /** A stretch without pages. */
  lemma SkipRange(h: Now, x: Leaving, a: nat, b: nat, b1: nat, b2: nat, counted: Flat)
    requires a <= b && Exiting(h, x, a, b1, b2, counted)
    requires forall v: nat :: a <= v < b ==> Key(x.root, v) !in h.flat
    ensures Exiting(h, x, b, b1, b2, counted)
  {
    forall k ensures CountedAt(h.flat, counted, x, h.refs, b, k) {
      assert CountedAt(h.flat, counted, x, h.refs, a, k);
      assert k == Key(k.root, k.vpn);
    }
    forall f: nat ensures FreedAt(h.flat, h.role, x, h.free, counted, b, b1, b2, f) {
      assert FreedAt(h.flat, h.role, x, h.free, counted, a, b1, b2, f);
      LostSkip(h.flat, x, a, b, f);
    }
  }

  lemma LostSkip(flat: Flat, x: Leaving, a: nat, b: nat, f: nat)
    requires a <= b && StraysOk(flat, x) && forall v: nat :: a <= v < b ==> Key(x.root, v) !in flat
    ensures LostBelow(flat, x, b, f) <==> LostBelow(flat, x, a, f)
  {
    if LostBelow(flat, x, b, f) {
      var k :| Lost(flat, x, k) && k.vpn < b && flat[k].frame == f;
      LostIsOurs(flat, x, k, k.vpn);
      assert k.vpn < a;
    }
    if LostBelow(flat, x, a, f) {
      var k :| Lost(flat, x, k) && k.vpn < a && flat[k].frame == f;
      assert k.vpn < b;
    }
  }

  /** One leaf of the exiting space. */
  method ExitLeaf(k: Kernel, v: nat, w: U64, ghost x: Leaving, ghost b1: nat, ghost b2: nat, ghost counted: Flat) returns (ghost counted': Flat)
    requires k.Works() && Exiting(Here(k), x, v, b1, b2, counted) && Key(x.root, v) in k.flat && w == k.flat[Key(x.root, v)]
    modifies k.frames, k.frames.bitmap, k.cow`refs, k.cow.slots
    ensures k.Works() && Exiting(Here(k), x, v + 1, b1, b2, counted')
  {
    ghost var h, key := Here(k), Key(x.root, v);
    assert LeafAt(k.flat, k.role, key) && CountedAt(h.flat, counted, x, h.refs, v, key) && CountAt(counted, h.refs, Pointer(w));
    if Lost(h.flat, x, key) {
      counted' := counted;
      LostLeaf(h.flat, counted, h.role, x, h.refs, h.free, v, b1, b2);
    } else {
      counted' := counted - {key};
      PlainLeaf(h.flat, counted, h.role, x, h.refs, h.free, v, b1, b2);
    }
    var leafFrame := Pointer(w);
    var doFree := k.cow.ShouldFree(leafFrame);
    if doFree {
      k.frames.FreeFrame(leafFrame);
    }
  }

  /** One slot of one page table. */
  method ExitSlot(k: Kernel, root: nat, pt: nat, base: nat, i1: nat, v: nat, ghost x: Leaving, ghost b1: nat, ghost b2: nat,
                  ghost counted: Flat, ghost from: nat) returns (ghost counted': Flat, ghost upto: nat)
    requires i1 < 512 && v == base * 512 + i1 && Private(v) && Covers(k.role, pt, 1, root, base) && root == x.root
    requires k.Works() && from == v && ExitTrail(Here(k), x, from, b1, b2, counted) == OnTrack
    modifies k.frames, k.frames.bitmap, k.cow`refs, k.cow.slots
    ensures k.Works() && upto == v + 1 && ExitTrail(Here(k), x, upto, b1, b2, counted') == OnTrack
  {
    assert Look(0);
    SlotIsLeaf(k.mem, k.role, k.flat, root, pt, base, i1);
    var w := k.mem[pt][i1];
    upto := v + 1;
    if w.present {
      counted' := ExitLeaf(k, v, w, x, b1, b2, counted);
    } else {
      SkipRange(Here(k), x, v, upto, b1, b2, counted);
      counted' := counted;
    }
  }

  /** One page table. */
  method ExitPageTable(k: Kernel, root: nat, pt: nat, base: nat, start: nat, ghost x: Leaving, ghost b1: nat, ghost b2: nat,
                       ghost counted: Flat, ghost from: nat) returns (ghost counted': Flat, ghost upto: nat)
    requires start == base * 512 && LO <= start && start + 512 <= HI && Covers(k.role, pt, 1, root, base) && root == x.root
    requires k.Works() && from == start && ExitTrail(Here(k), x, from, b1, b2, counted) == OnTrack
    modifies k.frames, k.frames.bitmap, k.cow`refs, k.cow.slots
    ensures k.Works() && upto == start + 512 && ExitTrail(Here(k), x, upto, b1, b2, counted') == OnTrack
  {
    var i1 := 0;
    var v := start;
    counted', upto := counted, from;
    while i1 < 512
      invariant 0 <= i1 <= 512 && v == start + i1 && upto == v
      invariant k.Works() && ExitTrail(Here(k), x, upto, b1, b2, counted') == OnTrack
    {
      counted', upto := ExitSlot(k, root, pt, base, i1, v, x, b1, b2, counted', upto);
      i1, v := i1 + 1, v + 1;
    }
  }

  /** There is at most one page table per base, and it is the one on the walk. */
  lemma SamePageTable(mem: Memory, role: map<nat, Role>, root: nat, base: nat, f: nat, g: nat)
    requires TablesOk(mem, role) && Covers(role, f, 1, root, base) && Covers(role, g, 1, root, base) && Private(base * 512)
    ensures f == g
  {
    PathFromRole(mem, role, root, base * 512, f);
    PathFromRole(mem, role, root, base * 512, g);
  }

  /** Freeing the page table of base b1 moves the boundary past it. */
  lemma FreePageTable(h: Now, x: Leaving, cur: nat, b1: nat, b2: nat, counted: Flat, pt: nat, next: nat)
    requires Exiting(h, x, cur, b1, b2, counted) && Covers(h.role, pt, 1, x.root, b1) && Private(b1 * 512) && next == b1 + 1
    ensures Exiting(h.(free := h.free + {pt}), x, cur, next, b2, counted)
  {
    var free' := h.free + {pt};
    forall f: nat ensures FreedAt(h.flat, h.role, x, free', counted, cur, next, b2, f) {
      assert FreedAt(h.flat, h.role, x, h.free, counted, cur, b1, b2, f);
      if Covers(h.role, f, 1, x.root, b1) { SamePageTable(h.mem, h.role, x.root, b1, f, pt); }
    }
  }

  /** Where the directory has no entry there is no page table to free. */
  lemma NoPageTable(h: Now, x: Leaving, cur: nat, b1: nat, b2: nat, counted: Flat, next: nat)
    requires Exiting(h, x, cur, b1, b2, counted) && Private(b1 * 512) && !HasPt(h.mem, x.root, b1 * 512) && next == b1 + 1
    ensures Exiting(h, x, cur, next, b2, counted)
  {
    forall f: nat ensures FreedAt(h.flat, h.role, x, h.free, counted, cur, next, b2, f) {
      assert FreedAt(h.flat, h.role, x, h.free, counted, cur, b1, b2, f);
      if Covers(h.role, f, 1, x.root, b1) { PathFromRole(h.mem, h.role, x.root, b1 * 512, f); }
    }
  }

  /** One slot of one page directory. */
  method ExitDirectorySlot(k: Kernel, root: nat, pd: nat, i3: nat, i2: nat, start: nat, ghost x: Leaving, ghost b1: nat,
                           ghost counted: Flat, ghost from: nat) returns (ghost counted': Flat, ghost upto: nat, ghost b1': nat)
    requires 2 <= i3 < 512 && i2 < 512 && b1 == i3 * 512 + i2 && start == b1 * 512 && Covers(k.role, pd, 2, root, i3) && root == x.root
    requires k.Works() && from == start && ExitTrail(Here(k), x, from, b1, i3, counted) == OnTrack
    modifies k.frames, k.frames.bitmap, k.cow`refs, k.cow.slots
    ensures k.Works() && upto == start + 512 && b1' == b1 + 1 && ExitTrail(Here(k), x, upto, b1', i3, counted') == OnTrack
  {
    assert Look(0);
    assert LinkOk(k.mem, k.role, pd, i2);
    PdFromRole(k.mem, k.role, root, start, pd, i3);
    b1' := b1 + 1;
    var entry := k.mem[pd][i2];
    if entry.present {
      counted', upto := ExitPageTable(k, root, entry.frame, i3 * 512 + i2, start, x, b1, i3, counted, from);
      FreePageTable(Here(k), x, upto, b1, i3, counted', entry.frame, b1');
      k.frames.FreeFrame(Pointer(entry));
    } else {
      counted', upto := counted, start + 512;
      AbsentTable(k.mem, k.role, k.flat, root, pd, i3, i2);
      SkipRange(Here(k), x, start, upto, b1, i3, counted);
      NoPageTable(Here(k), x, upto, b1, i3, counted, b1');
    }
  }

  /** One page directory. */
  method ExitDirectory(k: Kernel, root: nat, pd: nat, i3: nat, start: nat, ghost x: Leaving, ghost counted: Flat, ghost from: nat, ghost b1: nat)
    returns (ghost counted': Flat, ghost upto: nat, ghost b1': nat)
    requires 2 <= i3 < 512 && start == i3 * 262144 && Covers(k.role, pd, 2, root, i3) && root == x.root && b1 == i3 * 512
    requires k.Works() && from == start && ExitTrail(Here(k), x, from, b1, i3, counted) == OnTrack
    modifies k.frames, k.frames.bitmap, k.cow`refs, k.cow.slots
    ensures k.Works() && upto == start + 262144 && b1' == i3 * 512 + 512 && ExitTrail(Here(k), x, upto, b1', i3, counted') == OnTrack
  {
    var i2 := 0;
    var cur := start;
    counted', upto, b1' := counted, from, b1;
    while i2 < 512
      invariant 0 <= i2 <= 512 && b1' == i3 * 512 + i2 && cur == b1' * 512 && upto == cur
      invariant k.Works() && ExitTrail(Here(k), x, upto, b1', i3, counted') == OnTrack
    {
      counted', upto, b1' := ExitDirectorySlot(k, root, pd, i3, i2, cur, x, b1', counted', upto);
      i2, cur := i2 + 1, cur + 512;
    }
    assert cur == start + 262144;
  }

  lemma FreeDirectory(h: Now, x: Leaving, cur: nat, b1: nat, b2: nat, counted: Flat, pd: nat, next: nat)
    requires Exiting(h, x, cur, b1, b2, counted) && Covers(h.role, pd, 2, x.root, b2) && 2 <= b2 < 512 && next == b2 + 1
    ensures Exiting(h.(free := h.free + {pd}), x, cur, b1, next, counted)
  {
    var free' := h.free + {pd};
    forall f: nat ensures FreedAt(h.flat, h.role, x, free', counted, cur, b1, next, f) {
      assert FreedAt(h.flat, h.role, x, h.free, counted, cur, b1, b2, f);
      if Covers(h.role, f, 2, x.root, b2) {
        PdFromRole(h.mem, h.role, x.root, b2 * 262144, f, b2);
        PdFromRole(h.mem, h.role, x.root, b2 * 262144, pd, b2);
      }
    }
  }

  lemma NoDirectory(h: Now, x: Leaving, cur: nat, b1: nat, b2: nat, counted: Flat, next1: nat, next2: nat)
    requires Exiting(h, x, cur, b1, b2, counted) && 2 <= b2 < 512 && !HasPd(h.mem, x.root, b2 * 262144)
    requires b1 == b2 * 512 && next1 == b2 * 512 + 512 && next2 == b2 + 1
    ensures Exiting(h, x, cur, next1, next2, counted)
  {
    forall f: nat ensures FreedAt(h.flat, h.role, x, h.free, counted, cur, next1, next2, f) {
      assert FreedAt(h.flat, h.role, x, h.free, counted, cur, b1, b2, f);
      if f in h.role && h.role[f].Table? && h.role[f].root == x.root {
        if h.role[f].level == 2 && h.role[f].base == b2 {
          PdFromRole(h.mem, h.role, x.root, b2 * 262144, f, b2);
        } else if h.role[f].level == 1 && b1 <= h.role[f].base < next1 {
          PathFromRole(h.mem, h.role, x.root, h.role[f].base * 512, f);
        }
      }
    }
  }

  /** One slot of the PDPT. */
  method ExitPdptSlot(k: Kernel, root: nat, i3: nat, start: nat, ghost x: Leaving, ghost counted: Flat, ghost from: nat, ghost b1: nat, ghost b2: nat)
    returns (ghost counted': Flat, ghost upto: nat, ghost b1': nat, ghost b2': nat)
    requires 2 <= i3 < 512 && start == i3 * 262144 && root == x.root && b1 == i3 * 512 && b2 == i3
    requires k.Works() && from == start && ExitTrail(Here(k), x, from, b1, b2, counted) == OnTrack
    modifies k.frames, k.frames.bitmap, k.cow`refs, k.cow.slots
    ensures k.Works() && upto == start + 262144 && b1' == i3 * 512 + 512 && b2' == i3 + 1
    ensures ExitTrail(Here(k), x, upto, b1', b2', counted') == OnTrack
  {
    assert Look(0);
    WalkRoles(k.mem, k.role, root, start);
    var pdpt := k.mem[root][0].frame;
    var entry := k.mem[pdpt][i3];
    assert LinkOk(k.mem, k.role, pdpt, i3);
    b2' := b2 + 1;
    if entry.present {
      counted', upto, b1' := ExitDirectory(k, root, entry.frame, i3, start, x, counted, from, b1);
      FreeDirectory(Here(k), x, upto, b1', b2, counted', entry.frame, b2');
      k.frames.FreeFrame(Pointer(entry));
    } else {
      counted', upto, b1' := counted, start + 262144, b1 + 512;
      AbsentDirectory(k.mem, k.role, k.flat, root, i3);
      SkipRange(Here(k), x, start, upto, b1, b2, counted);
      NoDirectory(Here(k), x, upto, b1, b2, counted, b1', b2');
    }
  }

  // ---------- the whole teardown ----------

  /** Every table of a space lies within the walked range. */
  lemma TableBases(mem: Memory, role: map<nat, Role>, f: nat)
    requires TablesOk(mem, role) && f in role && role[f].Table?
    ensures var t := role[f];
      (t.level == 1 && 1024 <= t.base < 262144) || (t.level == 2 && 2 <= t.base < 512) || t.level == 3
    ensures role[f].level == 3 ==> IsRoot(role, role[f].root) && Pdpt(mem, role[f].root) == f
  {
    var t := role[f];
    assert HangsAt(mem, role, f, t);
    if t.level == 1 { assert HangsAt(mem, role, t.parent, role[t.parent]); }
  }

  /** Before the walk every leaf but the strays is counted, and nothing is freed. */
  lemma ExitStart(h: Now, x: Leaving)
    requires Sound(h) && IsRoot(h.role, x.root) && x.free == h.free && x.refs == h.refs
    requires StraysOk(h.flat, x) && RefsOk(h.flat - x.stray, h.refs)
    ensures Exiting(h, x, LO, 1024, 2, h.flat - x.stray)
  {
    var counted := h.flat - x.stray;
    forall k ensures CountedAt(h.flat, counted, x, h.refs, LO, k) {
      assert FlatAt(h.mem, h.role, h.flat, k.root, k.vpn);
      assert k == Key(k.root, k.vpn);
    }
    forall f: nat ensures FreedAt(h.flat, h.role, x, h.free, counted, LO, 1024, 2, f) {
      assert PartitionAt(h.role, h.free, f) && DataAt(h.flat, h.role, f);
      if f in h.role && h.role[f].Table? { TableBases(h.mem, h.role, f); }
      if f in h.role && h.role[f].Data? {
        StillMapped(h, x, f);
        NoneLostYet(h, x, f);
      }
    }
  }

  lemma StillMapped(h: Now, x: Leaving, f: nat)
    requires StraysOk(h.flat, x) && Refs(h.flat, f) != {}
    ensures Refs(h.flat - x.stray, f) != {}
  {
    var k :| k in Refs(h.flat, f);
    assert StrayAt(h.flat, x, k);
    if k in x.stray {
      var l :| l in h.flat && l !in x.stray && h.flat[l].frame == h.flat[k].frame;
      assert l in Refs(h.flat - x.stray, f);
    } else {
      assert k in Refs(h.flat - x.stray, f);
    }
  }

  lemma NoneLostYet(h: Now, x: Leaving, f: nat)
    requires FlatOk(h.mem, h.role, h.flat)
    ensures !LostBelow(h.flat, x, LO, f)
  {
    forall k | k in h.flat ensures k.vpn >= LO {
      assert FlatAt(h.mem, h.role, h.flat, k.root, k.vpn) && k == Key(k.root, k.vpn);
    }
  }

  /** The pages of every space but one. */
  ghost function Without<T>(m: map<Key, T>, root: nat): map<Key, T> {
    map k | k in m && k.root != root :: m[k]
  }

  ghost function InService(role: map<nat, Role>, free: set<nat>): map<nat, Role> {
    map f | f in role && f !in free :: role[f]
  }

  /** The state once the walk is over and the PDPT and the root are freed too. */
  ghost function Left(h: Now, root: nat): Now {
    var free := h.free + {Pdpt(h.mem, root)} + {root};
    h.(free := free, role := InService(h.role, free), flat := Without(h.flat, root))
  }

  /** After the walk and the two last frees, the space's tables and nothing else of the trees
      is gone. */
  lemma ExitState(h: Now, x: Leaving, counted: Flat)
    requires Exiting(h, x, HI, 262144, 512, counted)
    ensures var h' := Left(h, x.root); StateOk(h'.mem, h'.role, h'.flat, h'.free, h'.boot)
    ensures forall r: nat :: IsRoot(Left(h, x.root).role, r) <==> IsRoot(h.role, r) && r != x.root
  {
    var h' := Left(h, x.root);
    ExitGone(h, x, counted);
    ExitTables(h.mem, h.role, x.root, h'.role);
    forall f ensures SteadyAt(h.mem, h.role, h.mem, h'.role, f) {
      assert GoneAt(h.role, h'.role, x.root, f);
    }
    KernelStays(h.mem, h.role, h.boot, h.mem, h'.role);
    forall f ensures PartitionAt(h'.role, h'.free, f) {
      assert PartitionAt(h.role, x.free, f) && FreedAt(h.flat, h.role, x, h.free, counted, HI, 262144, 512, f);
    }
    forall r: nat, v: nat ensures FlatAt(h'.mem, h'.role, h'.flat, r, v) {
      assert FlatAt(h.mem, h.role, h.flat, r, v);
    }
  }

  /** Exactly the root and its tables went out of service, apart from data. */
  ghost predicate GoneAt(role: map<nat, Role>, role': map<nat, Role>, root: nat, f: nat) {
    && (f in role' ==> f in role && role'[f] == role[f])
    && (f in role && !role[f].Data? ==> (f !in role' <==> f == root || (role[f].Table? && role[f].root == root)))
  }

  lemma ExitGone(h: Now, x: Leaving, counted: Flat)
    requires Exiting(h, x, HI, 262144, 512, counted)
    ensures var role' := Left(h, x.root).role;
      forall f {:trigger GoneAt(h.role, role', x.root, f)} :: GoneAt(h.role, role', x.root, f)
  {
    WalkRoles(h.mem, h.role, x.root, LO);
    var role' := Left(h, x.root).role;
    forall f ensures GoneAt(h.role, role', x.root, f) {
      assert FreedAt(h.flat, h.role, x, h.free, counted, HI, 262144, 512, f);
      if f in h.role && h.role[f].Table? { TableBases(h.mem, h.role, f); }
    }
  }

  lemma ExitTables(mem: Memory, role: map<nat, Role>, root: nat, role': map<nat, Role>)
    requires TablesOk(mem, role) && IsRoot(role, root)
    requires forall f {:trigger GoneAt(role, role', root, f)} :: GoneAt(role, role', root, f)
    ensures TablesOk(mem, role') && forall r: nat :: IsRoot(role', r) <==> IsRoot(role, r) && r != root
  {
    forall f | f in role' ensures f in role && f < TOTAL_FRAMES && (role'[f].Root? ==> mem[f][0].present) {
      assert GoneAt(role, role', root, f);
    }
    forall f, i | f in role' && 0 <= i < 512 ensures LinkOk(mem, role', f, i) {
      ExitLink(mem, role, root, role', f, i);
    }
    forall f | f in role' && role'[f].Table? ensures HangsAt(mem, role', f, role'[f]) {
      assert GoneAt(role, role', root, f) && HangsAt(mem, role, f, role[f]);
      assert GoneAt(role, role', root, role[f].parent);
    }
    forall r: nat ensures IsRoot(role', r) <==> IsRoot(role, r) && r != root {
      assert GoneAt(role, role', root, r);
    }
  }

  lemma ExitLink(mem: Memory, role: map<nat, Role>, root: nat, role': map<nat, Role>, f: nat, i: nat)
    requires TablesOk(mem, role) && IsRoot(role, root) && f in role' && f < TOTAL_FRAMES && i < 512
    requires forall g {:trigger GoneAt(role, role', root, g)} :: GoneAt(role, role', root, g)
    ensures LinkOk(mem, role', f, i)
  {
    assert GoneAt(role, role', root, f);
    assert LinkOk(mem, role, f, i);
    assert GoneAt(role, role', root, mem[f][i].frame);
  }

  /** The counts left behind are exact if and only if no page was missed. */
  lemma ExitCounts(flat: Flat, counted: Flat, x: Leaving, refs: map<Ptr, int>)
    requires RefsOk(counted, refs) && Counted(flat, counted, x, refs, HI) && StraysOk(flat, x)
    requires forall k :: k in flat ==> k.vpn < HI
    ensures RefsOk(Without(flat, x.root), refs) <==> NoneMissed(flat, x.refs, x.root)
  {
    var left := Without(flat, x.root);
    forall k: Key ensures k in left ==> k in counted && counted[k] == left[k] {
      assert CountedAt(flat, counted, x, refs, HI, k) && StrayAt(flat, x, k);
    }
    if NoneMissed(flat, x.refs, x.root) {
      forall k: Key ensures k in counted <==> k in left {
        assert CountedAt(flat, counted, x, refs, HI, k) && !Missed(flat, x.refs, x.root, k);
      }
      assert counted == left;
    } else {
      var k :| Missed(flat, x.refs, x.root, k);
      assert CountedAt(flat, counted, x, refs, HI, k) && StrayAt(flat, x, k);
      var p := Physical(flat[k]);
      assert CountAt(counted, refs, p);
      forall l | l in Refs(left, p.frame) ensures l in Refs(counted, p.frame) - {k} {
      }
      SubsetCard(Refs(left, p.frame), Refs(counted, p.frame) - {k});
      assert !CountAt(left, refs, p);
    }
  }

  /** Some lost leaf was on frame f. */
  ghost predicate LostOn(flat: Flat, x: Leaving, f: nat) {
    LostBelow(flat, x, HI, f)
  }

  /** A data frame is free afterwards exactly when no leaf is left on it, or a lost one was. */
  lemma ExitFrames(h: Now, x: Leaving, counted: Flat, f: nat)
    requires Exiting(h, x, HI, 262144, 512, counted) && f in h.role && h.role[f].Data?
    ensures f in Left(h, x.root).free <==> Refs(Left(h, x.root).flat, f) == {} || LostOn(h.flat, x, f)
  {
    var left := Without(h.flat, x.root);
    WalkRoles(h.mem, h.role, x.root, LO);
    assert FreedAt(h.flat, h.role, x, h.free, counted, HI, 262144, 512, f);
    PagesBelowTop(h);
    forall k | k in Refs(left, f) ensures k in Refs(counted, f) {
      assert CountedAt(h.flat, counted, x, h.refs, HI, k) && StrayAt(h.flat, x, k);
    }
    forall k | k in Refs(counted, f) && k !in Refs(left, f) ensures LostOn(h.flat, x, f) {
      assert CountedAt(h.flat, counted, x, h.refs, HI, k);
      assert Lost(h.flat, x, k);
    }
  }

  lemma PagesBelowTop(h: Now)
    requires FlatOk(h.mem, h.role, h.flat)
    ensures forall k :: k in h.flat ==> k.vpn < HI
  {
    forall k | k in h.flat ensures k.vpn < HI {
      assert FlatAt(h.mem, h.role, h.flat, k.root, k.vpn) && k == Key(k.root, k.vpn);
    }
  }

  /** The frames of the pages that are left stay tracked or untracked, and no other comes to be tracked. */
  ghost predicate TracksKept(flat: Flat, refs0: map<Ptr, int>, refs: map<Ptr, int>) {
    && (forall k :: k in flat ==> (Tracked(refs, flat[k].frame) <==> Tracked(refs0, flat[k].frame)))
    && (forall f: nat {:trigger Tracked(refs, f)} :: Tracked(refs, f) ==> Tracked(refs0, f))
  }

  /** The tables of every space but one. */
  ghost function SpotsWithout(spots: set<Spot>, root: nat): set<Spot> {
    set x | x in spots && x.root != root
  }

  /** The kernel's frames, and the roots and tables of every space but one. */
  ghost function StructureWithout(frames: map<nat, Role>, root: nat): map<nat, Role> {
    map f | f in frames && f != root && !(frames[f].Table? && frames[f].root == root) :: frames[f]
  }

  /** The teardown gives back the root and every table of the space, and no other frame that holds no page. */
  lemma ExitBooks(h: Now, x: Leaving, counted: Flat)
    requires Exiting(h, x, HI, 262144, 512, counted)
    ensures var role' := Left(h, x.root).role;
      && KernelFrames(role') == KernelFrames(h.role) && Spots(role') == SpotsWithout(Spots(h.role), x.root)
      && Structure(role') == StructureWithout(Structure(h.role), x.root)
  {
    var role' := Left(h, x.root).role;
    ExitGone(h, x, counted);
    forall f: nat ensures f in KernelFrames(role') <==> f in KernelFrames(h.role) {
      assert GoneAt(h.role, role', x.root, f);
    }
    var left := StructureWithout(Structure(h.role), x.root);
    forall f: nat ensures f in Structure(role') <==> f in left {
      assert GoneAt(h.role, role', x.root, f);
    }
    forall f | f in Structure(role') ensures role'[f] == h.role[f] {
      assert GoneAt(h.role, role', x.root, f);
    }
    assert Structure(role') == left;
    forall s: Spot ensures s in Spots(role') <==> s in Spots(h.role) && s.root != x.root {
      if s in Spots(role') {
        var f := SpotCovered(role', s);
        assert GoneAt(h.role, role', x.root, f);
        CoveredSpot(h.role, f, s.level, s.root, s.base);
      }
      if s in Spots(h.role) && s.root != x.root {
        var f := SpotCovered(h.role, s);
        assert GoneAt(h.role, role', x.root, f);
        CoveredSpot(role', f, s.level, s.root, s.base);
      }
    }
  }

  lemma ExitTracks(h: Now, x: Leaving, counted: Flat)
    requires Exiting(h, x, HI, 262144, 512, counted)
    ensures TracksKept(Left(h, x.root).flat, x.refs, h.refs)
  {
    var flat := Without(h.flat, x.root);
    forall k | k in flat ensures Tracked(h.refs, flat[k].frame) <==> Tracked(x.refs, flat[k].frame) {
      assert CountedAt(h.flat, counted, x, h.refs, HI, k) && StrayAt(h.flat, x, k);
    }
  }

  /** Some process maps a frame that is free. */
  ghost predicate Dangling(flat: Flat, free: set<nat>) {
    exists k :: k in flat && flat[k].frame in free
  }

  /** The leaves that are left are all on frames in service, unless one dangles. */
  lemma ExitLeaves(h: Now, x: Leaving, counted: Flat)
    requires Exiting(h, x, HI, 262144, 512, counted)
    ensures var h' := Left(h, x.root);
      && (RefsOk(h'.flat, h'.refs) <==> NoneMissed(h.flat, x.refs, x.root))
      && (LeavesOk(h'.flat, h'.role) <==> !Dangling(h'.flat, h'.free))
      && forall f :: f in h.role && h.role[f].Data? ==> (f in h'.free <==> Refs(h'.flat, f) == {} || LostOn(h.flat, x, f))
  {
    var h' := Left(h, x.root);
    PagesBelowTop(h);
    ExitCounts(h.flat, counted, x, h.refs);
    forall f | f in h.role && h.role[f].Data? ensures f in h'.free <==> Refs(h'.flat, f) == {} || LostOn(h.flat, x, f) {
      ExitFrames(h, x, counted, f);
    }
    forall f ensures DataAt(h'.flat, h'.role, f) { }
    forall k | k in h'.flat ensures LeafAt(h'.flat, h'.role, k) <==> h'.flat[k].frame !in h'.free {
      assert LeafAt(h.flat, h.role, k);
    }
    if !Dangling(h'.flat, h'.free) {
      forall k ensures LeafAt(h'.flat, h'.role, k) { }
    }
  }

  /**
   * Tears an address space down. The counts of the remaining spaces stay exact if and only if no page of the
   * dying space is no-execute and tracked. A data frame is free afterwards exactly when no remaining leaf maps
   * it, or a page was on it that is no-execute and tracked, or was shared without a slot.
   */
  method FreeAddressSpace(k: Kernel, root: nat, ghost stray: set<Key>)
    requires k.Works() && Sound(Here(k)) && IsRoot(k.role, root) && RefsOk(k.flat - stray, k.cow.refs)
    requires StraysOk(k.flat, Leaving(root, stray, k.frames.free, k.cow.refs))
    modifies k`role, k`flat, k.frames, k.frames.bitmap, k.cow`refs, k.cow.slots
    ensures k.Trees() && k.cow.Valid()
    ensures forall r: nat :: IsRoot(k.role, r) <==> IsRoot(old(k.role), r) && r != root
    ensures k.flat == Without(old(k.flat), root) && View(k.mem, k.flat) == Without(old(View(k.mem, k.flat)), root)
    ensures RefsOk(k.flat, k.cow.refs) <==> NoneMissed(old(k.flat), old(k.cow.refs), root)
    ensures TracksKept(k.flat, old(k.cow.refs), k.cow.refs) && root in k.frames.free
    ensures KernelFrames(k.role) == KernelFrames(old(k.role)) && Spots(k.role) == SpotsWithout(Spots(old(k.role)), root)
    ensures Structure(k.role) == StructureWithout(Structure(old(k.role)), root)
    ensures LeavesOk(k.flat, k.role) <==> !Dangling(k.flat, k.frames.free)
    ensures var x := Leaving(root, stray, old(k.frames.free), old(k.cow.refs));
      forall f :: f in old(k.role) && old(k.role)[f].Data? ==>
        (f in k.frames.free <==> Refs(k.flat, f) == {} || LostOn(old(k.flat), x, f))
  {
    ghost var x := Leaving(root, stray, k.frames.free, k.cow.refs);
    ExitStart(Here(k), x);
    ghost var counted := ExitWalk(k, root, x);
    ghost var h := Here(k);
    ExitState(h, x, counted);
    ExitLeaves(h, x, counted);
    ExitTracks(h, x, counted);
    ExitBooks(h, x, counted);
    FinishExit(k, root, x, counted);
    ExitView(k.mem, old(k.flat), root);
  }

  /** The walk over the PDPT. */
  method ExitWalk(k: Kernel, root: nat, ghost x: Leaving) returns (ghost counted: Flat)
    requires k.Works() && root == x.root && Exiting(Here(k), x, LO, 1024, 2, k.flat - x.stray)
    modifies k.frames, k.frames.bitmap, k.cow`refs, k.cow.slots
    ensures k.Works() && Exiting(Here(k), x, HI, 262144, 512, counted)
  {
    counted := k.flat - x.stray;
    var i3 := 2;
    var cur := LO;
    ghost var b1, b2, upto := 1024, 2, LO;
    while i3 < 512
      invariant 2 <= i3 <= 512 && cur == i3 * 262144 && b1 == i3 * 512 && b2 == i3 && upto == cur
      invariant k.Works() && ExitTrail(Here(k), x, upto, b1, b2, counted) == OnTrack
    {
      counted, upto, b1, b2 := ExitPdptSlot(k, root, i3, cur, x, counted, upto, b1, b2);
      i3, cur := i3 + 1, cur + 262144;
    }
    assert Look(0);
  }

  lemma ExitView(mem: Memory, flat: Flat, root: nat)
    ensures View(mem, Without(flat, root)) == Without(View(mem, flat), root)
  {
  }

  /** The PDPT and the root go last. */
  method FinishExit(k: Kernel, root: nat, ghost x: Leaving, ghost counted: Flat)
    requires k.Works() && root == x.root && Exiting(Here(k), x, HI, 262144, 512, counted)
    modifies k`role, k`flat, k.frames, k.frames.bitmap
    ensures k.Works() && Here(k) == Left(old(Here(k)), root)
  {
    WalkRoles(k.mem, k.role, root, LO);
    k.frames.FreeFrame(Pointer(k.mem[root][0]));
    k.frames.FreeFrame(Ptr(false, root));
    k.role := InService(k.role, k.frames.free);
    k.flat := Without(k.flat, root);
  }

  /** Forking a process that has a no-execute page leaves the child with a page its teardown
      misses, so the counts never survive the child's exit. */
  lemma ForkOfNxPageIsMissed(flat0: Flat, flat: Flat, refs: map<Ptr, int>, parent: nat, child: nat, v: nat)
    requires Forked(flat0, flat, parent, child, HI) && RefsOk(flat, refs) && parent != child && v < HI
    requires Key(parent, v) in flat0 && flat0[Key(parent, v)].nx
    ensures Missed(flat, refs, child, Key(child, v)) && !NoneMissed(flat, refs, child)
  {
    assert ForkAt(flat0, flat, parent, child, HI, parent, v);
    assert ForkAt(flat0, flat, parent, child, HI, child, v);
    assert SameFrame(flat, Key(child, v), Key(parent, v));
    assert Missed(flat, refs, child, Key(child, v));
  }
}
