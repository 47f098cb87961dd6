/** Every frame accounted for: free, the kernel's, a root, a table, or the frame of some page. */
module FrameBooks {
  import opened PageModel
  import opened Frames
  import opened Cow
  import opened CowModel
  import opened Paging
  import opened ForkWalk
  import opened CowExit

  /** A frame is free exactly when it holds neither structure nor a mapped page. */
  lemma FreeIff(h: Now, f: nat)
    requires Sound(h) && f < TOTAL_FRAMES
    ensures f in h.free <==> f !in Structure(h.role) && f !in Mapped(h.flat)
  {
    assert PartitionAt(h.role, h.free, f) && DataAt(h.flat, h.role, f);
    MappedIff(h.flat, h.role, f);
  }

  /** The frames in service that hold a page are those some leaf maps. */
  lemma MappedIff(flat: Flat, role: map<nat, Role>, f: nat)
    requires LeavesOk(flat, role)
    ensures f in Mapped(flat) <==> f in role && role[f].Data?
  {
    assert DataAt(flat, role, f);
    if f in Mapped(flat) {
      var k :| k in flat && flat[k].frame == f;
      assert LeafAt(flat, role, k);
    }
    if f in role && role[f].Data? {
      var k :| k in Refs(flat, f);
      assert flat[k].frame == f;
    }
  }

  // ---------- counting ----------

  ghost function RootFrames(role: map<nat, Role>): set<nat> {
    set f | f in role && role[f].Root?
  }

  ghost function TableFrames(role: map<nat, Role>): set<nat> {
    set f | f in role && role[f].Table?
  }

  ghost function SpotOf(t: Role): Spot
    requires t.Table?
  {
    Spot(t.level, t.root, t.base)
  }

  /** No two tables stand in the same place. */
  lemma OneTablePerSpot(mem: Memory, role: map<nat, Role>, f: nat, g: nat)
    requires TablesOk(mem, role) && f in TableFrames(role) && g in TableFrames(role) && SpotOf(role[f]) == SpotOf(role[g])
    ensures f == g
  {
    TableBases(mem, role, f);
    TableBases(mem, role, g);
    var t := role[f];
    if t.level == 1 {
      SamePageTable(mem, role, t.root, t.base, f, g);
    } else if t.level == 2 {
      PdFromRole(mem, role, t.root, t.base * 262144, f, t.base);
      PdFromRole(mem, role, t.root, t.base * 262144, g, t.base);
    }
  }

  lemma {:induction false} SpotsOfSome(mem: Memory, role: map<nat, Role>, s: set<nat>)
    requires TablesOk(mem, role) && s <= TableFrames(role)
    ensures |set f | f in s :: SpotOf(role[f])| == |s|
  {
    var spots := set f | f in s :: SpotOf(role[f]);
    if s == {} {
      assert spots == {};
    } else {
      var g :| g in s;
      var rest := s - {g};
      var others := set f | f in rest :: SpotOf(role[f]);
      SpotsOfSome(mem, role, rest);
      forall f | f in rest ensures SpotOf(role[f]) != SpotOf(role[g]) {
        if SpotOf(role[f]) == SpotOf(role[g]) { OneTablePerSpot(mem, role, f, g); }
      }
      assert spots == others + {SpotOf(role[g])};
    }
  }

  lemma SpotsCount(mem: Memory, role: map<nat, Role>)
    requires TablesOk(mem, role)
    ensures |Spots(role)| == |TableFrames(role)|
  {
    SpotsOfSome(mem, role, TableFrames(role));
    assert Spots(role) == set f | f in TableFrames(role) :: SpotOf(role[f]);
  }

  ghost function Below(n: nat): (s: set<nat>)
    ensures |s| == n && forall f: nat {:trigger f in s} :: f in s <==> f < n
  {
    if n == 0 then {} else Below(n - 1) + {n - 1}
  }

  ghost predicate InRange(free: set<nat>) {
    forall f :: f in free ==> f < TOTAL_FRAMES
  }

  lemma DisjointCount(a: set<nat>, b: set<nat>, c: set<nat>, d: set<nat>, e: set<nat>)
    requires a !! b !! c !! d !! e
    ensures |a + b + c + d + e| == |a| + |b| + |c| + |d| + |e|
  {
  }

  /** A frame is of exactly one of the five kinds. */
  ghost predicate KindAt(n: nat, free: set<nat>, ks: set<nat>, rs: set<nat>, ts: set<nat>, ms: set<nat>, f: nat) {
    && (f in free ==> f !in ks && f !in rs && f !in ts && f !in ms && f < n)
    && (f in ks ==> f !in rs && f !in ts && f !in ms && f < n)
    && (f in rs ==> f !in ts && f !in ms && f < n)
    && (f in ts ==> f !in ms && f < n) && (f in ms ==> f < n)
    && (f < n ==> f in free || f in ks || f in rs || f in ts || f in ms)
  }

  lemma KindOf(h: Now, f: nat)
    requires Sound(h) && InRange(h.free)
    ensures KindAt(TOTAL_FRAMES, h.free, KernelFrames(h.role), RootFrames(h.role), TableFrames(h.role), Mapped(h.flat), f)
  {
    assert PartitionAt(h.role, h.free, f);
    MappedIff(h.flat, h.role, f);
  }

  lemma KindsCount(n: nat, free: set<nat>, ks: set<nat>, rs: set<nat>, ts: set<nat>, ms: set<nat>)
    requires forall f: nat {:trigger KindAt(n, free, ks, rs, ts, ms, f)} :: KindAt(n, free, ks, rs, ts, ms, f)
    ensures |free| + |ks| + |rs| + |ts| + |ms| == n
  {
    var all := free + ks + rs + ts + ms;
    forall f: nat ensures f in all <==> f in Below(n) {
      assert KindAt(n, free, ks, rs, ts, ms, f);
    }
    assert all == Below(n);
    forall f: nat | f in all ensures KindAt(n, free, ks, rs, ts, ms, f) {
    }
    DisjointCount(free, ks, rs, ts, ms);
  }

  /**
   * Conservation: the free frames, the kernel's, the roots, the tables and the frames that pages are on are
   * together all the frames there are.
   */
  lemma FramesConserved(h: Now)
    requires Sound(h) && InRange(h.free)
    ensures |h.free| + |KernelFrames(h.role)| + |RootFrames(h.role)| + |Spots(h.role)| + |Mapped(h.flat)| == TOTAL_FRAMES
  {
    forall f: nat ensures KindAt(TOTAL_FRAMES, h.free, KernelFrames(h.role), RootFrames(h.role), TableFrames(h.role), Mapped(h.flat), f) {
      KindOf(h, f);
    }
    KindsCount(TOTAL_FRAMES, h.free, KernelFrames(h.role), RootFrames(h.role), TableFrames(h.role), Mapped(h.flat));
    SpotsCount(h.mem, h.role);
  }
}
