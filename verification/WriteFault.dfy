/** Creating address spaces, repairing copy-on-write write faults, and ring-3 stores. */
module WriteFault {
  import opened PageModel
  import opened Frames
  import opened Cow
  import opened CowModel
  import opened Paging

  // ---------- frames entering and leaving service ----------

  /** A frame that holds no table entries joins. */
  lemma AddPassive(mem: Memory, role: map<nat, Role>, f: nat, x: Role)
    requires TablesOk(mem, role) && f !in role && f < TOTAL_FRAMES && (x.Data? || x.Kernel?)
    ensures TablesOk(mem, role[f := x])
  {
    var role' := role[f := x];
    forall g, i | g in role' && 0 <= i < 512 ensures LinkOk(mem, role', g, i) {
      if g != f { assert LinkOk(mem, role, g, i); }
    }
    forall g | g in role' && role'[g].Table? ensures HangsAt(mem, role', g, role'[g]) {
      assert HangsAt(mem, role, g, role[g]);
    }
  }

  /** A free frame becomes a data frame, with whatever contents. */
  lemma AdoptData(mem: Memory, role: map<nat, Role>, flat: Flat, free: set<nat>, boot: Boot, f: nat, page: Page)
    requires StateOk(mem, role, flat, free, boot) && f in free && f < TOTAL_FRAMES
    ensures StateOk(mem[f := page], role[f := Data], flat, free - {f}, boot)
  {
    assert PartitionAt(role, free, f);
    PartitionMove(role, free, role[f := Data], free - {f}, f);
    DataWrite(mem, role, f, page);
    AddPassive(mem[f := page], role, f, Data);
    SameLookupsKeepFlat(mem, role, flat, mem[f := page], role[f := Data]);
    KernelStays(mem, role, boot, mem[f := page], role[f := Data]);
  }

  /** Overwriting a data frame. */
  lemma DataState(mem: Memory, role: map<nat, Role>, flat: Flat, free: set<nat>, boot: Boot, f: nat, page: Page)
    requires StateOk(mem, role, flat, free, boot) && f in role && role[f].Data?
    ensures StateOk(mem[f := page], role, flat, free, boot)
  {
    DataWrite(mem, role, f, page);
    SameLookupsKeepFlat(mem, role, flat, mem[f := page], role);
    KernelStays(mem, role, boot, mem[f := page], role);
  }

  /** A data frame becomes free. */
  lemma DropData(mem: Memory, role: map<nat, Role>, flat: Flat, free: set<nat>, boot: Boot, f: nat)
    requires StateOk(mem, role, flat, free, boot) && f in role && role[f].Data?
    ensures StateOk(mem, role - {f}, flat, free + {f}, boot)
  {
    var role' := role - {f};
    forall g, i | g in role' && 0 <= i < 512 ensures LinkOk(mem, role', g, i) {
      assert LinkOk(mem, role, g, i);
    }
    forall g | g in role' && role'[g].Table? ensures HangsAt(mem, role', g, role'[g]) {
      assert HangsAt(mem, role, g, role[g]);
    }
    SameLookupsKeepFlat(mem, role, flat, mem, role');
    PartitionMove(role, free, role', free + {f}, f);
    KernelStays(mem, role, boot, mem, role');
  }

  lemma SameDataKeepsLeaves(flat: Flat, role: map<nat, Role>, role': map<nat, Role>)
    requires LeavesOk(flat, role)
    requires forall f :: f in role ==> f in role' && role'[f] == role[f]
    requires forall f :: f in role' && f !in role ==> !role'[f].Data?
    ensures LeavesOk(flat, role')
  {
    forall k ensures LeafAt(flat, role', k) { assert LeafAt(flat, role, k); }
    forall f ensures DataAt(flat, role', f) { assert DataAt(flat, role, f); }
  }

  // ---------- address-space creation ----------

  /** Frames in service keep their role and contents. */
  ghost predicate Kept(mem0: Memory, role0: map<nat, Role>, mem: Memory, role: map<nat, Role>) {
    && |mem| == |mem0| == TOTAL_FRAMES
    && (forall f :: f in role0 ==> f < TOTAL_FRAMES && f in role && role[f] == role0[f] && mem[f] == mem0[f])
  }

  /** The PDPT of a space without private pages. */
  ghost predicate KernelPart(boot: Boot, page: Page) {
    page[0] == Supervisor(boot.low) && page[1] == Supervisor(boot.heap) && forall i :: 2 <= i < 512 ==> !page[i].present
  }

  /** Two free frames become a root and its PDPT with an empty private region. */
  lemma NewSpaceState(mem: Memory, role: map<nat, Role>, flat: Flat, free: set<nat>, boot: Boot,
                      root: nat, pdpt: nat, top: Page, shared: Page)
    requires StateOk(mem, role, flat, free, boot) && root in free && pdpt in free && root != pdpt
    requires root < TOTAL_FRAMES && pdpt < TOTAL_FRAMES
    requires top == ZERO_PAGE[0 := TableEntry(pdpt)] && KernelPart(boot, shared)
    ensures var mem', role' := mem[root := top][pdpt := shared], role[root := Root][pdpt := Table(3, root, root, 0, 0)];
      && StateOk(mem', role', flat, free - {root} - {pdpt}, boot)
      && Kept(mem, role, mem', role')
      && (LeavesOk(flat, role) ==> LeavesOk(flat, role'))
      && (forall r: nat :: IsRoot(role', r) <==> IsRoot(role, r) || r == root)
  {
    assert PartitionAt(role, free, root) && PartitionAt(role, free, pdpt);
    var role1 := role[root := Root];
    var role' := role1[pdpt := Table(3, root, root, 0, 0)];
    PartitionMove(role, free, role1, free - {root}, root);
    PartitionMove(role1, free - {root}, role', free - {root} - {pdpt}, pdpt);
    if LeavesOk(flat, role) {
      SameDataKeepsLeaves(flat, role, role');
    }
    NewSpaceTables(mem, role, root, pdpt, top, shared);
    NewSpaceFlat(mem, role, flat, root, pdpt, top, shared);
    KernelStays(mem, role, boot, mem[root := top][pdpt := shared], role');
  }

  lemma NewSpaceFlat(mem: Memory, role: map<nat, Role>, flat: Flat, root: nat, pdpt: nat, top: Page, shared: Page)
    requires TablesOk(mem, role) && FlatOk(mem, role, flat) && root !in role && pdpt !in role && root != pdpt
    requires root < TOTAL_FRAMES && pdpt < TOTAL_FRAMES
    requires top[0] == TableEntry(pdpt) && forall i :: 2 <= i < 512 ==> !shared[i].present
    ensures FlatOk(mem[root := top][pdpt := shared], role[root := Root][pdpt := Table(3, root, root, 0, 0)], flat)
  {
    var mem1, mem' := mem[root := top], mem[root := top][pdpt := shared];
    DataWrite(mem, role, root, top);
    DataWrite(mem1, role, pdpt, shared);
    var role' := role[root := Root][pdpt := Table(3, root, root, 0, 0)];
    forall r: nat, v: nat ensures FlatAt(mem', role', flat, r, v) {
      assert FlatAt(mem, role, flat, r, v);
      if IsRoot(role, r) && Private(v) {
        assert Lookup(mem', r, v) == Lookup(mem1, r, v);
      } else if r == root && Private(v) {
        assert Pdpt(mem', root) == pdpt;
      }
    }
  }

  lemma NewSpaceTables(mem: Memory, role: map<nat, Role>, root: nat, pdpt: nat, top: Page, shared: Page)
    requires TablesOk(mem, role) && root !in role && pdpt !in role && root != pdpt
    requires root < TOTAL_FRAMES && pdpt < TOTAL_FRAMES
    requires top[0] == TableEntry(pdpt) && forall i :: 2 <= i < 512 ==> !shared[i].present
    ensures TablesOk(mem[root := top][pdpt := shared], role[root := Root][pdpt := Table(3, root, root, 0, 0)])
  {
    var mem', role' := mem[root := top][pdpt := shared], role[root := Root][pdpt := Table(3, root, root, 0, 0)];
    forall g, i | g in role' && 0 <= i < 512 ensures LinkOk(mem', role', g, i) {
      if g != root && g != pdpt { assert LinkOk(mem, role, g, i); }
    }
    forall g | g in role' && role'[g].Table? ensures HangsAt(mem', role', g, role'[g]) {
      if g != pdpt { assert HangsAt(mem, role, g, role[g]); }
    }
  }

  /** A new root sharing the kernel's first two PDPT entries, user bit stripped, and with no
      private page; 0 when frames run out. When exactly one frame is free the call takes it and never gives it back. */
  method CloneAddressSpace(k: Kernel) returns (root: nat, ghost pdpt: nat)
    requires k.Valid()
    modifies k`mem, k`role, k.frames, k.frames.bitmap
    ensures k.Valid() && k.flat == old(k.flat)
    ensures root != 0 ==> root in old(k.frames.free) && IsRoot(k.role, root)
    ensures root != 0 <==> |old(k.frames.free)| >= 2
    ensures if root != 0 then |k.frames.free| == |old(k.frames.free)| - 2 && Bare(k.role, root) else k.frames.free == {}
    ensures k.role == SpaceRoles(old(k.role), old(k.frames.free), root, pdpt)
    ensures root != 0 ==> root !in old(k.role) && pdpt !in old(k.role) && root != pdpt
    ensures KernelFrames(k.role)
         == if |old(k.frames.free)| == 1 then KernelFrames(old(k.role)) + old(k.frames.free) else KernelFrames(old(k.role))
    ensures Spots(k.role) == if root != 0 then Spots(old(k.role)) + {Spot(3, root, 0)} else Spots(old(k.role))
    ensures forall r: nat :: IsRoot(k.role, r) <==> IsRoot(old(k.role), r) || (root != 0 && r == root)
    ensures Kept(old(k.mem), old(k.role), k.mem, k.role)
    ensures root != 0 ==> forall i :: 0 <= i < 2 ==>
      Entry(k.mem, Pdpt(k.mem, root), i) == old(Entry(k.mem, Entry(k.mem, k.boot.root, 0).frame, i)).(user := false)
  {
    root, pdpt := MakeSpace(k);
    SpaceBooks(old(k.role), old(k.frames.free), root, pdpt);
    assert SharesAt(k.mem, k.role, k.boot, root);
  }

  method MakeSpace(k: Kernel) returns (root: nat, ghost pdpt: nat)
    requires k.Trees() && LeavesOk(k.flat, k.role)
    modifies k`mem, k`role, k.frames, k.frames.bitmap
    ensures k.Trees() && LeavesOk(k.flat, k.role)
    ensures root != 0 ==> root in old(k.frames.free) && IsRoot(k.role, root)
    ensures root != 0 <==> |old(k.frames.free)| >= 2
    ensures if root != 0 then |k.frames.free| == |old(k.frames.free)| - 2 && Bare(k.role, root) else k.frames.free == {}
    ensures k.role == SpaceRoles(old(k.role), old(k.frames.free), root, pdpt)
    ensures if root != 0 then root !in old(k.role) && pdpt !in old(k.role) && root != pdpt else forall f :: f in old(k.frames.free) ==> f !in old(k.role)
    ensures forall r: nat :: IsRoot(k.role, r) <==> IsRoot(old(k.role), r) || (root != 0 && r == root)
    ensures Kept(old(k.mem), old(k.role), k.mem, k.role)
  {
    var newPml4, newPdpt := TwoFrames(k.frames);
    root, pdpt := 0, newPdpt;
    if newPdpt != 0 {
      assert PartitionAt(k.role, old(k.frames.free), newPml4) && PartitionAt(k.role, old(k.frames.free), newPdpt);
      BuildSpace(k, newPml4, newPdpt, old(k.frames.free));
      root := newPml4;
    } else if newPml4 != 0 {
      assert PartitionAt(k.role, old(k.frames.free), newPml4);
      StrandFrame(k, newPml4, old(k.frames.free));
    } else {
      assert k.role == SpaceRoles(k.role, {}, 0, 0);
    }
  }

  lemma SpaceBooks(role: map<nat, Role>, free: set<nat>, root: nat, pdpt: nat)
    requires if root != 0 then root !in role && pdpt !in role && root != pdpt && |free| != 1 else |free| < 2 && forall f :: f in free ==> f !in role
    ensures var role' := SpaceRoles(role, free, root, pdpt);
      && KernelFrames(role') == (if |free| == 1 then KernelFrames(role) + free else KernelFrames(role))
      && Spots(role') == if root != 0 then Spots(role) + {Spot(3, root, 0)} else Spots(role)
  {
    if root != 0 {
      PassiveJoins(role, root, Root);
      TableJoins(role[root := Root], pdpt, Table(3, root, root, 0, 0));
    } else if free == {} {
      assert SpaceRoles(role, free, root, pdpt) == role;
    } else {
      var f :| f in free;
      assert |free - {f}| == 0;
      assert free == {f} && SpaceRoles(role, free, root, pdpt) == role[f := Role.Kernel];
      PassiveJoins(role, f, Role.Kernel);
    }
  }

  /** A root and its PDPT, or the last frame lost to the kernel. */
  ghost function SpaceRoles(role: map<nat, Role>, free: set<nat>, root: nat, pdpt: nat): map<nat, Role> {
    if root != 0 then role[root := Root][pdpt := Table(3, root, root, 0, 0)] else role + map f | f in free :: Role.Kernel
  }

  lemma SpaceExtends(role: map<nat, Role>, free: set<nat>, root: nat, pdpt: nat)
    requires root != 0 && root !in role && pdpt !in role && root != pdpt
    ensures Extends(role, SpaceRoles(role, free, root, pdpt), root)
  {
  }

  /** A frame just taken that nothing will ever lead to. */
  ghost method StrandFrame(k: Kernel, f: nat, free0: set<nat>)
    requires k.frames.Valid() && StateOk(k.mem, k.role, k.flat, free0, k.boot) && LeavesOk(k.flat, k.role)
    requires f < TOTAL_FRAMES && free0 == {f} && k.frames.free == {}
    modifies k`role
    ensures k.Trees() && LeavesOk(k.flat, k.role) && k.role == SpaceRoles(old(k.role), free0, 0, 0)
    ensures Kept(k.mem, old(k.role), k.mem, k.role) && (forall r: nat :: IsRoot(k.role, r) <==> IsRoot(old(k.role), r))
  {
    assert PartitionAt(k.role, free0, f);
    LeakFrame(k.mem, k.role, k.flat, free0, k.boot, f);
    assert k.role[f := Role.Kernel] == SpaceRoles(k.role, free0, 0, 0) && free0 - {f} == {};
    k.role := k.role[f := Role.Kernel];
  }

  /** The first two frames there are, as far as there are any. */
  method TwoFrames(a: FrameAllocator) returns (f: nat, g: nat)
    requires a.Valid()
    modifies a, a.bitmap
    ensures a.Valid() && a.free == old(a.free) - {f} - {g} && (f != 0 ==> f in old(a.free)) && (g != 0 ==> g in old(a.free) && f != g && f != 0)
    ensures (f == 0 <==> old(a.free) == {}) && (g == 0 <==> |old(a.free)| < 2)
    ensures f != 0 && g == 0 ==> old(a.free) == {f} && |old(a.free)| == 1
    ensures g != 0 ==> |a.free| == |old(a.free)| - 2
    ensures f == 0 || g == 0 ==> a.free == {}
  {
    f := a.AllocFrame();
    g := 0;
    if f != 0 {
      g := a.AllocFrame();
      assert old(a.free) == old(a.free) - {f} + {f};
    }
  }

  /** Two frames just taken become a root and its PDPT. */
  method BuildSpace(k: Kernel, newPml4: nat, newPdpt: nat, ghost free0: set<nat>)
    requires k.frames.Valid() && StateOk(k.mem, k.role, k.flat, free0, k.boot) && LeavesOk(k.flat, k.role)
    requires newPml4 in free0 && newPdpt in free0 && newPml4 != newPdpt && newPml4 < TOTAL_FRAMES && newPdpt < TOTAL_FRAMES
    requires k.frames.free == free0 - {newPml4} - {newPdpt}
    modifies k`mem, k`role
    ensures k.Trees() && LeavesOk(k.flat, k.role)
    ensures k.role == old(k.role)[newPml4 := Root][newPdpt := Table(3, newPml4, newPml4, 0, 0)]
    ensures Kept(old(k.mem), old(k.role), k.mem, k.role) && Bare(k.role, newPml4)
    ensures forall r: nat :: IsRoot(k.role, r) <==> IsRoot(old(k.role), r) || r == newPml4
  {
    assert PartitionAt(k.role, free0, newPml4) && PartitionAt(k.role, free0, newPdpt);
    ghost var top, shared := FillNewSpace(k, newPml4, newPdpt);
    ghost var t := Table(3, newPml4, newPml4, 0, 0);
    NewSpaceState(old(k.mem), k.role, k.flat, free0, k.boot, newPml4, newPdpt, top, shared);
    NewRootBare(old(k.mem), k.role, newPml4, newPdpt, t);
    k.role := k.role[newPml4 := Root][newPdpt := t];
  }

  /** Writes the two table pages of a new space. */
  method FillNewSpace(k: Kernel, newPml4: nat, newPdpt: nat) returns (ghost top: Page, ghost shared: Page)
    requires newPml4 < TOTAL_FRAMES && newPdpt < TOTAL_FRAMES && newPml4 != newPdpt && |k.mem| == TOTAL_FRAMES
    requires k.boot.root < TOTAL_FRAMES && k.boot.root != newPml4 && k.boot.root != newPdpt
    requires var f := k.mem[k.boot.root][0].frame;
      f < TOTAL_FRAMES && f != newPml4 && f != newPdpt && k.mem[f][0] == k.boot.low && k.mem[f][1] == k.boot.heap
    modifies k`mem
    ensures k.mem == old(k.mem)[newPml4 := top][newPdpt := shared]
    ensures top == ZERO_PAGE[0 := TableEntry(newPdpt)] && KernelPart(k.boot, shared)
  {
    k.ZeroPage(newPml4);
    k.ZeroPage(newPdpt);
    var kernelPdpt := k.mem[k.boot.root][0].frame;
    var page := k.mem[newPdpt][0 := Supervisor(k.mem[kernelPdpt][0])];
    page := page[1 := Supervisor(k.mem[kernelPdpt][1])];
    k.mem := k.mem[newPdpt := page];
    k.mem := k.mem[newPml4 := k.mem[newPml4][0 := TableEntry(newPdpt)]];
    top, shared := k.mem[newPml4], page;
  }

  lemma LeakFrame(mem: Memory, role: map<nat, Role>, flat: Flat, free: set<nat>, boot: Boot, f: nat)
    requires StateOk(mem, role, flat, free, boot) && f in free && f < TOTAL_FRAMES
    ensures StateOk(mem, role[f := Role.Kernel], flat, free - {f}, boot)
    ensures LeavesOk(flat, role) ==> LeavesOk(flat, role[f := Role.Kernel])
    ensures Kept(mem, role, mem, role[f := Role.Kernel])
  {
    assert PartitionAt(role, free, f);
    PartitionMove(role, free, role[f := Role.Kernel], free - {f}, f);
    AddPassive(mem, role, f, Role.Kernel);
    SameLookupsKeepFlat(mem, role, flat, mem, role[f := Role.Kernel]);
    KernelStays(mem, role, boot, mem, role[f := Role.Kernel]);
    if LeavesOk(flat, role) { SameDataKeepsLeaves(flat, role, role[f := Role.Kernel]); }
  }

  // ---------- write faults ----------

  ghost predicate SameRoots(role0: map<nat, Role>, role: map<nat, Role>) {
    forall r: nat {:trigger IsRoot(role, r)} :: IsRoot(role, r) <==> IsRoot(role0, r)
  }

  ghost predicate DataKept(role: map<nat, Role>, mem0: Memory, mem: Memory) {
    && |mem| == |mem0| == TOTAL_FRAMES
    && (forall f :: f in role && f < TOTAL_FRAMES && role[f].Data? ==> mem[f] == mem0[f])
  }

  /** The flags 0x06: user and writable. */
  const USER_WRITABLE: U64 := Word(false, 0, 0, true, true, false)

  method CopyFrame(k: Kernel, src: nat, dst: nat)
    requires src < |k.mem| && dst < |k.mem| && src != dst
    modifies k`mem
    ensures k.mem == old(k.mem)[dst := old(k.mem)[src]]
  {
    var i := 0;
    while i < 512
      invariant 0 <= i <= 512 && |k.mem| == |old(k.mem)|
      invariant forall g :: 0 <= g < |k.mem| && g != dst ==> k.mem[g] == old(k.mem)[g]
      invariant forall j :: 0 <= j < i ==> k.mem[dst][j] == old(k.mem)[src][j]
    {
      k.mem := k.mem[dst := k.mem[dst][i := k.mem[src][i]]];
      i := i + 1;
    }
    assert k.mem[dst] == old(k.mem)[src];
  }

  /** Leaves after page `key` moved to the new data frame and its old frame, when no leaf
      maps it any more, went out of service. */
  lemma RepairedLeaves(flat: Flat, role: map<nat, Role>, key: Key, w: U64, newFrame: nat, freed: bool)
    requires LeavesOk(flat, role) && key in flat && newFrame !in role && w.frame == newFrame
    requires freed <==> Refs(flat[key := w], flat[key].frame) == {}
    ensures LeavesOk(flat[key := w], if freed then role[newFrame := Data] - {flat[key].frame} else role[newFrame := Data])
  {
    var f0 := flat[key].frame;
    var flat', role' := flat[key := w], if freed then role[newFrame := Data] - {f0} else role[newFrame := Data];
    forall f ensures DataAt(flat', role', f) {
      assert DataAt(flat, role, f);
      RefsAfterMap(flat, key, w, f);
      if f == newFrame { assert key in Refs(flat', f); }
      else if f != f0 { assert Refs(flat', f) == Refs(flat, f); }
    }
    forall l ensures LeafAt(flat', role', l) {
      assert LeafAt(flat, role, l);
      assert l in flat' ==> l in Refs(flat', flat'[l].frame);
    }
  }

  lemma GrownMeans(mem0: Memory, role0: map<nat, Role>, mem: Memory, role: map<nat, Role>)
    requires Grown(mem0, role0, mem, role)
    ensures SameRoots(role0, role) && DataKept(role0, mem0, mem)
  {
    forall r: nat ensures IsRoot(role, r) <==> IsRoot(role0, r) {
      assert GrownAt(mem0, role0, mem, role, r);
    }
    forall f | f in role0 && f < TOTAL_FRAMES && role0[f].Data? ensures mem[f] == mem0[f] {
      assert GrownAt(mem0, role0, mem, role, f);
    }
  }
  /** From the remapping on: the page moves to the new frame, its reference to the old one is
      dropped, and the old frame is freed with the last; or the new frame is given back. */
  method InstallCopy(k: Kernel, root: nat, pageVaddr: nat, oldFrame: Ptr, newFrame: nat) returns (ok: bool)
    requires k.Trees() && k.cow.Valid() && IsRoot(k.role, root) && Private(pageVaddr / 4096)
    requires newFrame in k.role && k.role[newFrame].Data? && newFrame != oldFrame.frame
    requires oldFrame.frame in k.role && k.role[oldFrame.frame].Data?
    modifies k`mem, k`role, k`flat, k.frames, k.frames.bitmap, k.cow`refs, k.cow.slots
    ensures k.Trees() && k.cow.Valid()
    ensures old(HasPt(k.mem, root, pageVaddr / 4096)) ==> ok
    ensures ok ==> k.flat == old(k.flat)[Key(root, pageVaddr / 4096) := MakePte(Ptr(false, newFrame), USER_WRITABLE)]
    ensures ok ==> k.cow.refs == Dropped(old(k.cow.refs), oldFrame)
    ensures old(HasPt(k.mem, root, pageVaddr / 4096)) ==>
      k.role == if oldFrame !in old(k.cow.refs) || old(k.cow.refs)[oldFrame] <= 1
                then old(k.role) - {oldFrame.frame} else old(k.role)
    ensures !ok ==> k.flat == old(k.flat) && k.cow.refs == old(k.cow.refs) && newFrame in k.frames.free
    ensures DataKept(old(k.role), old(k.mem), k.mem)
  {
    ok := k.MapPageIn(root, pageVaddr, Ptr(false, newFrame), USER_WRITABLE);
    GrownMeans(old(k.mem), old(k.role), k.mem, k.role);
    assert GrownAt(old(k.mem), old(k.role), k.mem, k.role, newFrame);
    assert GrownAt(old(k.mem), old(k.role), k.mem, k.role, oldFrame.frame);
    if ok {
      var doFree := k.cow.ShouldFree(oldFrame);
      if doFree {
        RetireFrame(k, oldFrame);
      }
    } else {
      RetireFrame(k, Ptr(false, newFrame));
    }
  }

  /** Gives a data frame back to the allocator. */
  method RetireFrame(k: Kernel, p: Ptr)
    requires k.Trees() && p.frame in k.role && k.role[p.frame].Data?
    modifies k`role, k.frames, k.frames.bitmap
    ensures k.Trees()
    ensures k.role == old(k.role) - {p.frame} && k.frames.free == old(k.frames.free) + {p.frame}
  {
    DropData(k.mem, k.role, k.flat, k.frames.free, k.boot, p.frame);
    k.frames.FreeFrame(p);
    k.role := k.role - {p.frame};
  }

  /** The vector-14 repair for a write to a present page of the running process. */
  method RepairWriteFault(k: Kernel, root: nat, faultAddr: nat) returns (repaired: bool)
    requires k.Valid() && IsRoot(k.role, root) && Private(faultAddr / 4096)
    modifies k`mem, k`role, k`flat, k.frames, k.frames.bitmap, k.cow`refs, k.cow.slots
    ensures k.Valid()
    ensures SameRoots(old(k.role), k.role)
    ensures View(k.mem, k.flat) == old(View(k.mem, k.flat))
    ensures var key := Key(root, faultAddr / 4096);
      && (repaired <==> key in old(k.flat) && Tracked(old(k.cow.refs), old(k.flat)[key].frame) && old(k.frames.free) != {})
      && (repaired ==> key in k.flat && k.flat[key].writable && k.flat[key].user && !k.flat[key].nx)
      && Rehoused(old(k.flat), old(k.cow.refs), old(k.frames.free), k.flat, k.cow.refs, k.frames.free, key, repaired)
    ensures SameBooks(old(k.role), k.role)
  {
    var pageVaddr := faultAddr - faultAddr % 4096;
    ghost var v := faultAddr / 4096;
    assert pageVaddr / 4096 == v && pageVaddr % 4096 == 0;
    ghost var key := Key(root, v);
    var oldPaddr := k.TranslateIn(root, pageVaddr);
    var oldFrame := Ptr(false, oldPaddr / 4096);
    MappedAddress(k.flat, k.role, key);
    assert key in k.flat ==> oldPaddr != 0 && oldFrame == Physical(k.flat[key]);
    assert key !in k.flat ==> oldPaddr == 0;
    if oldPaddr == 0 {
      return false;
    }
    var shared := k.cow.IsShared(oldFrame);
    if !shared {
      return false;
    }
    repaired := CopyToPrivateFrame(k, root, pageVaddr, oldFrame);
  }

  /** The repair once the page is known to be shared. */
  method CopyToPrivateFrame(k: Kernel, root: nat, pageVaddr: nat, oldFrame: Ptr) returns (repaired: bool)
    requires k.Valid() && IsRoot(k.role, root) && Private(pageVaddr / 4096)
    requires Key(root, pageVaddr / 4096) in k.flat && oldFrame == Physical(k.flat[Key(root, pageVaddr / 4096)])
    requires oldFrame in k.cow.refs
    modifies k`mem, k`role, k`flat, k.frames, k.frames.bitmap, k.cow`refs, k.cow.slots
    ensures k.Valid()
    ensures SameRoots(old(k.role), k.role)
    ensures View(k.mem, k.flat) == old(View(k.mem, k.flat))
    ensures repaired <==> old(k.frames.free) != {}
    ensures var key := Key(root, pageVaddr / 4096);
      && (repaired ==> key in k.flat && k.flat[key].writable && k.flat[key].user && !k.flat[key].nx)
      && Rehoused(old(k.flat), old(k.cow.refs), old(k.frames.free), k.flat, k.cow.refs, k.frames.free, key, repaired)
    ensures SameBooks(old(k.role), k.role)
  {
    ghost var mem0, role0 := k.mem, k.role;
    assert LeafAt(k.flat, k.role, Key(root, pageVaddr / 4096));
    var newFrame := StageCopy(k, oldFrame.frame);
    if newFrame == 0 {
      return false;
    }
    RepairOnlyAt(k.flat, k.cow.refs, Key(root, pageVaddr / 4096), MakePte(Ptr(false, newFrame), USER_WRITABLE));
    NotMapped(k.flat, role0, newFrame);
    assert HasPt(k.mem, root, pageVaddr / 4096) by {
      FlatLookup(mem0, role0, k.flat, root, pageVaddr / 4096);
      HasPtKept(mem0, role0, root, pageVaddr / 4096, newFrame, mem0[oldFrame.frame]);
    }
    repaired := FinishRepair(k, root, pageVaddr, oldFrame, newFrame, mem0, role0);
  }

  method FinishRepair(k: Kernel, root: nat, pageVaddr: nat, oldFrame: Ptr, newFrame: nat,
                      ghost mem0: Memory, ghost role0: map<nat, Role>) returns (repaired: bool)
    requires k.Trees() && k.cow.Valid() && IsRoot(k.role, root) && Private(pageVaddr / 4096)
    requires Key(root, pageVaddr / 4096) in k.flat && oldFrame == Physical(k.flat[Key(root, pageVaddr / 4096)])
    requires oldFrame in k.cow.refs && newFrame !in role0 && newFrame < TOTAL_FRAMES
    requires LeavesOk(k.flat, role0) && RefsOk(k.flat, k.cow.refs) && |mem0| == TOTAL_FRAMES && oldFrame.frame < TOTAL_FRAMES
    requires k.mem == mem0[newFrame := mem0[oldFrame.frame]] && k.role == role0[newFrame := Data]
    requires HasPt(k.mem, root, pageVaddr / 4096)
    modifies k`mem, k`role, k`flat, k.frames, k.frames.bitmap, k.cow`refs, k.cow.slots
    ensures k.Valid() && repaired
    ensures SameRoots(role0, k.role) && SameBooks(role0, k.role)
    ensures View(k.mem, k.flat) == View(mem0, old(k.flat))
    ensures k.flat == old(k.flat)[Key(root, pageVaddr / 4096) := MakePte(Ptr(false, newFrame), USER_WRITABLE)]
    ensures k.cow.refs == Dropped(old(k.cow.refs), oldFrame)
  {
    ghost var mem1, flat0, refs0 := k.mem, k.flat, k.cow.refs;
    assert LeafAt(flat0, role0, Key(root, pageVaddr / 4096));
    repaired := InstallCopy(k, root, pageVaddr, oldFrame, newFrame);
    Repaired(mem0, role0, flat0, refs0, Key(root, pageVaddr / 4096),
             MakePte(Ptr(false, newFrame), USER_WRITABLE), mem1, k.mem, k.role);
  }

  /** A fresh data frame holding a copy of frame src; 0 when no frame is left. */
  method StageCopy(k: Kernel, src: nat) returns (newFrame: nat)
    requires k.Trees() && src in k.role && src < TOTAL_FRAMES
    modifies k`mem, k`role, k.frames, k.frames.bitmap
    ensures k.Trees()
    ensures newFrame == 0 <==> old(k.frames.free) == {}
    ensures newFrame == 0 ==> k.mem == old(k.mem) && k.role == old(k.role) && k.frames.free == old(k.frames.free)
    ensures newFrame != 0 ==> newFrame !in old(k.role) && newFrame < TOTAL_FRAMES
    ensures newFrame != 0 ==> k.mem == old(k.mem)[newFrame := old(k.mem)[src]] && k.role == old(k.role)[newFrame := Data]
  {
    newFrame := k.frames.AllocFrame();
    if newFrame != 0 {
      assert PartitionAt(k.role, old(k.frames.free), newFrame);
      AdoptData(k.mem, k.role, k.flat, old(k.frames.free), k.boot, newFrame, k.mem[src]);
      CopyFrame(k, src, newFrame);
      k.role := k.role[newFrame := Data];
    }
  }

  lemma MappedAddress(flat: Flat, role: map<nat, Role>, key: Key)
    requires LeavesOk(flat, role) && 0 in role && role[0].Kernel?
    ensures key in flat ==> Address(Physical(flat[key])) != 0 && Address(Physical(flat[key])) / 4096 == flat[key].frame
    ensures key in flat ==> flat[key].frame in role && role[flat[key].frame].Data?
  {
    assert LeafAt(flat, role, key);
  }

  lemma HasPtKept(mem: Memory, role: map<nat, Role>, root: nat, v: nat, f: nat, page: Page)
    requires TablesOk(mem, role) && IsRoot(role, root) && Private(v) && f !in role && f < TOTAL_FRAMES && HasPt(mem, root, v)
    ensures HasPt(mem[f := page], root, v)
  {
    SamePath(mem, mem[f := page], role, root, v, f);
  }

  /** The repaired state keeps the counts exact and the data frames those that are mapped. */
  lemma RepairedState(role: map<nat, Role>, flat: Flat, refs: map<Ptr, int>, key: Key, w: U64)
    requires LeavesOk(flat, role) && RefsOk(flat, refs)
    requires key in flat && Tracked(refs, flat[key].frame) && w.frame !in role
    ensures var p := Physical(flat[key]);
      var role' := if refs[p] <= 1 then role[w.frame := Data] - {p.frame} else role[w.frame := Data];
      LeavesOk(flat[key := w], role') && RefsOk(flat[key := w], Dropped(refs, p))
  {
    UnusedFrame(flat, role, refs, w.frame);
    RepairKeepsRefs(flat, refs, key, w);
    RepairedLeaves(flat, role, key, w, w.frame, refs[Physical(flat[key])] <= 1);
  }

  lemma RepairedRoots(role: map<nat, Role>, newFrame: nat, f0: nat)
    requires newFrame !in role && f0 in role && role[f0].Data?
    ensures SameRoots(role, role[newFrame := Data]) && SameRoots(role, role[newFrame := Data] - {f0})
  {
  }

  /** No process reads anything else. */
  lemma RepairedView(mem: Memory, role: map<nat, Role>, flat: Flat, key: Key, w: U64, mem1: Memory, mem': Memory)
    requires LeavesOk(flat, role) && |mem| == TOTAL_FRAMES && key in flat && w.frame < |mem| && w.frame !in role
    requires flat[key].frame < |mem| && mem1 == mem[w.frame := mem[flat[key].frame]]
    requires DataKept(role[w.frame := Data], mem1, mem')
    ensures View(mem', flat[key := w]) == View(mem, flat)
  {
    forall k | k in flat ensures LeafAt(flat, role, k) { }
  }

  lemma Repaired(mem: Memory, role: map<nat, Role>, flat: Flat, refs: map<Ptr, int>, key: Key, w: U64,
                 mem1: Memory, mem': Memory, role': map<nat, Role>)
    requires LeavesOk(flat, role) && RefsOk(flat, refs) && |mem| == TOTAL_FRAMES
    requires key in flat && Tracked(refs, flat[key].frame) && w.frame !in role && w.frame < TOTAL_FRAMES
    requires flat[key].frame < TOTAL_FRAMES && mem1 == mem[w.frame := mem[flat[key].frame]]
    requires DataKept(role[w.frame := Data], mem1, mem')
    requires role' == if refs[Physical(flat[key])] <= 1 then role[w.frame := Data] - {flat[key].frame} else role[w.frame := Data]
    ensures LeavesOk(flat[key := w], role') && RefsOk(flat[key := w], Dropped(refs, Physical(flat[key])))
    ensures SameRoots(role, role') && SameBooks(role, role')
    ensures View(mem', flat[key := w]) == View(mem, flat)
  {
    assert LeafAt(flat, role, key);
    RepairedState(role, flat, refs, key, w);
    RepairedRoots(role, w.frame, flat[key].frame);
    PassiveJoins(role, w.frame, Data);
    DataLeaves(role[w.frame := Data], flat[key].frame);
    RepairedView(mem, role, flat, key, w, mem1, mem');
  }

  /** Page key is on a frame nobody mapped, and the table has one reference fewer to the frame it left. */
  ghost predicate MovedOff(flat0: Flat, refs0: map<Ptr, int>, flat: Flat, refs: map<Ptr, int>, key: Key) {
    && key in flat0 && key in flat && flat[key].frame !in Mapped(flat0)
    && refs == Dropped(refs0, Physical(flat0[key]))
  }

  /** What becomes of the pages, the table and the free frames when page key is stored to, with or without a move. */
  ghost predicate Rehoused(flat0: Flat, refs0: map<Ptr, int>, free0: set<nat>, flat: Flat, refs: map<Ptr, int>, free: set<nat>, key: Key, moved: bool) {
    && OnlyAt(flat0, refs0, flat, refs, key)
    && if moved then MovedOff(flat0, refs0, flat, refs, key) else flat == flat0 && refs == refs0 && free == free0
  }

  lemma NotMapped(flat: Flat, role: map<nat, Role>, f: nat)
    requires LeavesOk(flat, role) && f !in role
    ensures f !in Mapped(flat)
  {
    forall k | k in flat ensures flat[k].frame != f {
      assert LeafAt(flat, role, k);
    }
  }

  /** A frame without a role is neither mapped nor tracked. */
  lemma UnusedFrame(flat: Flat, role: map<nat, Role>, refs: map<Ptr, int>, f: nat)
    requires LeavesOk(flat, role) && CountsOk(flat, refs) && f !in role
    ensures Refs(flat, f) == {} && !Tracked(refs, f)
  {
    assert CountAt(flat, refs, Ptr(false, f));
    assert forall k :: k in Refs(flat, f) ==> !LeafAt(flat, role, k);
  }

  // ---------- ring-3 stores and new pages ----------

  /** The same store in a machine where no page is ever shared. */
  ghost function EagerStore(view: map<Key, seq<Word>>, key: Key, i: nat, value: U64): map<Key, seq<Word>> {
    if key in view && i < |view[key]| then view[key := view[key][i := value]] else view
  }

  /** A 64-bit store by ring 3 to word i of a private page: done directly when every word on the walk
      allows it, after a repair when the leaf is present but they do not; otherwise the machine halts. */
  method Ring3Store(k: Kernel, root: nat, vaddr: nat, i: nat, value: U64) returns (ok: bool)
    requires k.Valid() && IsRoot(k.role, root) && Private(vaddr / 4096) && i < 512
    modifies k`mem, k`role, k`flat, k.frames, k.frames.bitmap, k.cow`refs, k.cow.slots
    ensures k.Valid() && SameRoots(old(k.role), k.role)
    ensures View(k.mem, k.flat) ==
            if ok then EagerStore(old(View(k.mem, k.flat)), Key(root, vaddr / 4096), i, value) else old(View(k.mem, k.flat))
    ensures var key := Key(root, vaddr / 4096);
      && (ok <==> key in old(k.flat) && ((old(k.flat)[key].writable && old(k.flat)[key].user)
                                         || (Tracked(old(k.cow.refs), old(k.flat)[key].frame) && old(k.frames.free) != {})))
      && Rehoused(old(k.flat), old(k.cow.refs), old(k.frames.free), k.flat, k.cow.refs, k.frames.free, key,
                  ok && Tracked(old(k.cow.refs), old(k.flat)[key].frame))
    ensures SameBooks(old(k.role), k.role)
    ensures old(Storable(k.flat, k.cow.refs)) ==> Storable(k.flat, k.cow.refs)
  {
    ghost var v := vaddr / 4096;
    var leaf := LeafOf(k, root, vaddr);
    if !leaf.present {
      return false;
    }
    var may := MayStore(k, root, vaddr);
    if may {
      assert ReadOnlyAt(k.flat, k.cow.refs, Key(root, v));
      StoreWord(k, Key(root, v), leaf.frame, i, value);
      return true;
    }
    ok := RepairAndStore(k, root, vaddr, i, value);
    if ok {
      OnlyAtStorable(old(k.flat), old(k.cow.refs), k.flat, k.cow.refs, Key(root, v));
    }
  }

  /** The store retried after the fault handler returned. */
  method RepairAndStore(k: Kernel, root: nat, vaddr: nat, i: nat, value: U64) returns (ok: bool)
    requires k.Valid() && IsRoot(k.role, root) && Private(vaddr / 4096) && i < 512
    modifies k`mem, k`role, k`flat, k.frames, k.frames.bitmap, k.cow`refs, k.cow.slots
    ensures k.Valid() && SameRoots(old(k.role), k.role)
    ensures View(k.mem, k.flat) ==
            if ok then EagerStore(old(View(k.mem, k.flat)), Key(root, vaddr / 4096), i, value) else old(View(k.mem, k.flat))
    ensures var key := Key(root, vaddr / 4096);
      && (ok <==> key in old(k.flat) && Tracked(old(k.cow.refs), old(k.flat)[key].frame) && old(k.frames.free) != {})
      && (ok ==> key in k.flat && k.flat[key].writable && k.flat[key].user)
      && Rehoused(old(k.flat), old(k.cow.refs), old(k.frames.free), k.flat, k.cow.refs, k.frames.free, key, ok)
    ensures SameBooks(old(k.role), k.role)
  {
    ok := RepairWriteFault(k, root, vaddr);
    if ok {
      var leaf := LeafOf(k, root, vaddr);
      StoreWord(k, Key(root, vaddr / 4096), leaf.frame, i, value);
    }
  }

  /** The leaf the processor's own walk finds. */
  method LeafOf(k: Kernel, root: nat, vaddr: nat) returns (w: U64)
    requires k.Trees() && IsRoot(k.role, root) && Private(vaddr / 4096)
    ensures w.present <==> Key(root, vaddr / 4096) in k.flat
    ensures w.present ==> w == k.flat[Key(root, vaddr / 4096)]
  {
    FlatLookup(k.mem, k.role, k.flat, root, vaddr / 4096);
    w := Lookup(k.mem, root, vaddr / 4096);
  }

  /** Whether every word the processor meets on its walk lets ring 3 store. */
  method MayStore(k: Kernel, root: nat, vaddr: nat) returns (may: bool)
    requires k.Trees() && IsRoot(k.role, root) && Private(vaddr / 4096)
    ensures may <==> Allowed(k.flat, root, vaddr / 4096).write
    ensures var key := Key(root, vaddr / 4096);
      may <==> key in k.flat && k.flat[key].writable && k.flat[key].user
  {
    FlatLookup(k.mem, k.role, k.flat, root, vaddr / 4096);
    PrivateRights(k.mem, k.role, k.flat, root, vaddr / 4096);
    may := Ring3(k.mem, root, vaddr / 4096).write;
  }

  method StoreWord(k: Kernel, ghost key: Key, frame: nat, i: nat, value: U64)
    requires k.Valid() && i < 512 && key in k.flat && k.flat[key].writable && frame == k.flat[key].frame
    modifies k`mem
    ensures k.Valid()
    ensures View(k.mem, k.flat) == EagerStore(old(View(k.mem, k.flat)), key, i, value)
  {
    assert LeafAt(k.flat, k.role, key);
    ghost var page := k.mem[frame][i := value];
    DataState(k.mem, k.role, k.flat, k.frames.free, k.boot, frame, page);
    StoreView(k.mem, k.flat, k.cow.refs, key, page);
    k.mem := k.mem[frame := k.mem[frame][i := value]];
  }

  /** A writable leaf is the only leaf on its frame, so a store is seen through it alone. */
  lemma StoreView(mem: Memory, flat: Flat, refs: map<Ptr, int>, key: Key, page: Page)
    requires RefsOk(flat, refs) && key in flat && flat[key].writable && flat[key].frame < |mem|
    ensures View(mem[flat[key].frame := page], flat) == View(mem, flat)[key := page]
  {
    assert ReadOnlyAt(flat, refs, key);
    forall l | l in flat && flat[l].frame == flat[key].frame ensures l == key {
      assert l != key ==> SameFrame(flat, key, l);
    }
  }

  /** A free frame put into service to hold a page; 0 when none is left. */
  method TakeDataFrame(k: Kernel) returns (frame: nat)
    requires k.Valid()
    modifies k`role, k.frames, k.frames.bitmap
    ensures k.Trees()
    ensures frame == 0 ==> old(k.frames.free) == {} && k.frames.free == {} && k.role == old(k.role)
    ensures frame != 0 ==> frame in old(k.frames.free) && frame < TOTAL_FRAMES && frame !in old(k.role)
    ensures frame != 0 ==> k.role == old(k.role)[frame := Data] && k.frames.free == old(k.frames.free) - {frame}
    ensures SameBooks(old(k.role), k.role)
  {
    frame := k.frames.AllocFrame();
    if frame != 0 {
      assert PartitionAt(k.role, old(k.frames.free), frame);
      AdoptData(k.mem, k.role, k.flat, old(k.frames.free), k.boot, frame, k.mem[frame]);
      assert k.mem[frame := k.mem[frame]] == k.mem;
      PassiveJoins(k.role, frame, Data);
      k.role := k.role[frame := Data];
    }
  }

  /** The tables an attempt to map page v leaves: all of its path, or the directory alone if frames ran out behind it. */
  ghost function MapSpots(ok: bool, free: nat, root: nat, v: nat): set<Spot> {
    if ok then {Spot(2, root, I3(v)), Spot(1, root, v / 512)} else if free <= 1 then {} else {Spot(2, root, I3(v))}
  }

  /** The books after such an attempt: no frame went to the kernel, and what came in are those tables. */
  ghost predicate MapBooked(role0: map<nat, Role>, role: map<nat, Role>, ok: bool, free: nat, root: nat, v: nat) {
    && KernelFrames(role) == KernelFrames(role0) && Extends(role0, role, root)
    && Spots(role) == Spots(role0) + MapSpots(ok, free, root, v)
  }

  ghost function MapBooks(role0: map<nat, Role>, role: map<nat, Role>, ok: bool, free: nat, root: nat, v: nat): Track {
    if forall x: nat {:trigger Look(x)} :: Look(x) ==> MapBooked(role0, role, ok, free, root, v) then OnTrack else Astray
  }

  lemma MappedBooks(mem0: Memory, role0: map<nat, Role>, frame: nat, free0: set<nat>, mem: Memory, role: map<nat, Role>, free: set<nat>,
                    ok: bool, root: nat, v: nat)
    requires frame !in role0 && Grown(mem0, role0[frame := Data], mem, role) && NewOf(role0[frame := Data], role, root)
    requires if ok then PathBuilt(role0[frame := Data], free0, role, free, root, v) else PathStalled(role0[frame := Data], free0, role, root, v)
    ensures MapBooks(role0, if ok then role else role - {frame}, ok, |free0| + 1, root, v) == OnTrack
  {
    var role1, role' := role0[frame := Data], if ok then role else role - {frame};
    assert frame in role && role[frame].Data? by {
      assert GrownAt(mem0, role1, mem, role, frame);
    }
    assert SameBooks(role0, role1) && SameBooks(role, role') by {
      PassiveJoins(role0, frame, Data);
      DataLeaves(role, frame);
    }
    assert KernelFrames(role) == KernelFrames(role1) && Extends(role1, role, root) by {
      GrownKernel(mem0, role1, mem, role);
      GrownExtends(mem0, role1, mem, role, root);
    }
    BooksExtend(role0, role1, role, role', root);
    assert MapBooked(role0, role', ok, |free0| + 1, root, v);
  }

  lemma BooksExtend(role0: map<nat, Role>, role1: map<nat, Role>, role: map<nat, Role>, role': map<nat, Role>, root: nat)
    requires SameBooks(role0, role1) && SameBooks(role, role') && Extends(role1, role, root)
    ensures Extends(role0, role', root)
  {
    forall f ensures f in Structure(role0) ==> f in Structure(role') && role'[f] == role0[f] {
      assert f in Structure(role0) ==> Structure(role1)[f] == role0[f] && Structure(role')[f] == role[f];
    }
    forall f | f in Structure(role') && f !in Structure(role0) ensures (f == root && role'[f].Root?) || (role'[f].Table? && role'[f].root == root) {
      assert Structure(role)[f] == role'[f];
    }
  }

  /** One page of a program image or a stack: a fresh frame mapped user-writable. */
  method MapFreshPage(k: Kernel, root: nat, vaddr: nat, nx: bool) returns (ok: bool)
    requires k.Valid() && IsRoot(k.role, root) && Private(vaddr / 4096) && Key(root, vaddr / 4096) !in k.flat
    modifies k`mem, k`role, k`flat, k.frames, k.frames.bitmap
    ensures k.Valid() && SameRoots(old(k.role), k.role)
    ensures var key := Key(root, vaddr / 4096);
      if ok then key in k.flat && View(k.mem, k.flat) == old(View(k.mem, k.flat))[key := PageAt(k.mem, k.flat[key].frame)]
      else k.flat == old(k.flat) && View(k.mem, k.flat) == old(View(k.mem, k.flat))
    ensures ok <==> |old(k.frames.free)| > old(Unbuilt(k.role, root, vaddr / 4096))
    ensures MapBooks(old(k.role), k.role, ok, |old(k.frames.free)|, root, vaddr / 4096) == OnTrack
    ensures var key := Key(root, vaddr / 4096);
      ok ==> k.flat == old(k.flat)[key := k.flat[key]] && k.flat[key] == Word(nx, k.flat[key].frame, 0, true, true, true)
             && |k.frames.free| == |old(k.frames.free)| - old(Unbuilt(k.role, root, vaddr / 4096)) - 1
             && k.flat[key].frame !in Mapped(old(k.flat))
  {
    var frame := TakeDataFrame(k);
    if frame == 0 {
      return false;
    }
    NotMapped(k.flat, old(k.role), frame);
    ok := MapDataFrame(k, root, vaddr, frame, nx, old(k.role));
  }

  /** Maps a frame just put into service, or gives it back. */
  method MapDataFrame(k: Kernel, root: nat, vaddr: nat, frame: nat, nx: bool, ghost role0: map<nat, Role>) returns (ok: bool)
    requires k.Trees() && k.cow.Valid() && TablesOk(k.mem, role0) && LeavesOk(k.flat, role0) && RefsOk(k.flat, k.cow.refs)
    requires frame !in role0 && frame < TOTAL_FRAMES && k.role == role0[frame := Data]
    requires IsRoot(k.role, root) && Private(vaddr / 4096) && Key(root, vaddr / 4096) !in k.flat
    modifies k`mem, k`role, k`flat, k.frames, k.frames.bitmap
    ensures k.Valid() && SameRoots(role0, k.role)
    ensures var key := Key(root, vaddr / 4096);
      if ok then
        && k.flat == old(k.flat)[key := MakePte(Ptr(false, frame), USER_WRITABLE.(nx := nx))]
        && View(k.mem, k.flat) == old(View(k.mem, k.flat))[key := PageAt(k.mem, frame)]
        && |k.frames.free| == |old(k.frames.free)| - old(Unbuilt(k.role, root, vaddr / 4096))
      else k.flat == old(k.flat) && View(k.mem, k.flat) == old(View(k.mem, k.flat))
    ensures ok <==> |old(k.frames.free)| >= old(Unbuilt(k.role, root, vaddr / 4096))
    ensures MapBooks(role0, k.role, ok, |old(k.frames.free)| + 1, root, vaddr / 4096) == OnTrack
  {
    ghost var w := MakePte(Ptr(false, frame), USER_WRITABLE.(nx := nx));
    ok := k.MapPageIn(root, vaddr, Ptr(false, frame), USER_WRITABLE.(nx := nx));
    MappedBooks(old(k.mem), role0, frame, old(k.frames.free), k.mem, k.role, k.frames.free, ok, root, vaddr / 4096);
    if ok {
      NewPage(old(k.mem), role0, old(k.flat), k.cow.refs, Key(root, vaddr / 4096), w, k.mem, k.role);
    } else {
      NoNewPage(old(k.mem), role0, k.flat, frame, k.mem, k.role);
      assert GrownAt(old(k.mem), role0[frame := Data], k.mem, k.role, frame);
      RetireFrame(k, Ptr(false, frame));
    }
  }

  /** Nothing but new tables. */
  lemma NoNewPage(mem: Memory, role: map<nat, Role>, flat: Flat, f: nat, mem': Memory, role1: map<nat, Role>)
    requires TablesOk(mem, role) && LeavesOk(flat, role) && f !in role && f < TOTAL_FRAMES
    requires Grown(mem, role[f := Data], mem', role1)
    ensures SameRoots(role, role1 - {f}) && LeavesOk(flat, role1 - {f}) && View(mem', flat) == View(mem, flat)
  {
    GrownMeans(mem, role[f := Data], mem', role1);
    assert GrownAt(mem, role[f := Data], mem', role1, f);
    var role' := role1 - {f};
    forall r: nat ensures IsRoot(role', r) <==> IsRoot(role, r) {
      assert IsRoot(role1, r) <==> IsRoot(role[f := Data], r);
    }
    forall g ensures DataAt(flat, role', g) {
      assert DataAt(flat, role, g) && GrownAt(mem, role[f := Data], mem', role1, g);
    }
    forall k ensures LeafAt(flat, role', k) {
      assert LeafAt(flat, role, k) && (k in flat ==> GrownAt(mem, role[f := Data], mem', role1, flat[k].frame));
    }
    forall k | k in flat ensures LeafAt(flat, role, k) { }
  }

  /** A new leaf on a fresh frame. */
  lemma NewPage(mem: Memory, role: map<nat, Role>, flat: Flat, refs: map<Ptr, int>, key: Key, w: U64,
                mem': Memory, role': map<nat, Role>)
    requires TablesOk(mem, role) && LeavesOk(flat, role) && RefsOk(flat, refs) && key !in flat
    requires w.frame !in role && w.frame < TOTAL_FRAMES
    requires Grown(mem, role[w.frame := Data], mem', role')
    ensures SameRoots(role, role') && LeavesOk(flat[key := w], role') && RefsOk(flat[key := w], refs)
    ensures View(mem', flat[key := w]) == View(mem, flat)[key := PageAt(mem', w.frame)]
  {
    UnusedFrame(flat, role, refs, w.frame);
    AddKeepsRefs(flat, refs, key, w);
    GrownMeans(mem, role[w.frame := Data], mem', role');
    NewPageLeaves(mem, flat, role, key, w, mem', role');
    forall k | k in flat ensures LeafAt(flat, role, k) { }
  }

  lemma NewPageLeaves(mem: Memory, flat: Flat, role: map<nat, Role>, key: Key, w: U64, mem': Memory, role': map<nat, Role>)
    requires LeavesOk(flat, role) && key !in flat && w.frame !in role
    requires Grown(mem, role[w.frame := Data], mem', role')
    ensures LeavesOk(flat[key := w], role')
  {
    var flat' := flat[key := w];
    forall f ensures DataAt(flat', role', f) {
      assert DataAt(flat, role, f) && GrownAt(mem, role[w.frame := Data], mem', role', f);
      RefsAfterMap(flat, key, w, f);
      if f == w.frame { assert key in Refs(flat', f); }
    }
    forall k ensures LeafAt(flat', role', k) {
      assert LeafAt(flat, role, k) && (k in flat' ==> GrownAt(mem, role[w.frame := Data], mem', role', flat'[k].frame));
    }
  }
}
