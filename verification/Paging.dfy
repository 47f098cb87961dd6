/** The kernel's memory state and the routines that edit it: table creation, mapping and
    translation, copy-on-write fork, write-fault repair and address-space teardown. */
module Paging {
  import opened PageModel
  import opened Frames
  import opened Cow
  import opened CowModel

  /** The boot-time PML4, and the entries of its PDPT for the identity map and for the heap. */
  datatype Boot = Boot(root: nat, low: U64, heap: U64)

  /** Frame 0 and the boot-time tables belong to the kernel, whose two entries stay, and every space has them. */
  ghost predicate KernelOk(mem: Memory, role: map<nat, Role>, boot: Boot) {
    && 0 in role && role[0].Kernel?
    && boot.root in role && role[boot.root].Kernel?
    && Pdpt(mem, boot.root) in role && role[Pdpt(mem, boot.root)].Kernel?
    && Entry(mem, Pdpt(mem, boot.root), 0) == boot.low && Entry(mem, Pdpt(mem, boot.root), 1) == boot.heap
    && (forall r {:trigger SharesAt(mem, role, boot, r)} :: SharesAt(mem, role, boot, r))
  }

  /** A space has the kernel's two entries, out of ring 3's reach, and nothing beyond its first 512 GB. */
  ghost predicate SharesAt(mem: Memory, role: map<nat, Role>, boot: Boot, r: nat) {
    IsRoot(role, r) ==>
      && Entry(mem, Pdpt(mem, r), 0) == Supervisor(boot.low) && Entry(mem, Pdpt(mem, r), 1) == Supervisor(boot.heap)
      && forall i :: 1 <= i < 512 ==> !Entry(mem, r, i).present
  }

  /** What a write may not change without the kernel's entries noticing. */
  ghost predicate SteadyAt(mem: Memory, role: map<nat, Role>, mem': Memory, role': map<nat, Role>, f: nat) {
    f in role && f < |mem| == |mem'| ==>
      && (role[f].Kernel? ==> f in role' && role'[f].Kernel? && mem'[f] == mem[f])
      && (role[f].Root? ==> mem'[f] == mem[f])
      && (role[f].Table? && role[f].level == 3 ==> mem'[f][0] == mem[f][0] && mem'[f][1] == mem[f][1])
  }

  /** Then every space that was there still has the kernel's entries. */
  lemma KernelStays(mem: Memory, role: map<nat, Role>, boot: Boot, mem': Memory, role': map<nat, Role>)
    requires TablesOk(mem, role) && KernelOk(mem, role, boot) && |mem'| == |mem|
    requires forall f {:trigger SteadyAt(mem, role, mem', role', f)} :: SteadyAt(mem, role, mem', role', f)
    requires forall r: nat :: IsRoot(role', r) && !IsRoot(role, r) ==> SharesAt(mem', role', boot, r)
    ensures KernelOk(mem', role', boot)
  {
    assert SteadyAt(mem, role, mem', role', 0) && SteadyAt(mem, role, mem', role', boot.root)
        && SteadyAt(mem, role, mem', role', Pdpt(mem, boot.root));
    forall r ensures SharesAt(mem', role', boot, r) {
      assert SharesAt(mem, role, boot, r);
      if IsRoot(role, r) && IsRoot(role', r) {
        WalkRoles(mem, role, r, LO);
        assert SteadyAt(mem, role, mem', role', r) && SteadyAt(mem, role, mem', role', Pdpt(mem, r));
        assert forall i :: 0 <= i < 512 ==> Entry(mem', r, i) == Entry(mem, r, i);
      }
    }
  }

  ghost predicate GrownAt(mem0: Memory, role0: map<nat, Role>, mem: Memory, role: map<nat, Role>, f: nat)
    requires |mem| == |mem0| == TOTAL_FRAMES
  {
    && (f in role0 ==> f in role && role[f] == role0[f])
    && (f in role && f !in role0 ==> role[f].Table?)
    && (f in role0 && f < TOTAL_FRAMES && !role0[f].Table? ==> mem[f] == mem0[f])
  }

  /** New tables may have appeared; nothing else changed its role or its contents. */
  ghost predicate Grown(mem0: Memory, role0: map<nat, Role>, mem: Memory, role: map<nat, Role>) {
    && |mem| == |mem0| == TOTAL_FRAMES
    && (forall f {:trigger GrownAt(mem0, role0, mem, role, f)} :: GrownAt(mem0, role0, mem, role, f))
  }

  /** The frames in use that hold no page: the kernel's, the roots and the tables. */
  ghost function Structure(role: map<nat, Role>): map<nat, Role> {
    map f | f in role && !role[f].Data? :: role[f]
  }

  /** Every frame that came into service is a table of one space. */
  ghost predicate NewOf(role0: map<nat, Role>, role: map<nat, Role>, root: nat) {
    forall f {:trigger f in role} :: f in role && f !in role0 ==> role[f].Table? && role[f].root == root
  }

  /** No frame but pages' went out of service, and what came in is a space's root or one of its tables. */
  ghost predicate Extends(role0: map<nat, Role>, role: map<nat, Role>, root: nat) {
    && (forall f :: f in Structure(role0) ==> f in Structure(role) && role[f] == role0[f])
    && (forall f :: f in Structure(role) && f !in Structure(role0) ==>
          (f == root && role[f].Root?) || (role[f].Table? && role[f].root == root))
  }

  lemma GrownExtends(mem0: Memory, role0: map<nat, Role>, mem: Memory, role: map<nat, Role>, root: nat)
    requires Grown(mem0, role0, mem, role) && NewOf(role0, role, root)
    ensures Extends(role0, role, root)
  {
    forall f ensures f in Structure(role0) ==> f in Structure(role) && role[f] == role0[f] {
      assert GrownAt(mem0, role0, mem, role, f);
    }
    forall f | f in Structure(role) && f !in Structure(role0) ensures role[f].Table? && role[f].root == root {
      assert GrownAt(mem0, role0, mem, role, f);
    }
  }

  /** The frames that are never given back. */
  ghost function KernelFrames(role: map<nat, Role>): set<nat> {
    set f | f in role && role[f].Kernel?
  }

  lemma GrownKernel(mem0: Memory, role0: map<nat, Role>, mem: Memory, role: map<nat, Role>)
    requires Grown(mem0, role0, mem, role)
    ensures KernelFrames(role) == KernelFrames(role0)
  {
    forall f: nat ensures f in KernelFrames(role) <==> f in KernelFrames(role0) {
      assert GrownAt(mem0, role0, mem, role, f);
    }
  }

  lemma GrownSelf(mem: Memory, role: map<nat, Role>)
    requires |mem| == TOTAL_FRAMES
    ensures Grown(mem, role, mem, role)
  {
  }

  /** The page tables are well-formed trees, disjoint from each other and from data, that
      denote the flat map; every frame is free or accounted for. */
  ghost predicate StateOk(mem: Memory, role: map<nat, Role>, flat: Flat, free: set<nat>, boot: Boot) {
    && TablesOk(mem, role)
    && FlatOk(mem, role, flat)
    && Partition(role, free)
    && KernelOk(mem, role, boot)
  }

  lemma FlatLookup(mem: Memory, role: map<nat, Role>, flat: Flat, r: nat, v: nat)
    requires TablesOk(mem, role) && FlatOk(mem, role, flat) && IsRoot(role, r) && Private(v)
    ensures Key(r, v) in flat <==> Lookup(mem, r, v).present
    ensures Key(r, v) in flat ==> flat[Key(r, v)] == Lookup(mem, r, v)
    ensures Key(r, v) in flat ==> HasPt(mem, r, v)
  {
    assert FlatAt(mem, role, flat, r, v);
    WalkRoles(mem, role, r, v);
  }

  // ---------- what ring 3 reaches ----------

  /** What a process may do with a page: what the leaf of a private page allows, and elsewhere nothing. */
  ghost function Allowed(flat: Flat, r: nat, v: nat): Rights {
    if Key(r, v) in flat then RightsOf(flat[Key(r, v)]) else NOTHING
  }

  /** On its way to a private page ring 3 is stopped by nothing but the page's own leaf. */
  lemma PrivateRights(mem: Memory, role: map<nat, Role>, flat: Flat, r: nat, v: nat)
    requires TablesOk(mem, role) && FlatOk(mem, role, flat) && IsRoot(role, r) && Private(v)
    ensures Ring3(mem, r, v) == Allowed(flat, r, v)
  {
    FlatLookup(mem, role, flat, r, v);
    WalkRoles(mem, role, r, v);
    assert LinkOk(mem, role, r, 0) && LinkOk(mem, role, Pdpt(mem, r), I3(v));
    if HasPd(mem, r, v) {
      assert LinkOk(mem, role, Pd(mem, r, v), I2(v));
    }
  }

  /** Of the whole 48-bit address space, ring 3 reaches exactly the private pages whose leaf lets it. */
  lemma Ring3Exact(mem: Memory, role: map<nat, Role>, flat: Flat, free: set<nat>, boot: Boot, r: nat, v: nat)
    requires StateOk(mem, role, flat, free, boot) && IsRoot(role, r) && v < 512 * HI
    ensures Ring3(mem, r, v) == Allowed(flat, r, v)
  {
    if Private(v) {
      PrivateRights(mem, role, flat, r, v);
    } else {
      assert SharesAt(mem, role, boot, r) && FlatAt(mem, role, flat, r, v);
      assert v < HI ==> v / HI == 0 && I3(v) % 512 < 2;
      assert v >= HI ==> 1 <= v / HI < 512;
    }
  }

  /** Kernel addresses are looked up in every space through the page directories of the boot-time one. */
  lemma KernelAlike(mem: Memory, role: map<nat, Role>, flat: Flat, free: set<nat>, boot: Boot, r: nat, v: nat)
    requires StateOk(mem, role, flat, free, boot) && IsRoot(role, r) && v < LO && Entry(mem, boot.root, 0).present
    ensures HasPd(mem, r, v) == HasPd(mem, boot.root, v) && Pd(mem, r, v) == Pd(mem, boot.root, v)
    ensures Lookup(mem, r, v) == Lookup(mem, boot.root, v)
  {
    assert SharesAt(mem, role, boot, r);
    WalkRoles(mem, role, r, LO);
    assert I3(v) == 0 || I3(v) == 1;
  }

  /** Storing a leaf. */
  lemma LeafState(mem: Memory, role: map<nat, Role>, flat: Flat, free: set<nat>, boot: Boot, root: nat, v: nat, w: U64)
    requires StateOk(mem, role, flat, free, boot) && IsRoot(role, root) && Private(v) && w.present && HasPt(mem, root, v)
    ensures var pt := Pt(mem, root, v);
      && pt in role && role[pt].Table? && pt < TOTAL_FRAMES
      && StateOk(mem[pt := mem[pt][I1(v) := w]], role, flat[Key(root, v) := w], free, boot)
  {
    WalkRoles(mem, role, root, v);
    LeafWrite(mem, role, root, v, w);
    var pt := Pt(mem, root, v);
    var mem' := mem[pt := mem[pt][I1(v) := w]];
    LeafFlat(mem, role, flat, mem', root, v, w);
    KernelStays(mem, role, boot, mem', role);
  }

  lemma LeafFlat(mem: Memory, role: map<nat, Role>, flat: Flat, mem': Memory, root: nat, v: nat, w: U64)
    requires FlatOk(mem, role, flat) && IsRoot(role, root) && Private(v) && w.present
    requires forall r': nat, v': nat {:trigger Lookup(mem', r', v')} :: IsRoot(role, r') && Private(v') ==>
            Lookup(mem', r', v') == if r' == root && v' == v then w else Lookup(mem, r', v')
    ensures FlatOk(mem', role, flat[Key(root, v) := w])
  {
    var flat' := flat[Key(root, v) := w];
    forall r': nat, v': nat ensures FlatAt(mem', role, flat', r', v') {
      assert FlatAt(mem, role, flat, r', v');
    }
  }

  /** Hanging a new table. */
  lemma LinkState(mem: Memory, role: map<nat, Role>, flat: Flat, free: set<nat>, boot: Boot, f: nat, i: nat, newFrame: nat)
    requires StateOk(mem, role, flat, free, boot) && f in role && i < 512 && newFrame in free && newFrame < TOTAL_FRAMES
    requires role[f].Table? && ChildRole(f, role[f], i).Some? && !mem[f][i].present
    ensures var mem' := mem[newFrame := ZERO_PAGE][f := mem[f][i := TableEntry(newFrame)]];
      var role' := role[newFrame := ChildRole(f, role[f], i).value];
      StateOk(mem', role', flat, free - {newFrame}, boot) && Grown(mem, role, mem', role')
  {
    assert PartitionAt(role, free, newFrame);
    PartitionMove(role, free, role[newFrame := ChildRole(f, role[f], i).value], free - {newFrame}, newFrame);
    LinkTable(mem, role, f, i, newFrame);
    var mem' := mem[newFrame := ZERO_PAGE][f := mem[f][i := TableEntry(newFrame)]];
    var role' := role[newFrame := ChildRole(f, role[f], i).value];
    SameLookupsKeepFlat(mem, role, flat, mem', role');
    KernelStays(mem, role, boot, mem', role');
  }

  lemma GrownTrans(mem0: Memory, role0: map<nat, Role>, mem1: Memory, role1: map<nat, Role>, mem2: Memory, role2: map<nat, Role>)
    requires Grown(mem0, role0, mem1, role1) && Grown(mem1, role1, mem2, role2)
    ensures Grown(mem0, role0, mem2, role2)
  {
    forall f ensures GrownAt(mem0, role0, mem2, role2, f) {
      assert GrownAt(mem0, role0, mem1, role1, f) && GrownAt(mem1, role1, mem2, role2, f);
    }
  }

  lemma SameLookupsKeepFlat(mem: Memory, role: map<nat, Role>, flat: Flat, mem': Memory, role': map<nat, Role>)
    requires FlatOk(mem, role, flat)
    requires forall r: nat :: IsRoot(role', r) <==> IsRoot(role, r)
    requires forall r: nat, v: nat {:trigger Lookup(mem', r, v)} :: IsRoot(role, r) && Private(v) ==> Lookup(mem', r, v) == Lookup(mem, r, v)
    ensures FlatOk(mem', role', flat)
  {
    forall r: nat, v: nat ensures FlatAt(mem', role', flat, r, v) {
      assert FlatAt(mem, role, flat, r, v);
    }
  }

  /** A page table's role places it on the walk of every page it covers. */
  lemma PathFromRole(mem: Memory, role: map<nat, Role>, root: nat, v: nat, pt: nat)
    requires TablesOk(mem, role) && Private(v) && pt in role
    requires role[pt].Table? && role[pt].level == 1 && role[pt].root == root && role[pt].base == v / 512
    ensures IsRoot(role, root)
    ensures HasPt(mem, root, v) && Pt(mem, root, v) == pt
  {
    var t1 := role[pt];
    assert HangsAt(mem, role, pt, t1);
    var pd := t1.parent;
    var t2 := role[pd];
    assert t1.base == t2.base * 512 + t1.index;
    assert HangsAt(mem, role, pd, t2);
    var pdpt := t2.parent;
    var t3 := role[pdpt];
    assert HangsAt(mem, role, pdpt, t3);
    assert t2.base == I3(v) && t1.index == I2(v);
  }

  ghost predicate Covers(role: map<nat, Role>, f: nat, level: nat, root: nat, base: nat) {
    f in role && role[f].Table? && role[f].level == level && role[f].root == root && role[f].base == base
  }

  lemma PdFromRole(mem: Memory, role: map<nat, Role>, root: nat, v: nat, pd: nat, i3: nat)
    requires TablesOk(mem, role) && Covers(role, pd, 2, root, i3) && I3(v) == i3 && 2 <= i3 < 512
    ensures Private(v) && IsRoot(role, root) && HasPd(mem, root, v) && Pd(mem, root, v) == pd
  {
    var t2 := role[pd];
    assert HangsAt(mem, role, pd, t2);
    assert HangsAt(mem, role, t2.parent, role[t2.parent]);
  }

  // ---------- which tables there are ----------

  /** The place of a table: its level, its space and the pages it covers. */
  datatype Spot = Spot(level: nat, root: nat, base: nat)

  ghost function Spots(role: map<nat, Role>): set<Spot> {
    set f | f in role && role[f].Table? :: Spot(role[f].level, role[f].root, role[f].base)
  }

  lemma SpotCovered(role: map<nat, Role>, x: Spot) returns (f: nat)
    requires x in Spots(role)
    ensures Covers(role, f, x.level, x.root, x.base)
  {
    f :| f in role && role[f].Table? && Spot(role[f].level, role[f].root, role[f].base) == x;
  }

  lemma CoveredSpot(role: map<nat, Role>, f: nat, level: nat, root: nat, base: nat)
    requires Covers(role, f, level, root, base)
    ensures Spot(level, root, base) in Spots(role)
  {
    assert Spot(role[f].level, role[f].root, role[f].base) == Spot(level, root, base);
  }

  /** How many tables lie between a root and a page's leaf that do not exist yet. */
  ghost function Unbuilt(role: map<nat, Role>, r: nat, v: nat): nat {
    if Spot(1, r, v / 512) in Spots(role) then 0 else if Spot(2, r, I3(v)) in Spots(role) then 1 else 2
  }

  /** No table of the space covers a private page. */
  ghost predicate Bare(role: map<nat, Role>, r: nat) {
    forall b: nat :: Spot(1, r, b) !in Spots(role) && Spot(2, r, b) !in Spots(role)
  }

  /** Every table belongs to a root. */
  lemma SpotHasRoot(mem: Memory, role: map<nat, Role>, x: Spot)
    requires TablesOk(mem, role) && x in Spots(role)
    ensures x.root in role
  {
    var f := SpotCovered(role, x);
    assert HangsAt(mem, role, f, role[f]);
    var g := role[f].parent;
    if role[g].Table? {
      assert HangsAt(mem, role, g, role[g]);
      var h := role[g].parent;
      if role[h].Table? {
        assert HangsAt(mem, role, h, role[h]);
      }
    }
  }

  /** The same frames are the kernel's, roots and tables. */
  ghost predicate SameBooks(role0: map<nat, Role>, role: map<nat, Role>) {
    Structure(role) == Structure(role0) && KernelFrames(role) == KernelFrames(role0) && Spots(role) == Spots(role0)
  }

  /** A frame that is no table comes into service. */
  lemma PassiveJoins(role: map<nat, Role>, f: nat, x: Role)
    requires f !in role && !x.Table?
    ensures Spots(role[f := x]) == Spots(role)
    ensures KernelFrames(role[f := x]) == KernelFrames(role) + if x.Kernel? then {f} else {}
    ensures x.Data? ==> Structure(role[f := x]) == Structure(role)
  {
    var role' := role[f := x];
    forall x: Spot ensures x in Spots(role') <==> x in Spots(role) {
      if x in Spots(role') {
        var g := SpotCovered(role', x);
        CoveredSpot(role, g, x.level, x.root, x.base);
      }
      if x in Spots(role) {
        var g := SpotCovered(role, x);
        CoveredSpot(role', g, x.level, x.root, x.base);
      }
    }
  }

  lemma TableJoins(role: map<nat, Role>, g: nat, t: Role)
    requires g !in role && t.Table?
    ensures KernelFrames(role[g := t]) == KernelFrames(role)
    ensures Spots(role[g := t]) == Spots(role) + {Spot(t.level, t.root, t.base)}
  {
    SpotAdded(role, g, t);
  }

  lemma DataLeaves(role: map<nat, Role>, f: nat)
    requires f in role && role[f].Data?
    ensures SameBooks(role, role - {f})
  {
    var role' := role - {f};
    assert role'[f := Data] == role;
    PassiveJoins(role', f, Data);
  }

  /** A new root with nothing but its PDPT. */
  lemma NewRootBare(mem: Memory, role: map<nat, Role>, root: nat, pdpt: nat, t: Role)
    requires TablesOk(mem, role) && root !in role && pdpt !in role && root != pdpt && t.Table? && t.level == 3
    ensures Bare(role[root := Root][pdpt := t], root)
  {
    var role' := role[root := Root][pdpt := t];
    forall x: Spot | x in Spots(role') && x.root == root ensures x.level == 3 {
      var f := SpotCovered(role', x);
      if f != pdpt {
        CoveredSpot(role, f, x.level, x.root, x.base);
        SpotHasRoot(mem, role, x);
      }
    }
  }

  /** The walk of a page finds exactly the tables there are. */
  lemma SpotIff(mem: Memory, role: map<nat, Role>, r: nat, v: nat)
    requires TablesOk(mem, role) && IsRoot(role, r) && Private(v)
    ensures HasPt(mem, r, v) <==> Spot(1, r, v / 512) in Spots(role)
    ensures HasPd(mem, r, v) <==> Spot(2, r, I3(v)) in Spots(role)
  {
    WalkRoles(mem, role, r, v);
    if HasPt(mem, r, v) {
      CoveredSpot(role, Pt(mem, r, v), 1, r, v / 512);
    }
    if HasPd(mem, r, v) {
      CoveredSpot(role, Pd(mem, r, v), 2, r, I3(v));
    }
    if Spot(1, r, v / 512) in Spots(role) {
      var f := SpotCovered(role, Spot(1, r, v / 512));
      PathFromRole(mem, role, r, v, f);
    }
    if Spot(2, r, I3(v)) in Spots(role) {
      var f := SpotCovered(role, Spot(2, r, I3(v)));
      PdFromRole(mem, role, r, v, f, I3(v));
    }
  }

  /** The tables of page v exist, each of the missing ones made from a free frame. */
  ghost predicate PathBuilt(role0: map<nat, Role>, free0: set<nat>, role: map<nat, Role>, free: set<nat>, r: nat, v: nat) {
    && Spots(role) == Spots(role0) + {Spot(2, r, I3(v)), Spot(1, r, v / 512)}
    && |free| == |free0| - Unbuilt(role0, r, v)
  }

  /** Frames ran out on the way to page v; the one there was, if any, is its page directory now. */
  ghost predicate PathStalled(role0: map<nat, Role>, free0: set<nat>, role: map<nat, Role>, r: nat, v: nat) {
    Spots(role) == if free0 == {} then Spots(role0) else Spots(role0) + {Spot(2, r, I3(v))}
  }

  /** Frame g, free before, has become a table. */
  ghost predicate NewTable(role0: map<nat, Role>, free0: set<nat>, role: map<nat, Role>, free: set<nat>, g: nat) {
    g !in role0 && g in role && role == role0[g := role[g]] && |free| == |free0| - 1
  }

  /** A table found or made at its place. */
  lemma TableStep(role: map<nat, Role>, role': map<nat, Role>, g: nat, t: Role)
    requires t.Table? && g in role' && role'[g] == t && (role' == role || (g !in role && role' == role[g := t]))
    ensures Spots(role') == Spots(role) + {Spot(t.level, t.root, t.base)}
  {
    CoveredSpot(role', g, t.level, t.root, t.base);
    if g !in role {
      SpotAdded(role, g, t);
    }
  }

  lemma SpotAdded(role: map<nat, Role>, g: nat, t: Role)
    requires g !in role && t.Table?
    ensures Spots(role[g := t]) == Spots(role) + {Spot(t.level, t.root, t.base)}
  {
    var role', new' := role[g := t], Spot(t.level, t.root, t.base);
    forall x: Spot ensures x in Spots(role') <==> x in Spots(role) || x == new' {
      if x in Spots(role) {
        var f := SpotCovered(role, x);
        CoveredSpot(role', f, x.level, x.root, x.base);
      }
      if x in Spots(role') {
        var f := SpotCovered(role', x);
        if f != g {
          CoveredSpot(role, f, x.level, x.root, x.base);
        }
      }
      CoveredSpot(role', g, t.level, t.root, t.base);
    }
  }

  lemma IndexBase(v: nat)
    ensures I3(v) * 512 + I2(v) == v / 512
  {
  }

  lemma VaddrIndices(vaddr: nat)
    requires Private(vaddr / 4096)
    ensures vaddr / 0x80_0000_0000 % 512 == 0
    ensures vaddr / 0x4000_0000 % 512 == I3(vaddr / 4096)
    ensures vaddr / 0x20_0000 % 512 == I2(vaddr / 4096)
    ensures vaddr / 4096 % 512 == I1(vaddr / 4096)
    ensures I3(vaddr / 4096) >= 2
  {
    var v := vaddr / 4096;
    assert vaddr / 0x20_0000 == v / 512;
    assert vaddr / 0x4000_0000 == v / 262144;
    assert vaddr / 0x80_0000_0000 == v / 0x800_0000;
  }

  // Where a long condition is only handed on, it is one value; what is in it is there for whoever looks.

  ghost predicate Look(x: nat) {
    true
  }

  datatype Track = OnTrack | Astray

  class Kernel {
    const frames: FrameAllocator
    const cow: CowTable
    /** The boot-time PML4 and the kernel's part of it. */
    const boot: Boot
    /** Physical memory. */
    var mem: Memory
    /** What each frame in use is for. */
    ghost var role: map<nat, Role>
    /** The private leaves of all address spaces. */
    ghost var flat: Flat

    /** The allocator and the table of shared frames are in order. */
    ghost predicate Works()
      reads this, frames, frames.bitmap, cow, cow.slots
    {
      frames.Valid() && cow.Valid()
    }

    ghost predicate Trees()
      reads this, frames, frames.bitmap
    {
      frames.Valid() && StateOk(mem, role, flat, frames.free, boot)
    }

    ghost predicate Valid()
      reads this, frames, frames.bitmap, cow, cow.slots
    {
      Trees() && cow.Valid() && LeavesOk(flat, role) && RefsOk(flat, cow.refs)
    }

    /** The state after boot: every frame that is not free is the kernel's, and there is
        no private mapping yet. */
    constructor (allocator: FrameAllocator, bootRoot: nat, memory: Memory)
      requires allocator.Valid() && |memory| == TOTAL_FRAMES
      requires bootRoot < TOTAL_FRAMES && bootRoot !in allocator.free
      requires memory[bootRoot][0].frame < TOTAL_FRAMES && memory[bootRoot][0].frame !in allocator.free
      ensures Valid() && flat == map[] && mem == memory && boot.root == bootRoot && frames == allocator
      ensures fresh(cow) && fresh(cow.slots)
    {
      frames := allocator;
      cow := new CowTable();
      var pdpt := memory[bootRoot][0].frame;
      boot := Boot(bootRoot, memory[pdpt][0], memory[pdpt][1]);
      mem := memory;
      role := map f: nat | 0 <= f < TOTAL_FRAMES && f !in allocator.free :: Role.Kernel;
      flat := map[];
    }

    method ZeroPage(f: nat)
      requires f < |mem|
      modifies `mem
      ensures mem == old(mem)[f := ZERO_PAGE]
    {
      var i := 0;
      while i < 512
        invariant 0 <= i <= 512 && |mem| == |old(mem)|
        invariant forall g :: 0 <= g < |mem| && g != f ==> mem[g] == old(mem)[g]
        invariant forall j :: 0 <= j < i ==> mem[f][j] == ZERO_WORD
      {
        mem := mem[f := mem[f][i := ZERO_WORD]];
        i := i + 1;
      }
      assert mem[f] == ZERO_PAGE;
    }

    /** The table at slot i of table f, created zeroed if absent; 0 when no frame is left. */
    method TableGetOrCreate(f: nat, i: nat) returns (g: nat)
      requires Trees() && f in role && i < 512 && ChildRole(f, role[f], i).Some?
      modifies `mem, `role, frames, frames.bitmap
      ensures Trees()
      ensures Grown(old(mem), old(role), mem, role)
      ensures NewOf(old(role), role, if old(role)[f].Root? then f else old(role)[f].root)
      ensures frames.free <= old(frames.free)
      ensures g != 0 ==> g in role && role[g] == ChildRole(f, old(role)[f], i).value
      ensures g == 0 <==> !old(mem[f][i].present) && old(frames.free) == {}
      ensures g == 0 ==> role == old(role) && frames.free == {}
      ensures old(mem[f][i].present) ==> g == old(mem[f][i].frame) != 0 && mem == old(mem) && role == old(role) && frames.free == old(frames.free)
      ensures !old(mem[f][i].present) && g != 0 ==> NewTable(old(role), old(frames.free), role, frames.free, g) && g < |mem| && mem[g] == ZERO_PAGE
    {
      var entry := mem[f][i];
      assert LinkOk(mem, role, f, i);
      if !entry.present {
        g := CreateTable(f, i);
      } else {
        GrownSelf(mem, role);
        g := entry.frame;
      }
    }

    method CreateTable(f: nat, i: nat) returns (g: nat)
      requires Trees() && f in role && i < 512 && ChildRole(f, role[f], i).Some? && !mem[f][i].present
      modifies `mem, `role, frames, frames.bitmap
      ensures Trees()
      ensures Grown(old(mem), old(role), mem, role)
      ensures NewOf(old(role), role, if old(role)[f].Root? then f else old(role)[f].root)
      ensures frames.free <= old(frames.free)
      ensures g != 0 ==> g in role && role[g] == ChildRole(f, old(role)[f], i).value
      ensures g == 0 <==> old(frames.free) == {}
      ensures g == 0 ==> role == old(role) && frames.free == {}
      ensures g != 0 ==> NewTable(old(role), old(frames.free), role, frames.free, g) && g < |mem| && mem[g] == ZERO_PAGE
    {
      g := frames.AllocFrame();
      if g == 0 {
        GrownSelf(mem, role);
      } else {
        assert PartitionAt(role, old(frames.free), f) && PartitionAt(role, old(frames.free), g);
        LinkState(mem, role, flat, old(frames.free), boot, f, i, g);
        ZeroPage(g);
        mem := mem[f := mem[f][i := TableEntry(g)]];
        role := role[g := ChildRole(f, role[f], i).value];
      }
    }

    /** Maps one private page. The flat map gains exactly this leaf, or is unchanged when
        a table could not be allocated. */
    method MapPageIn(root: nat, vaddr: nat, p: Ptr, flags: U64) returns (ok: bool)
      requires Trees() && IsRoot(role, root) && Private(vaddr / 4096) && p.frame < 0x8_0000_0000_0000
      modifies `mem, `role, `flat, frames, frames.bitmap
      ensures Trees()
      ensures flat == if ok then old(flat)[Key(root, vaddr / 4096) := MakePte(p, flags)] else old(flat)
      ensures Grown(old(mem), old(role), mem, role) && NewOf(old(role), role, root)
      ensures frames.free <= old(frames.free)
      ensures old(HasPt(mem, root, vaddr / 4096)) ==> ok && role == old(role) && frames.free == old(frames.free)
      ensures ok <==> |old(frames.free)| >= old(Unbuilt(role, root, vaddr / 4096))
      ensures !ok ==> frames.free == {} && PathStalled(old(role), old(frames.free), role, root, vaddr / 4096)
      ensures ok ==> PathBuilt(old(role), old(frames.free), role, frames.free, root, vaddr / 4096)
      ensures ok ==> Ring3(mem, root, vaddr / 4096) == RightsOf(MakePte(p, flags))
    {
      var i4 := vaddr / 0x80_0000_0000 % 512;
      var i3 := vaddr / 0x4000_0000 % 512;
      var i2 := vaddr / 0x20_0000 % 512;
      var i1 := vaddr / 4096 % 512;
      VaddrIndices(vaddr);
      ghost var v := vaddr / 4096;
      var pt := PageTableFor(root, i4, i3, i2, v);
      if pt == 0 {
        return false;
      }
      ghost var mem1, role1 := mem, role;
      assert GrownAt(old(mem), old(role), mem, role, root);
      SetLeaf(root, v, pt, i1, MakePte(p, flags));
      GrownTrans(old(mem), old(role), mem1, role1, mem, role);
      PrivateRights(mem, role, flat, root, v);
      return true;
    }

    /** Walks to the page table of page v, creating missing levels; 0 when no frame is left. */
    method PageTableFor(root: nat, i4: nat, i3: nat, i2: nat, ghost v: nat) returns (pt: nat)
      requires Trees() && IsRoot(role, root) && Private(v) && i4 == 0 && i3 == I3(v) && i2 == I2(v)
      modifies `mem, `role, frames, frames.bitmap
      ensures Trees()
      ensures Grown(old(mem), old(role), mem, role) && NewOf(old(role), role, root)
      ensures frames.free <= old(frames.free)
      ensures pt != 0 ==> HasPt(mem, root, v) && Pt(mem, root, v) == pt
      ensures old(HasPt(mem, root, v)) ==> pt != 0 && mem == old(mem) && role == old(role) && frames.free == old(frames.free)
      ensures pt != 0 <==> |old(frames.free)| >= old(Unbuilt(role, root, v))
      ensures pt == 0 ==> frames.free == {} && PathStalled(old(role), old(frames.free), role, root, v)
      ensures pt != 0 ==> PathBuilt(old(role), old(frames.free), role, frames.free, root, v)
    {
      WalkRoles(mem, role, root, v);
      pt := 0;
      var pdpt := TableGetOrCreate(root, i4);
      if pdpt != 0 {
        pt := PageTableBelow(root, pdpt, i3, i2, v);
      }
    }

    method PageTableBelow(ghost root: nat, pdpt: nat, i3: nat, i2: nat, ghost v: nat) returns (pt: nat)
      requires Trees() && IsRoot(role, root) && Private(v) && pdpt == Pdpt(mem, root) && i3 == I3(v) && i2 == I2(v)
      modifies `mem, `role, frames, frames.bitmap
      ensures Trees()
      ensures Grown(old(mem), old(role), mem, role) && NewOf(old(role), role, root)
      ensures frames.free <= old(frames.free)
      ensures pt != 0 ==> HasPt(mem, root, v) && Pt(mem, root, v) == pt
      ensures old(HasPt(mem, root, v)) ==> pt != 0 && mem == old(mem) && role == old(role) && frames.free == old(frames.free)
      ensures pt != 0 <==> |old(frames.free)| >= old(Unbuilt(role, root, v))
      ensures pt == 0 ==> frames.free == {} && PathStalled(old(role), old(frames.free), role, root, v)
      ensures pt != 0 ==> PathBuilt(old(role), old(frames.free), role, frames.free, root, v)
    {
      WalkRoles(mem, role, root, v);
      SpotIff(mem, role, root, v);
      IndexBase(v);
      pt := 0;
      ghost var mem1, role1 := mem, role;
      var pd := TableGetOrCreate(pdpt, i3);
      if pd != 0 {
        ghost var mem2, role2 := mem, role;
        TableStep(role1, role2, pd, Table(2, root, pdpt, i3, i3));
        pt := TableGetOrCreate(pd, i2);
        GrownTrans(mem1, role1, mem2, role2, mem, role);
        if pt != 0 {
          TableStep(role2, role, pt, Table(1, root, pd, i2, v / 512));
          PathFromRole(mem, role, root, v, pt);
        } else if old(frames.free) == {} {
          assert role2 == role1;
        }
      }
    }

    /** The final store of a mapping. */
    method SetLeaf(ghost root: nat, ghost v: nat, pt: nat, i1: nat, w: U64)
      requires Trees() && IsRoot(role, root) && Private(v) && w.present
      requires HasPt(mem, root, v) && Pt(mem, root, v) == pt && i1 == I1(v)
      modifies `mem, `flat
      ensures Trees() && pt in role && role[pt].Table? && pt < TOTAL_FRAMES
      ensures Grown(old(mem), role, mem, role)
      ensures flat == old(flat)[Key(root, v) := w]
    {
      LeafState(mem, role, flat, frames.free, boot, root, v, w);
      mem := mem[pt := mem[pt][i1 := w]];
      flat := flat[Key(root, v) := w];
    }

    /** The physical address a private address resolves to, or 0. */
    method TranslateIn(root: nat, vaddr: nat) returns (paddr: nat)
      requires Trees() && IsRoot(role, root) && Private(vaddr / 4096)
      ensures paddr == if Key(root, vaddr / 4096) in flat
                       then Address(Physical(flat[Key(root, vaddr / 4096)])) + vaddr % 4096
                       else 0
    {
      var i4 := vaddr / 0x80_0000_0000 % 512;
      var i3 := vaddr / 0x4000_0000 % 512;
      var i2 := vaddr / 0x20_0000 % 512;
      var i1 := vaddr / 4096 % 512;
      VaddrIndices(vaddr);
      ghost var v := vaddr / 4096;
      WalkRoles(mem, role, root, v);
      FlatLookup(mem, role, flat, root, v);
      paddr := 0;
      if !mem[root][i4].present {
        return;
      }
      var pdpt := mem[root][i4].frame;
      if !mem[pdpt][i3].present {
        return;
      }
      var pd := mem[pdpt][i3].frame;
      if !mem[pd][i2].present {
        return;
      }
      var pt := mem[pd][i2].frame;
      if !mem[pt][i1].present {
        return;
      }
      return Address(Physical(mem[pt][i1])) + vaddr % 4096;
    }
  }
}
