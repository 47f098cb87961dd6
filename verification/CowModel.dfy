/** The flat map of private pages, and what reference counting promises about it. */
module CowModel {
  import opened PageModel
  import opened Cow

  /** The private leaves of all address spaces, one entry per present leaf. */
  type Flat = map<Key, U64>

  /** The flat map agrees with the walk of page v in the tree rooted at r. */
  ghost predicate FlatAt(mem: Memory, role: map<nat, Role>, flat: Flat, r: nat, v: nat) {
    && (Key(r, v) in flat <==> IsRoot(role, r) && Private(v) && Lookup(mem, r, v).present)
    && (Key(r, v) in flat ==> flat[Key(r, v)] == Lookup(mem, r, v))
  }

  /** The trees in memory denote exactly the flat map. */
  ghost predicate FlatOk(mem: Memory, role: map<nat, Role>, flat: Flat) {
    forall r: nat, v: nat {:trigger FlatAt(mem, role, flat, r, v)} :: FlatAt(mem, role, flat, r, v)
  }

  /** The leaves that map frame f. */
  ghost function Refs(flat: Flat, f: nat): set<Key> {
    set k | k in flat && flat[k].frame == f
  }

  /** The frames some leaf maps. */
  ghost function Mapped(flat: Flat): set<nat> {
    set k | k in flat :: flat[k].frame
  }

  ghost predicate Tracked(refs: map<Ptr, int>, f: nat) {
    Ptr(false, f) in refs
  }

  // The clauses below are quantified predicates over one page or frame; each is used by
  // naming the page or frame it is wanted for.

  ghost predicate CountAt(flat: Flat, refs: map<Ptr, int>, p: Ptr) {
    p in refs ==> !p.nx && refs[p] >= 1 && refs[p] == |Refs(flat, p.frame)|
  }

  ghost predicate CountsOk(flat: Flat, refs: map<Ptr, int>) {
    forall p {:trigger CountAt(flat, refs, p)} :: CountAt(flat, refs, p)
  }

  ghost predicate ReadOnlyAt(flat: Flat, refs: map<Ptr, int>, k: Key) {
    k in flat && Tracked(refs, flat[k].frame) ==> !flat[k].writable
  }

  ghost predicate TrackedReadOnly(flat: Flat, refs: map<Ptr, int>) {
    forall k {:trigger ReadOnlyAt(flat, refs, k)} :: ReadOnlyAt(flat, refs, k)
  }

  ghost predicate SameFrame(flat: Flat, k: Key, l: Key) {
    k in flat && l in flat && k != l && flat[k].frame == flat[l].frame
  }

  ghost predicate UntrackedSole(flat: Flat, refs: map<Ptr, int>) {
    forall k, l {:trigger SameFrame(flat, k, l)} :: SameFrame(flat, k, l) ==> Tracked(refs, flat[k].frame)
  }

  /** Reference counts equal real references: a tracked frame's count is the number of leaves
      that map it and all of those are read-only; an untracked frame has at most one leaf. */
  ghost predicate RefsOk(flat: Flat, refs: map<Ptr, int>) {
    CountsOk(flat, refs) && TrackedReadOnly(flat, refs) && UntrackedSole(flat, refs)
  }

  ghost predicate LeafAt(flat: Flat, role: map<nat, Role>, k: Key) {
    k in flat ==> flat[k].frame in role && role[flat[k].frame].Data?
  }

  ghost predicate DataAt(flat: Flat, role: map<nat, Role>, f: nat) {
    f in role && role[f].Data? ==> Refs(flat, f) != {}
  }

  /** The data frames are exactly the frames that some leaf maps. */
  ghost predicate LeavesOk(flat: Flat, role: map<nat, Role>) {
    && (forall k {:trigger LeafAt(flat, role, k)} :: LeafAt(flat, role, k))
    && (forall f {:trigger DataAt(flat, role, f)} :: DataAt(flat, role, f))
  }

  ghost predicate PartitionAt(role: map<nat, Role>, free: set<nat>, f: nat) {
    && (f in role ==> f !in free)
    && (f < TOTAL_FRAMES ==> f in role || f in free)
  }

  /** Every frame is either free or has a role. */
  ghost predicate Partition(role: map<nat, Role>, free: set<nat>) {
    forall f {:trigger PartitionAt(role, free, f)} :: PartitionAt(role, free, f)
  }

  lemma PartitionMove(role: map<nat, Role>, free: set<nat>, role': map<nat, Role>, free': set<nat>, f: nat)
    requires Partition(role, free)
    requires forall g: nat :: g != f ==> (g in role' <==> g in role) && (g in free' <==> g in free)
    requires f in role' <==> f !in free'
    ensures Partition(role', free')
  {
    forall g ensures PartitionAt(role', free', g) { assert PartitionAt(role, free, g); }
  }

  // ---------- which pages can be stored to ----------

  /** A store to page k goes through: directly, or by way of the fault handler while a frame is free. */
  ghost predicate StorableAt(flat: Flat, refs: map<Ptr, int>, k: Key) {
    k in flat ==> (flat[k].writable && flat[k].user) || Tracked(refs, flat[k].frame)
  }

  /** No page is read-only for good. */
  ghost predicate Storable(flat: Flat, refs: map<Ptr, int>) {
    forall k {:trigger StorableAt(flat, refs, k)} :: StorableAt(flat, refs, k)
  }

  ghost predicate KeptAt(flat0: Flat, refs0: map<Ptr, int>, flat: Flat, refs: map<Ptr, int>, key: Key, k: Key) {
    k != key ==>
      && (k in flat <==> k in flat0)
      && (k in flat ==> flat[k] == flat0[k] && (Tracked(refs, flat[k].frame) <==> Tracked(refs0, flat[k].frame)))
  }

  /** Every page but one keeps its leaf, and its frame stays tracked or untracked. */
  ghost predicate OnlyAt(flat0: Flat, refs0: map<Ptr, int>, flat: Flat, refs: map<Ptr, int>, key: Key) {
    forall k {:trigger KeptAt(flat0, refs0, flat, refs, key, k)} :: KeptAt(flat0, refs0, flat, refs, key, k)
  }

  lemma OnlyAtStorable(flat0: Flat, refs0: map<Ptr, int>, flat: Flat, refs: map<Ptr, int>, key: Key)
    requires OnlyAt(flat0, refs0, flat, refs, key) && StorableAt(flat, refs, key)
    ensures Storable(flat0, refs0) ==> Storable(flat, refs)
  {
    if Storable(flat0, refs0) {
      forall k ensures StorableAt(flat, refs, k) {
        assert StorableAt(flat0, refs0, k) && KeptAt(flat0, refs0, flat, refs, key, k);
      }
    }
  }

  /** Moving page k to a frame of its own leaves the other sharers of its old frame tracked. */
  lemma RepairOnlyAt(flat: Flat, refs: map<Ptr, int>, k: Key, w: U64)
    requires RefsOk(flat, refs) && k in flat
    ensures OnlyAt(flat, refs, flat[k := w], Dropped(refs, Physical(flat[k])), k)
  {
    var p := Physical(flat[k]);
    var flat', refs' := flat[k := w], Dropped(refs, p);
    assert CountAt(flat, refs, p);
    forall l ensures KeptAt(flat, refs, flat', refs', k, l) {
      if l != k && l in flat && flat[l].frame == p.frame && p in refs {
        assert {k, l} <= Refs(flat, p.frame);
        SubsetCard({k, l}, Refs(flat, p.frame));
        assert |{k, l}| == 2;
      }
    }
  }

  function PageAt(mem: Memory, f: nat): seq<Word> {
    if f < |mem| then mem[f] else []
  }

  /** What a process reads: the page behind each of its private leaves. */
  ghost function View(mem: Memory, flat: Flat): map<Key, seq<Word>> {
    map k | k in flat :: PageAt(mem, flat[k].frame)
  }

  // ---------- counting ----------

  lemma RefsAfterMap(flat: Flat, k: Key, w: U64, f: nat)
    ensures Refs(flat[k := w], f) == Refs(flat, f) - {k} + (if w.frame == f then {k} else {})
  {
  }

  lemma RefsAfterRemove(flat: Flat, k: Key, f: nat)
    ensures Refs(flat - {k}, f) == Refs(flat, f) - {k}
  {
  }

  /** An untracked frame that is mapped is mapped once. */
  lemma SoleLeaf(flat: Flat, refs: map<Ptr, int>, k: Key)
    requires RefsOk(flat, refs) && k in flat && !Tracked(refs, flat[k].frame)
    ensures Refs(flat, flat[k].frame) == {k}
  {
    forall l | l in Refs(flat, flat[k].frame) ensures l == k {
      assert l != k ==> SameFrame(flat, k, l);
    }
  }

  /** The flat map after one page is shared: both leaves read-only on the parent's frame. */
  ghost function Shared(flat: Flat, parent: Key, child: Key): Flat
    requires parent in flat
  {
    flat[parent := ReadOnly(flat[parent])][child := ReadOnly(flat[parent])]
  }

  /** Sharing one page and tracking its frame keeps the counts exact. */
  lemma ShareKeepsRefs(flat: Flat, refs: map<Ptr, int>, parent: Key, child: Key)
    requires RefsOk(flat, refs) && parent in flat && child !in flat
    ensures RefsOk(Shared(flat, parent, child), TrackedOnce(refs, Physical(flat[parent])))
  {
    ShareKeepsCounts(flat, refs, parent, child);
    var p := Physical(flat[parent]);
    var flat', refs' := Shared(flat, parent, child), TrackedOnce(refs, p);
    forall k ensures ReadOnlyAt(flat', refs', k) {
      assert ReadOnlyAt(flat, refs, k);
      assert k in flat && k != parent && flat[k].frame == p.frame ==> SameFrame(flat, k, parent);
    }
    forall k, l | SameFrame(flat', k, l) ensures Tracked(refs', flat'[k].frame) {
      assert flat'[k].frame != p.frame ==> SameFrame(flat, k, l);
    }
  }

  lemma ShareKeepsCounts(flat: Flat, refs: map<Ptr, int>, parent: Key, child: Key)
    requires RefsOk(flat, refs) && parent in flat && child !in flat
    ensures CountsOk(Shared(flat, parent, child), TrackedOnce(refs, Physical(flat[parent])))
  {
    var p := Physical(flat[parent]);
    var refs' := TrackedOnce(refs, p);
    var flat' := Shared(flat, parent, child);
    assert parent in Refs(flat, p.frame);
    forall q ensures CountAt(flat', refs', q) {
      assert CountAt(flat, refs, q);
      SharedRefs(flat, parent, child, q.frame);
      if q == p && p !in refs { SoleLeaf(flat, refs, parent); }
    }
  }

  lemma SharedRefs(flat: Flat, parent: Key, child: Key, f: nat)
    requires parent in flat && child !in flat
    ensures child !in Refs(flat, f)
    ensures Refs(Shared(flat, parent, child), f) == Refs(flat, f) + if f == flat[parent].frame then {child} else {}
  {
  }

  lemma ShareUntrackedBreaksRefs(flat: Flat, refs: map<Ptr, int>, parent: Key, child: Key)
    requires parent in flat && child !in flat && !Tracked(refs, flat[parent].frame)
    ensures !RefsOk(Shared(flat, parent, child), refs)
  {
    var flat2 := Shared(flat, parent, child);
    assert SameFrame(flat2, parent, child);
  }

  /** A new leaf on a frame that nobody maps. */
  lemma AddKeepsRefs(flat: Flat, refs: map<Ptr, int>, k: Key, w: U64)
    requires RefsOk(flat, refs) && k !in flat && Refs(flat, w.frame) == {} && !Tracked(refs, w.frame)
    ensures RefsOk(flat[k := w], refs)
  {
    var flat' := flat[k := w];
    forall q ensures CountAt(flat', refs, q) {
      assert CountAt(flat, refs, q);
      RefsAfterMap(flat, k, w, q.frame);
    }
    forall l ensures ReadOnlyAt(flat', refs, l) {
      assert ReadOnlyAt(flat, refs, l);
    }
    forall i, j | SameFrame(flat', i, j) ensures Tracked(refs, flat'[i].frame) {
      assert i != k ==> i !in Refs(flat, w.frame);
      assert j != k ==> j !in Refs(flat, w.frame);
      assert SameFrame(flat, i, j);
    }
  }

  /** Moving leaf k off its tracked frame onto a frame that nobody maps. */
  lemma RepairKeepsRefs(flat: Flat, refs: map<Ptr, int>, k: Key, w: U64)
    requires RefsOk(flat, refs) && k in flat && Tracked(refs, flat[k].frame)
    requires Refs(flat, w.frame) == {} && !Tracked(refs, w.frame)
    ensures RefsOk(flat[k := w], Dropped(refs, Physical(flat[k])))
    ensures Refs(flat[k := w], flat[k].frame) == {} <==> refs[Physical(flat[k])] <= 1
  {
    var f := flat[k].frame;
    assert k in Refs(flat, f);
    RemoveKeepsRefs(flat, refs, k);
    RefsAfterRemove(flat, k, w.frame);
    AddKeepsRefs(flat - {k}, Dropped(refs, Physical(flat[k])), k, w);
    RemapIsRemoveThenAdd(flat, k, w);
    RefsAfterMap(flat - {k}, k, w, f);
  }

  lemma RemapIsRemoveThenAdd(flat: Flat, k: Key, w: U64)
    ensures (flat - {k})[k := w] == flat[k := w]
  {
  }

  lemma {:induction false} SubsetCard<T>(a: set<T>, b: set<T>)
    requires a <= b
    ensures |a| <= |b|
  {
    if a != {} {
      var x :| x in a;
      SubsetCard(a - {x}, b - {x});
    }
  }

  /** Removing leaf k and dropping its reference. */
  lemma RemoveKeepsRefs(flat: Flat, refs: map<Ptr, int>, k: Key)
    requires RefsOk(flat, refs) && k in flat
    ensures RefsOk(flat - {k}, Dropped(refs, Physical(flat[k])))
    ensures Refs(flat - {k}, flat[k].frame) == {} <==>
            Physical(flat[k]) !in refs || refs[Physical(flat[k])] <= 1
  {
    var p := Physical(flat[k]);
    var refs' := Dropped(refs, p);
    assert k in Refs(flat, p.frame);
    RefsAfterRemove(flat, k, p.frame);
    if p !in refs { SoleLeaf(flat, refs, k); }
    var flat' := flat - {k};
    forall q ensures CountAt(flat', refs', q) {
      assert CountAt(flat, refs, q);
      RefsAfterRemove(flat, k, q.frame);
    }
    forall l ensures ReadOnlyAt(flat', refs', l) {
      assert ReadOnlyAt(flat, refs, l);
    }
    assert CountAt(flat, refs, p);
    assert |Refs(flat', p.frame)| == |Refs(flat, p.frame)| - 1;
    RemoveKeepsSole(flat, refs, k);
  }

  lemma RemoveKeepsSole(flat: Flat, refs: map<Ptr, int>, k: Key)
    requires RefsOk(flat, refs) && k in flat
    ensures UntrackedSole(flat - {k}, Dropped(refs, Physical(flat[k])))
  {
    var p, flat' := Physical(flat[k]), flat - {k};
    assert CountAt(flat, refs, p);
    forall i, j | SameFrame(flat', i, j) ensures Tracked(Dropped(refs, p), flat'[i].frame) {
      assert SameFrame(flat, i, j);
      if flat[i].frame == p.frame {
        assert {i, j, k} <= Refs(flat, p.frame);
        assert |{i, j, k}| == 3;
        SubsetCard({i, j, k}, Refs(flat, p.frame));
      }
    }
  }
}
