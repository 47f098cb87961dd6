/** The copy-on-write walk over the parent's private pages, as states: how far it has come, and where it stopped. */
module ForkWalk {
  import opened PageModel
  import opened Frames
  import opened Cow
  import opened CowModel
  import opened Paging
  import opened WriteFault
  import opened ForkCost

  // ---------- the flat map during the walk ----------

  /** The child has no private page yet. */
  ghost predicate FreshChild(flat: Flat, child: nat) {
    forall v: nat {:trigger Key(child, v)} :: Key(child, v) !in flat
  }

  /** What fork makes of page v of space r once the parent's pages below cur have been shared. */
  ghost predicate ForkAt(flat0: Flat, flat: Flat, parent: nat, child: nat, cur: nat, r: nat, v: nat) {
    var k := Key(r, v);
    if r == child then
      && (k in flat <==> v < cur && Key(parent, v) in flat0)
      && (k in flat ==> flat[k] == ReadOnly(flat0[Key(parent, v)]))
    else
      && (k in flat <==> k in flat0)
      && (k in flat ==> flat[k] == if r == parent && v < cur then ReadOnly(flat0[k]) else flat0[k])
  }

  ghost predicate Forked(flat0: Flat, flat: Flat, parent: nat, child: nat, cur: nat) {
    forall r: nat, v: nat {:trigger ForkAt(flat0, flat, parent, child, cur, r, v)} ::
      ForkAt(flat0, flat, parent, child, cur, r, v)
  }

  lemma ForkedShare(flat0: Flat, flat: Flat, parent: nat, child: nat, v: nat)
    requires parent != child && Forked(flat0, flat, parent, child, v) && Key(parent, v) in flat0
    ensures Key(parent, v) in flat && flat[Key(parent, v)] == flat0[Key(parent, v)] && Key(child, v) !in flat
    ensures Forked(flat0, Shared(flat, Key(parent, v), Key(child, v)), parent, child, v + 1)
  {
    assert ForkAt(flat0, flat, parent, child, v, parent, v);
    assert ForkAt(flat0, flat, parent, child, v, child, v);
    var flat' := Shared(flat, Key(parent, v), Key(child, v));
    var cur := v + 1;
    forall r: nat, u: nat ensures ForkAt(flat0, flat', parent, child, cur, r, u) {
      assert ForkAt(flat0, flat, parent, child, v, r, u);
    }
  }

  lemma ForkedSkip(flat0: Flat, flat: Flat, parent: nat, child: nat, a: nat, b: nat)
    requires parent != child && a <= b && Forked(flat0, flat, parent, child, a)
    requires forall v: nat :: a <= v < b ==> Key(parent, v) !in flat
    ensures Forked(flat0, flat, parent, child, b)
  {
    forall r: nat, v: nat ensures ForkAt(flat0, flat, parent, child, b, r, v) {
      assert ForkAt(flat0, flat, parent, child, a, r, v);
      assert ForkAt(flat0, flat, parent, child, a, parent, v);
    }
  }

  /** The child of an eager fork: its own copy of every page of the parent. */
  ghost function EagerCopies(view: map<Key, seq<Word>>, parent: nat, child: nat): map<Key, seq<Word>> {
    map k | k in (set l | l in view && l.root == parent :: Key(child, l.vpn)) :: view[Key(parent, k.vpn)]
  }

  /** What every process reads after an eager fork. */
  ghost function EagerFork(view: map<Key, seq<Word>>, parent: nat, child: nat): map<Key, seq<Word>> {
    view + EagerCopies(view, parent, child)
  }

  lemma ForkedView(mem: Memory, mem': Memory, role: map<nat, Role>, flat0: Flat, flat: Flat, parent: nat, child: nat)
    requires parent != child && Forked(flat0, flat, parent, child, HI) && FreshChild(flat0, child)
    requires LeavesOk(flat0, role) && DataKept(role, mem, mem')
    requires forall k :: k in flat0 ==> k.vpn < HI
    ensures View(mem', flat) == EagerFork(View(mem, flat0), parent, child)
  {
    var e := EagerFork(View(mem, flat0), parent, child);
    forall k: Key ensures k in flat <==> k in e {
      assert ForkAt(flat0, flat, parent, child, HI, k.root, k.vpn);
      if k.root == child { assert k == Key(child, k.vpn); }
    }
    assert flat.Keys == e.Keys;
    forall k | k in flat ensures PageAt(mem', flat[k].frame) == e[k] {
      assert ForkAt(flat0, flat, parent, child, HI, k.root, k.vpn);
      assert LeafAt(flat0, role, k) && LeafAt(flat0, role, Key(parent, k.vpn));
      if k.root == child { assert k == Key(child, k.vpn); }
    }
  }

  // ---------- how the walk goes on or ends ----------

  datatype ForkResult = Done | NoFrames | TableFull

  /** The leaf that was shared although the table had no slot for its frame. */
  ghost function Stray(r: ForkResult, child: nat, at: nat): set<Key> {
    if r == TableFull then {Key(child, at)} else {}
  }

  ghost predicate SameFrameAt(flat0: Flat, flat: Flat, child: nat, k: Key) {
    && (k in flat0 ==> k in flat && flat[k].frame == flat0[k].frame)
    && (k in flat ==> k in flat0 || k.root == child)
  }

  ghost predicate SameFrames(flat0: Flat, flat: Flat, child: nat) {
    forall k {:trigger SameFrameAt(flat0, flat, child, k)} :: SameFrameAt(flat0, flat, child, k)
  }

  /** The kernel's memory, frames and tables at one moment. */
  datatype Now = Now(mem: Memory, role: map<nat, Role>, flat: Flat, free: set<nat>, refs: map<Ptr, int>, boot: Boot)

  ghost function Here(k: Kernel): Now
    reads k, k.frames, k.cow
  {
    Now(k.mem, k.role, k.flat, k.frames.free, k.cow.refs, k.boot)
  }

  /** The trees are sound and the data frames are those some leaf maps. */
  ghost predicate Sound(h: Now) {
    StateOk(h.mem, h.role, h.flat, h.free, h.boot) && LeavesOk(h.flat, h.role)
  }

  /** The frames in the table are those that were and those of the parent's pages below cur. */
  ghost predicate Tracks(h: Now, s: Start, parent: nat, cur: nat) {
    forall f: nat {:trigger TrackAt(s.flat, s.refs, h.refs, parent, cur, f)} :: TrackAt(s.flat, s.refs, h.refs, parent, cur, f)
  }

  /** The walk has shared the parent's pages below cur. */
  ghost predicate Forking(h: Now, s: Start, parent: nat, child: nat, cur: nat) {
    && Sound(h) && RefsOk(h.flat, h.refs) && Grown(s.mem, s.role, h.mem, h.role) && NewOf(s.role, h.role, child)
    && IsRoot(s.role, parent) && IsRoot(s.role, child) && parent != child && FreshChild(s.flat, child)
    && Forked(s.flat, h.flat, parent, child, cur)
    && RefsOk(s.flat, s.refs) && Spent(h.role, h.free, h.refs, s, parent, child, cur)
  }

  /** From the state before the fork: its frames and slots last for the parent's pages below v. */
  ghost predicate Reaches(s: Start, parent: nat, v: nat) {
    TablesTo(s.flat, parent, v) <= s.frames && |s.refs| + SlotsTo(s.flat, s.refs, parent, v) <= COW_SLOTS
  }

  /** And the parent's page `at` is where one or the other runs out, frames being taken first. */
  ghost predicate Stops(s: Start, parent: nat, at: nat, r: ForkResult) {
    && Private(at) && Key(parent, at) in s.flat && Reaches(s, parent, at)
    && (r == NoFrames <==> TablesTo(s.flat, parent, at + 1) > s.frames)
    && (r == TableFull ==> |s.refs| + SlotsTo(s.flat, s.refs, parent, at + 1) > COW_SLOTS)
  }

  ghost predicate ChildAt(flat0: Flat, flat: Flat, parent: nat, child: nat, end: nat, u: nat) {
    && (Key(child, u) in flat <==> u < end && Key(parent, u) in flat0)
    && (Key(child, u) in flat ==> flat[Key(child, u)].nx == flat0[Key(parent, u)].nx
                                  && flat[Key(child, u)].frame == flat0[Key(parent, u)].frame)
  }

  /** The child has the parent's pages below end, on the same frames. */
  ghost predicate ChildLeaves(flat0: Flat, flat: Flat, parent: nat, child: nat, end: nat) {
    forall u: nat {:trigger ChildAt(flat0, flat, parent, child, end, u)} :: ChildAt(flat0, flat, parent, child, end, u)
  }

  /** The parent's page where the walk stopped is read-only now; every other page that could be stored to still can. */
  ghost predicate StopAt(h: Now, s: Start, parent: nat, child: nat, at: nat, k: Key) {
    k in h.flat && k.root != child ==>
      if k == Key(parent, at) then
        k in s.flat && !h.flat[k].writable && (Tracked(h.refs, h.flat[k].frame) <==> Tracked(s.refs, s.flat[k].frame))
      else StorableAt(s.flat, s.refs, k) ==> StorableAt(h.flat, h.refs, k)
  }

  ghost predicate StopLeaves(h: Now, s: Start, parent: nat, child: nat, at: nat) {
    forall k {:trigger StopAt(h, s, parent, child, at, k)} :: StopAt(h, s, parent, child, at, k)
  }

  /** The walk stopped at page `at` for want of frames or slots: every page that was mapped still is, on the
      same frame, the counts are exact but for the page that found no slot, and the parent's page is read-only. */
  ghost predicate ForkStopped(h: Now, s: Start, parent: nat, child: nat, r: ForkResult, at: nat) {
    && Sound(h) && Grown(s.mem, s.role, h.mem, h.role) && SameFrames(s.flat, h.flat, child)
    && (RefsOk(h.flat, h.refs) <==> r != TableFull) && RefsOk(h.flat - Stray(r, child, at), h.refs)
    && Stops(s, parent, at, r) && ChildLeaves(s.flat, h.flat, parent, child, if r == TableFull then at + 1 else at)
    && (r == TableFull ==> !Tracked(h.refs, s.flat[Key(parent, at)].frame)) && StopLeaves(h, s, parent, child, at)
    && OthersBuilt(s.role, h.role, child) && Tracks(h, s, parent, at) && NewOf(s.role, h.role, child)
  }

  /** Where the walk stands. */
  ghost predicate Walked(h: Now, s: Start, parent: nat, child: nat, cur: nat, r: ForkResult, at: nat) {
    if r == Done then Forking(h, s, parent, child, cur) else ForkStopped(h, s, parent, child, r, at)
  }

  /** The same as one value for the loops that hand it on. */
  ghost function Trail(h: Now, s: Start, parent: nat, child: nat, cur: nat, r: ForkResult, at: nat): Track {
    if forall x: nat {:trigger Look(x)} :: Look(x) ==> Walked(h, s, parent, child, cur, r, at) then OnTrack else Astray
  }
}
