/** Whole runs: processes created, populated, forked, stored to and torn down in any order
    read exactly what they would on a machine whose fork copies all of memory. */
module CowRun {
  import opened PageModel
  import opened Frames
  import opened Cow
  import opened CowModel
  import opened Paging
  import opened WriteFault
  import opened ForkWalk
  import opened CowFork
  import opened CowExit
  import opened ForkCall
  import opened FrameBooks

  type Contents = map<Key, seq<Word>>

  /** What a process, or the kernel on its behalf, may attempt. */
  datatype Op =
    | Spawn
    | MapPage(root: nat, vaddr: nat, nx: bool)
    | Fork(parent: nat)
    | Store(root: nat, vaddr: nat, i: nat, value: U64)
    | Exit(root: nat)

  /** What came of it, as the machine without sharing sees it. */
  datatype Event =
    | Refused
    | NewSpace(root: nat)
    | NewPage(key: Key, page: seq<Word>)
    | Copied(parent: nat, child: nat)
    | Stored(key: Key, i: nat, value: U64)
    | Gone(root: nat)

  /** The machine without sharing: every page is its owner's own copy. */
  ghost function EagerStep(view: Contents, e: Event): Contents {
    match e
    case Refused => view
    case NewSpace(_) => view
    case NewPage(key, page) => view[key := page]
    case Copied(parent, child) => EagerFork(view, parent, child)
    case Stored(key, i, value) => EagerStore(view, key, i, value)
    case Gone(root) => Without(view, root)
  }

  ghost function EagerRun(view: Contents, events: seq<Event>): Contents {
    if events == [] then view else EagerStep(EagerRun(view, events[..|events| - 1]), events[|events| - 1])
  }

  /** The roots in use after an event. */
  ghost function LiveAfter(live: set<nat>, e: Event): set<nat> {
    match e
    case NewSpace(root) => live + {root}
    case Copied(_, child) => live + {child}
    case Gone(root) => live - {root}
    case _ => live
  }

  /** The event is a possible outcome of the attempt. */
  ghost predicate Outcome(op: Op, e: Event) {
    e.Refused? ||
    match op
    case Spawn => e.NewSpace?
    case MapPage(root, vaddr, _) => e.NewPage? && e.key == Key(root, vaddr / 4096)
    case Fork(parent) => e.Copied? && e.parent == parent
    case Store(root, vaddr, i, value) => e == Stored(Key(root, vaddr / 4096), i, value)
    case Exit(root) => e == Gone(root)
  }

  // ---------- one attempt ----------

  /** The kernel's state and its processes at one moment of a run. */
  datatype Moment = Moment(h: Now, live: set<nat>)

  /** The processes are exactly the live spaces. */
  ghost predicate Live(k: Kernel, live: set<nat>)
    reads k, k.frames, k.cow
  {
    LiveAt(Moment(Here(k), live))
  }

  ghost predicate MapGranted(h: Now, live: set<nat>, root: nat, v: nat) {
    root in live && Private(v) && Key(root, v) !in h.flat && |h.free| > Unbuilt(h.role, root, v)
  }

  /** A store needs its page and, only while the page's frame has a slot in the table, a free frame. */
  ghost predicate StoreGranted(h: Now, key: Key) {
    key in h.flat && (h.free != {} || !Tracked(h.refs, h.flat[key].frame))
  }

  /** Exactly when an attempt is granted. */
  ghost predicate Granted(m: Moment, op: Op) {
    match op
    case Spawn => |m.h.free| >= 2
    case MapPage(root, vaddr, _) => MapGranted(m.h, m.live, root, vaddr / 4096)
    case Fork(parent) => parent in m.live && ForkGranted(m.h, parent)
    case Store(root, vaddr, i, _) =>
      root in m.live && Private(vaddr / 4096) && i < 512 && StoreGranted(m.h, Key(root, vaddr / 4096))
    case Exit(root) => root in m.live
  }

  /** Exactly when it leaves the counts exact, no mapped frame free and no page out of reach for stores. */
  ghost predicate KeepsOrder(m: Moment, op: Op) {
    match op
    case Fork(parent) => parent in m.live ==> ForkSound(m.h, parent)
    case Exit(root) => root in m.live ==> NoneMissed(m.h.flat, m.h.refs, root)
    case _ => true
  }

  /** The invariant of runs, of a moment. */
  ghost predicate InOrder(h: Now) {
    Sound(h) && RefsOk(h.flat, h.refs) && Storable(h.flat, h.refs) && InRange(h.free)
  }

  ghost predicate LiveAt(m: Moment) {
    forall r: nat :: IsRoot(m.h.role, r) <==> r in m.live
  }

  // ---------- the books ----------

  /** The attempt finds one free frame, takes it, finds no second, and does not give it back. */
  ghost predicate Strands(m: Moment, op: Op) {
    |m.h.free| == 1 && (op.Spawn? || (op.Fork? && op.parent in m.live))
  }

  /** The frames the kernel has for good afterwards. */
  ghost function KernelAfter(m: Moment, op: Op): set<nat> {
    if Strands(m, op) then KernelFrames(m.h.role) + m.h.free else KernelFrames(m.h.role)
  }

  /** Nothing was touched. */
  ghost predicate Untouched(h: Now, h': Now) {
    SameBooks(h.role, h'.role) && h'.flat == h.flat && h'.refs == h.refs && h'.free == h.free
  }

  ghost predicate SpawnBooked(h: Now, h': Now, e: Event) {
    && h'.flat == h.flat && h'.refs == h.refs
    && if e.NewSpace? then Extends(h.role, h'.role, e.root) && Spots(h'.role) == Spots(h.role) + {Spot(3, e.root, 0)}
       else Structure(h'.role) == AfterRefusal(h) && Spots(h'.role) == Spots(h.role)
  }

  /** One page more, on a frame nobody mapped, for ring 3 to read and store to, and to run unless it is no-execute. */
  ghost predicate NewLeaf(flat0: Flat, flat: Flat, key: Key, nx: bool) {
    && key in flat && flat == flat0[key := flat[key]] && flat[key].frame !in Mapped(flat0)
    && flat[key] == Word(nx, flat[key].frame, 0, true, true, true)
  }

  ghost predicate MapStepBooked(h: Now, h': Now, root: nat, v: nat, nx: bool, e: Event) {
    var key := Key(root, v);
    && h'.refs == h.refs && MapBooked(h.role, h'.role, e.NewPage?, |h.free|, root, v)
    && if e.NewPage? then NewLeaf(h.flat, h'.flat, key, nx) else h'.flat == h.flat
  }

  ghost predicate ForkStepBooked(h: Now, h': Now, parent: nat, e: Event) {
    && ForkBooked(h, h', parent, if e.Copied? then e.child else 0) && (e.Copied? ==> e.child != 0)
    && (e.Refused? && |h.free| >= 2 ==> StuckSomewhere(h, h', parent))
  }

  ghost predicate StoreBooked(h: Now, h': Now, key: Key, e: Event) {
    && SameBooks(h.role, h'.role) && (!e.Refused? ==> key in h.flat)
    && Rehoused(h.flat, h.refs, h.free, h'.flat, h'.refs, h'.free, key, !e.Refused? && Tracked(h.refs, h.flat[key].frame))
  }

  ghost predicate ExitBooked(h: Now, h': Now, root: nat) {
    && Structure(h'.role) == StructureWithout(Structure(h.role), root) && Spots(h'.role) == SpotsWithout(Spots(h.role), root)
    && h'.flat == Without(h.flat, root) && (InOrder(h') ==> TracksLeft(h'.flat, h.refs, h'.refs))
  }

  /** What the attempt does to the frames in service, to the pages' frames and to the table of shared ones. */
  ghost predicate Booked(m: Moment, op: Op, e: Event, m': Moment) {
    var h, h' := m.h, m'.h;
    && KernelFrames(h'.role) == KernelAfter(m, op)
    && match op
       case Spawn => SpawnBooked(h, h', e)
       case MapPage(root, vaddr, nx) =>
         if root in m.live && Private(vaddr / 4096) && Key(root, vaddr / 4096) !in h.flat then MapStepBooked(h, h', root, vaddr / 4096, nx, e)
         else Untouched(h, h')
       case Fork(parent) => if parent in m.live then ForkStepBooked(h, h', parent, e) else Untouched(h, h')
       case Store(root, vaddr, i, _) =>
         if root in m.live && Private(vaddr / 4096) && i < 512 then StoreBooked(h, h', Key(root, vaddr / 4096), e) else Untouched(h, h')
       case Exit(root) => if root in m.live then ExitBooked(h, h', root) else Untouched(h, h')
  }

  /** The same as one value for what hands it on. */
  ghost function Books(m: Moment, op: Op, e: Event, m': Moment): Track {
    if forall x: nat {:trigger Look(x)} :: Look(x) ==> Booked(m, op, e, m') then OnTrack else Astray
  }

  lemma OpenBooks(m: Moment, op: Op, e: Event, m': Moment)
    requires Books(m, op, e, m') == OnTrack
    ensures Booked(m, op, e, m')
  {
    assert Look(0);
  }

  /** From one moment to the next. */
  ghost predicate StepOk(m: Moment, op: Op, e: Event, m': Moment) {
    && InOrder(m.h) && LiveAt(m)
    && Outcome(op, e) && (e.Refused? <==> !Granted(m, op))
    && (e.NewSpace? ==> e.root !in m.live) && (e.Copied? ==> e.child !in m.live)
    && m'.live == LiveAfter(m.live, e) && m'.h.boot == m.h.boot
    && View(m'.h.mem, m'.h.flat) == EagerStep(View(m.h.mem, m.h.flat), e)
    && (InOrder(m'.h) <==> KeepsOrder(m, op)) && Books(m, op, e, m') == OnTrack
  }

  /** What comes of one attempt, in state `h` with the given processes. */
  ghost predicate Stepped(k: Kernel, h: Now, live: set<nat>, op: Op, live': set<nat>, e: Event, sound: bool)
    reads k, k.frames, k.frames.bitmap, k.cow, k.cow.slots
  {
    && k.Works() && Live(k, live') && StepOk(Moment(h, live), op, e, Moment(Here(k), live'))
    && (sound <==> InOrder(Here(k)))
  }

  /** One attempt. */
  method Step(k: Kernel, live: set<nat>, op: Op) returns (live': set<nat>, ghost e: Event, sound: bool)
    requires k.Valid() && Storable(k.flat, k.cow.refs) && Live(k, live)
    modifies k`mem, k`role, k`flat, k.frames, k.frames.bitmap, k.cow`refs, k.cow.slots
    ensures Stepped(k, old(Here(k)), live, op, live', e, sound)
  {
    live', e, sound := live, Refused, true;
    match op
    case Spawn =>
      live', e := StepSpawn(k, live);
    case MapPage(root, vaddr, nx) =>
      if root in live && Private(vaddr / 4096) {
        e := StepMapPage(k, live, root, vaddr, nx);
      }
    case Fork(parent) =>
      if parent in live {
        live', e, sound := StepFork(k, live, parent);
      }
    case Store(root, vaddr, i, value) =>
      if root in live && Private(vaddr / 4096) && i < 512 {
        e := StepStore(k, live, root, vaddr, i, value);
      }
    case Exit(root) =>
      if root in live {
        live', e, sound := StepExit(k, live, root);
      }
  }

  method StepSpawn(k: Kernel, live: set<nat>) returns (live': set<nat>, ghost e: Event)
    requires k.Valid() && Storable(k.flat, k.cow.refs) && Live(k, live)
    modifies k`mem, k`role, k.frames, k.frames.bitmap
    ensures Stepped(k, old(Here(k)), live, Spawn, live', e, true)
  {
    ghost var pdpt;
    var root;
    root, pdpt := CloneAddressSpace(k);
    SpaceView(old(k.mem), old(k.role), k.flat, k.mem, k.role);
    live' := if root != 0 then live + {root} else live;
    e := if root != 0 then NewSpace(root) else Refused;
    ghost var m, m' := Moment(old(Here(k)), live), Moment(Here(k), live');
    SpawnBooks(m, root, pdpt, m');
    SpawnStep(m, root, m');
  }

  lemma SpawnStep(m: Moment, root: nat, m': Moment)
    requires InOrder(m.h) && LiveAt(m) && InOrder(m'.h) && (root != 0 <==> |m.h.free| >= 2) && (root != 0 ==> root !in m.h.role)
    requires m'.h.boot == m.h.boot && m'.live == (if root != 0 then m.live + {root} else m.live) && View(m'.h.mem, m'.h.flat) == View(m.h.mem, m.h.flat)
    requires Books(m, Spawn, if root != 0 then NewSpace(root) else Refused, m') == OnTrack
    ensures StepOk(m, Spawn, if root != 0 then NewSpace(root) else Refused, m')
  {
    assert root != 0 ==> !IsRoot(m.h.role, root);
  }

  lemma SpawnBooks(m: Moment, root: nat, pdpt: nat, m': Moment)
    requires Partition(m.h.role, m.h.free) && (root != 0 <==> |m.h.free| >= 2) && m'.h.flat == m.h.flat && m'.h.refs == m.h.refs
    requires m'.h.role == SpaceRoles(m.h.role, m.h.free, root, pdpt)
    requires root != 0 ==> root !in m.h.role && pdpt !in m.h.role && root != pdpt
    ensures Books(m, Spawn, if root != 0 then NewSpace(root) else Refused, m') == OnTrack
  {
    forall f | f in m.h.free ensures f !in m.h.role {
      assert PartitionAt(m.h.role, m.h.free, f);
    }
    SpaceBooks(m.h.role, m.h.free, root, pdpt);
    if root != 0 {
      SpaceExtends(m.h.role, m.h.free, root, pdpt);
    } else {
      RefusedStructure(m.h, m'.h.role);
    }
    assert Booked(m, Spawn, if root != 0 then NewSpace(root) else Refused, m');
  }

  method StepMapPage(k: Kernel, ghost live: set<nat>, root: nat, vaddr: nat, nx: bool) returns (ghost e: Event)
    requires k.Valid() && Storable(k.flat, k.cow.refs) && Live(k, live) && root in live && Private(vaddr / 4096)
    modifies k`mem, k`role, k`flat, k.frames, k.frames.bitmap
    ensures Stepped(k, old(Here(k)), live, MapPage(root, vaddr, nx), live, e, true)
  {
    ghost var key := Key(root, vaddr / 4096);
    e := Refused;
    var leaf := LeafOf(k, root, vaddr);
    if !leaf.present {
      var ok := MapFreshPage(k, root, vaddr, nx);
      e := if ok then NewPage(key, PageAt(k.mem, k.flat[key].frame)) else Refused;
      if ok {
        MapStorable(old(k.flat), k.flat, k.cow.refs, key);
      }
      ghost var m, m' := Moment(old(Here(k)), live), Moment(Here(k), live);
      MapStepBooks(m, root, vaddr, nx, e, m');
      MapStep(m, root, vaddr, nx, e, m');
    } else {
      assert Untouched(old(Here(k)), Here(k));
    }
  }

  lemma MapStep(m: Moment, root: nat, vaddr: nat, nx: bool, e: Event, m': Moment)
    requires InOrder(m.h) && LiveAt(m) && InOrder(m'.h) && m'.live == m.live && m'.h.boot == m.h.boot
    requires Outcome(MapPage(root, vaddr, nx), e) && (e.Refused? <==> !MapGranted(m.h, m.live, root, vaddr / 4096))
    requires View(m'.h.mem, m'.h.flat) == EagerStep(View(m.h.mem, m.h.flat), e)
    requires Books(m, MapPage(root, vaddr, nx), e, m') == OnTrack
    ensures StepOk(m, MapPage(root, vaddr, nx), e, m')
  {
  }

  lemma MapStepBooks(m: Moment, root: nat, vaddr: nat, nx: bool, e: Event, m': Moment)
    requires root in m.live && Private(vaddr / 4096) && Key(root, vaddr / 4096) !in m.h.flat && m'.h.refs == m.h.refs
    requires MapBooks(m.h.role, m'.h.role, e.NewPage?, |m.h.free|, root, vaddr / 4096) == OnTrack
    requires var key := Key(root, vaddr / 4096);
      if e.NewPage? then NewLeaf(m.h.flat, m'.h.flat, key, nx) else m'.h.flat == m.h.flat
    ensures Books(m, MapPage(root, vaddr, nx), e, m') == OnTrack
  {
    assert Look(0);
    assert Booked(m, MapPage(root, vaddr, nx), e, m');
  }

  lemma MapStorable(flat0: Flat, flat: Flat, refs: map<Ptr, int>, key: Key)
    requires key in flat && flat == flat0[key := flat[key]] && flat[key].writable && flat[key].user
    ensures Storable(flat0, refs) ==> Storable(flat, refs)
  {
    forall k ensures KeptAt(flat0, refs, flat, refs, key, k) {
    }
    OnlyAtStorable(flat0, refs, flat, refs, key);
  }

  method StepFork(k: Kernel, live: set<nat>, parent: nat) returns (live': set<nat>, ghost e: Event, sound: bool)
    requires k.Valid() && Storable(k.flat, k.cow.refs) && Live(k, live) && parent in live
    modifies k`mem, k`role, k`flat, k.frames, k.frames.bitmap, k.cow`refs, k.cow.slots
    ensures Stepped(k, old(Here(k)), live, Fork(parent), live', e, sound)
  {
    var child;
    child, sound := ForkInOrder(k, parent);
    live' := if child != 0 then live + {child} else live;
    e := if child != 0 then Copied(parent, child) else Refused;
    ForkStepBooks(Moment(old(Here(k)), live), parent, child, Moment(Here(k), live'));
    ForkStep(Moment(old(Here(k)), live), parent, child, Moment(Here(k), live'));
  }

  /** The fork of a kernel in order: whether it still is. */
  method ForkInOrder(k: Kernel, parent: nat) returns (child: nat, sound: bool)
    requires k.Valid() && Storable(k.flat, k.cow.refs) && IsRoot(k.role, parent)
    modifies k`mem, k`role, k`flat, k.frames, k.frames.bitmap, k.cow`refs, k.cow.slots
    ensures k.Works() && (InOrder(Here(k)) <==> sound)
    ensures child != 0 <==> ForkGranted(old(Here(k)), parent)
    ensures sound <==> ForkSound(old(Here(k)), parent)
    ensures child != 0 ==> !IsRoot(old(k.role), child)
    ensures ForkBooks(old(Here(k)), Here(k), parent, child) == OnTrack
    ensures forall r: nat :: IsRoot(k.role, r) <==> IsRoot(old(k.role), r) || (child != 0 && r == child)
    ensures View(k.mem, k.flat) ==
            if child != 0 then EagerFork(old(View(k.mem, k.flat)), parent, child) else old(View(k.mem, k.flat))
  {
    child, sound := SyscallFork(k, parent);
  }

  ghost function ForkBooks(h: Now, h': Now, parent: nat, child: nat): Track {
    if forall x: nat {:trigger Look(x)} :: Look(x) ==>
      ForkBooked(h, h', parent, child) && (|h.free| >= 2 && child == 0 ==> StuckSomewhere(h, h', parent)) then OnTrack else Astray
  }

  lemma ForkStepBooks(m: Moment, parent: nat, child: nat, m': Moment)
    requires parent in m.live && ForkBooks(m.h, m'.h, parent, child) == OnTrack
    ensures Books(m, Fork(parent), if child != 0 then Copied(parent, child) else Refused, m') == OnTrack
  {
    assert Look(0);
    assert Booked(m, Fork(parent), if child != 0 then Copied(parent, child) else Refused, m');
  }

  lemma ForkStep(m: Moment, parent: nat, child: nat, m': Moment)
    requires InOrder(m.h) && LiveAt(m) && parent in m.live && (child != 0 ==> !IsRoot(m.h.role, child))
    requires child != 0 <==> ForkGranted(m.h, parent)
    requires Books(m, Fork(parent), if child != 0 then Copied(parent, child) else Refused, m') == OnTrack
    requires InOrder(m'.h) <==> ForkSound(m.h, parent)
    requires m'.h.boot == m.h.boot && m'.live == if child != 0 then m.live + {child} else m.live
    requires View(m'.h.mem, m'.h.flat)
          == if child != 0 then EagerFork(View(m.h.mem, m.h.flat), parent, child) else View(m.h.mem, m.h.flat)
    ensures StepOk(m, Fork(parent), if child != 0 then Copied(parent, child) else Refused, m')
  {
  }

  method StepStore(k: Kernel, ghost live: set<nat>, root: nat, vaddr: nat, i: nat, value: U64) returns (ghost e: Event)
    requires k.Valid() && Storable(k.flat, k.cow.refs) && Live(k, live) && root in live && Private(vaddr / 4096) && i < 512
    modifies k`mem, k`role, k`flat, k.frames, k.frames.bitmap, k.cow`refs, k.cow.slots
    ensures Stepped(k, old(Here(k)), live, Store(root, vaddr, i, value), live, e, true)
  {
    assert StorableAt(k.flat, k.cow.refs, Key(root, vaddr / 4096)) && ReadOnlyAt(k.flat, k.cow.refs, Key(root, vaddr / 4096));
    var ok := Ring3Store(k, root, vaddr, i, value);
    e := if ok then Stored(Key(root, vaddr / 4096), i, value) else Refused;
  }

  method StepExit(k: Kernel, live: set<nat>, root: nat) returns (live': set<nat>, ghost e: Event, sound: bool)
    requires k.Valid() && Storable(k.flat, k.cow.refs) && Live(k, live) && root in live
    modifies k`role, k`flat, k.frames, k.frames.bitmap, k.cow`refs, k.cow.slots
    ensures Stepped(k, old(Here(k)), live, Exit(root), live', e, sound)
  {
    e, live' := Gone(root), live - {root};
    sound := Teardown(k, root);
  }

  // ---------- runs ----------

  ghost predicate TracedAt(trace: seq<Moment>, ops: seq<Op>, events: seq<Event>, j: nat)
    requires j < |events| <= |ops| && |trace| == |events| + 1
  {
    StepOk(trace[j], ops[j], events[j], trace[j + 1])
  }

  /** The moments follow from one another by the events. */
  ghost predicate Traced(trace: seq<Moment>, ops: seq<Op>, events: seq<Event>) {
    && |trace| == |events| + 1 && |events| <= |ops|
    && forall j {:trigger TracedAt(trace, ops, events, j)} :: 0 <= j < |events| ==> TracedAt(trace, ops, events, j)
  }

  lemma TraceMore(trace: seq<Moment>, ops: seq<Op>, events: seq<Event>, e: Event, m: Moment)
    requires Traced(trace, ops, events) && |events| < |ops| && StepOk(trace[|events|], ops[|events|], e, m)
    ensures Traced(trace + [m], ops, events + [e])
  {
    var trace', events' := trace + [m], events + [e];
    forall j | 0 <= j < |events'| ensures TracedAt(trace', ops, events', j) {
      if j < |events| {
        assert trace'[j] == trace[j] && trace'[j + 1] == trace[j + 1] && events'[j] == events[j];
        assert TracedAt(trace, ops, events, j);
      }
    }
  }

  lemma TracePrefix(trace: seq<Moment>, ops: seq<Op>, events: seq<Event>, n: nat)
    requires Traced(trace, ops, events) && n <= |events|
    ensures Traced(trace[..n + 1], ops, events[..n])
  {
    var before, shorter := trace[..n + 1], events[..n];
    forall j | 0 <= j < n ensures TracedAt(before, ops, shorter, j) {
      assert TracedAt(trace, ops, events, j);
    }
  }

  /** Over any run, every process reads at every private address what it would had each fork copied all of memory. */
  lemma {:induction false} TraceReplays(trace: seq<Moment>, ops: seq<Op>, events: seq<Event>)
    requires Traced(trace, ops, events)
    ensures View(trace[|events|].h.mem, trace[|events|].h.flat) == EagerRun(View(trace[0].h.mem, trace[0].h.flat), events)
  {
    if events != [] {
      var n := |events| - 1;
      TracePrefix(trace, ops, events, n);
      TraceReplays(trace[..n + 1], ops, events[..n]);
      assert TracedAt(trace, ops, events, n);
    }
  }

  /**
   * In any run, a store to a page that the machine without sharing has is refused only while no frame is free, and
   * then only if the page's frame has a slot in the table of shared frames.
   */
  lemma StoreRefused(trace: seq<Moment>, ops: seq<Op>, events: seq<Event>, j: nat)
    requires Traced(trace, ops, events) && j < |events| && ops[j].Store? && ops[j].i < 512 && events[j].Refused?
    requires Key(ops[j].root, ops[j].vaddr / 4096) in EagerRun(View(trace[0].h.mem, trace[0].h.flat), events[..j])
    ensures var h, key := trace[j].h, Key(ops[j].root, ops[j].vaddr / 4096);
      h.free == {} && key in h.flat && Tracked(h.refs, h.flat[key].frame)
  {
    var h := trace[j].h;
    TracePrefix(trace, ops, events, j);
    TraceReplays(trace[..j + 1], ops, events[..j]);
    assert TracedAt(trace, ops, events, j);
    assert FlatAt(h.mem, h.role, h.flat, ops[j].root, ops[j].vaddr / 4096);
  }

  // ---------- rights over runs ----------

  lemma {:induction false} BootStays(trace: seq<Moment>, ops: seq<Op>, events: seq<Event>, j: nat)
    requires Traced(trace, ops, events) && j <= |events|
    ensures trace[j].h.boot == trace[0].h.boot
  {
    if j > 0 {
      BootStays(trace, ops, events, j - 1);
      assert TracedAt(trace, ops, events, j - 1);
    }
  }

  /**
   * At every moment of a run, ring 3 of every process reaches exactly the private pages whose leaf lets it, and the
   * process has the two kernel entries that there were when the run began, for the kernel alone.
   */
  lemma RightsAt(trace: seq<Moment>, ops: seq<Op>, events: seq<Event>, j: nat, r: nat)
    requires Traced(trace, ops, events) && j < |events| && r in trace[j].live
    ensures var h := trace[j].h; forall v: nat :: v < 512 * HI ==> Ring3(h.mem, r, v) == Allowed(h.flat, r, v)
    ensures KernelEntries(trace[0].h, trace[j].h, r)
  {
    var h, h0 := trace[j].h, trace[0].h;
    BootStays(trace, ops, events, j);
    assert TracedAt(trace, ops, events, 0) && TracedAt(trace, ops, events, j);
    SpaceRights(h, r);
    SpaceKernel(h0, h, r);
  }

  /** Space r has the kernel's two PDPT entries of state h0 without their user bit. */
  ghost predicate KernelEntries(h0: Now, h: Now, r: nat) {
    forall i :: 0 <= i < 2 ==>
      Entry(h.mem, Pdpt(h.mem, r), i) == Entry(h0.mem, Pdpt(h0.mem, h0.boot.root), i).(user := false)
  }

  lemma SpaceRights(h: Now, r: nat)
    requires Sound(h) && IsRoot(h.role, r)
    ensures forall v: nat :: v < 512 * HI ==> Ring3(h.mem, r, v) == Allowed(h.flat, r, v)
  {
    forall v: nat | v < 512 * HI ensures Ring3(h.mem, r, v) == Allowed(h.flat, r, v) {
      Ring3Exact(h.mem, h.role, h.flat, h.free, h.boot, r, v);
    }
  }

  lemma SpaceKernel(h0: Now, h: Now, r: nat)
    requires Sound(h0) && Sound(h) && IsRoot(h.role, r) && h.boot == h0.boot
    ensures KernelEntries(h0, h, r)
  {
    assert SharesAt(h.mem, h.role, h.boot, r);
  }

  /** In order, every page of a process can be stored to: ring 3 may, or the fault handler will let it while a frame is free. */
  lemma StorableMeans(h: Now, r: nat, v: nat)
    requires InOrder(h) && IsRoot(h.role, r) && Private(v) && Lookup(h.mem, r, v).present
    ensures Ring3(h.mem, r, v).write <==> !Tracked(h.refs, Lookup(h.mem, r, v).frame)
  {
    FlatLookup(h.mem, h.role, h.flat, r, v);
    PrivateRights(h.mem, h.role, h.flat, r, v);
    assert StorableAt(h.flat, h.refs, Key(r, v)) && ReadOnlyAt(h.flat, h.refs, Key(r, v));
  }

  // ---------- frames over runs ----------

  /** No attempt but a store or an exit takes a page off its frame. */
  lemma PagesStay(m: Moment, op: Op, e: Event, m': Moment, f: nat)
    requires Booked(m, op, e, m') && !op.Store? && !op.Exit? && f in Mapped(m.h.flat) && LiveAt(m) && FlatOk(m.h.mem, m.h.role, m.h.flat)
    requires e.Copied? ==> e.child !in m.live
    ensures f in Mapped(m'.h.flat)
  {
    var k :| k in m.h.flat && m.h.flat[k].frame == f;
    if op.Fork? && e.Copied? && op.parent in m.live {
      assert FlatAt(m.h.mem, m.h.role, m.h.flat, k.root, k.vpn) && k == Key(k.root, k.vpn);
      assert ForkAt(m.h.flat, m'.h.flat, op.parent, e.child, HI, k.root, k.vpn);
    }
    assert k in m'.h.flat && m'.h.flat[k].frame == f;
  }

  /** A store or an exit puts no frame into service but for a page. */
  lemma StructureStays(m: Moment, op: Op, e: Event, m': Moment, f: nat)
    requires Booked(m, op, e, m') && (op.Store? || op.Exit?) && f !in Structure(m.h.role)
    ensures f !in Structure(m'.h.role)
  {
  }

  /** After a step that keeps the counts exact, the frame of a page is free exactly when no page is on it any more. */
  lemma FreedWithLast(m: Moment, op: Op, e: Event, m': Moment, f: nat)
    requires StepOk(m, op, e, m') && InOrder(m'.h) && f in Mapped(m.h.flat)
    ensures f in m'.h.free <==> f !in Mapped(m'.h.flat)
  {
    OpenBooks(m, op, e, m');
    MappedIff(m.h.flat, m.h.role, f);
    assert f < TOTAL_FRAMES;
    FreeIff(m'.h, f);
    if op.Store? || op.Exit? {
      StructureStays(m, op, e, m', f);
    } else {
      PagesStay(m, op, e, m', f);
    }
  }

  /** Conservation over runs: however many frames the kernel, the roots, the tables and the pages hold at a moment
      in order, the rest are free. */
  lemma FreeAt(trace: seq<Moment>, ops: seq<Op>, events: seq<Event>, j: nat)
    requires Traced(trace, ops, events) && j < |events|
    ensures var h := trace[j].h;
      |h.free| == TOTAL_FRAMES - |KernelFrames(h.role)| - |trace[j].live| - |Spots(h.role)| - |Mapped(h.flat)|
  {
    assert TracedAt(trace, ops, events, j);
    var m := trace[j];
    FramesConserved(m.h);
    assert RootFrames(m.h.role) == m.live by {
      forall r: nat ensures r in RootFrames(m.h.role) <==> r in m.live {
        assert IsRoot(m.h.role, r) <==> r in m.live;
      }
    }
  }

  /** The frames that pages are on once page key has moved to a frame of its own. */
  lemma MovedMapped(flat0: Flat, refs0: map<Ptr, int>, flat: Flat, refs: map<Ptr, int>, key: Key)
    requires OnlyAt(flat0, refs0, flat, refs, key) && MovedOff(flat0, refs0, flat, refs, key) && RefsOk(flat0, refs0)
    requires Tracked(refs0, flat0[key].frame)
    ensures var p := Physical(flat0[key]);
      Mapped(flat) == (if refs0[p] <= 1 then Mapped(flat0) - {p.frame} else Mapped(flat0)) + {flat[key].frame}
  {
    var p, g := Physical(flat0[key]), flat[key].frame;
    assert CountAt(flat0, refs0, p) && key in Refs(flat0, p.frame);
    var after := (if refs0[p] <= 1 then Mapped(flat0) - {p.frame} else Mapped(flat0)) + {g};
    forall k | k in flat ensures flat[k].frame in after {
      assert KeptAt(flat0, refs0, flat, refs, key, k);
      if k != key && flat[k].frame == p.frame {
        SubsetCard({k, key}, Refs(flat0, p.frame));
        assert |{k, key}| == 2;
      }
    }
    forall f | f in after ensures f in Mapped(flat) {
      if f == p.frame && f != g {
        var k := AnotherOn(flat0, key);
        assert KeptAt(flat0, refs0, flat, refs, key, k);
        assert flat[k].frame == f;
      } else if f != g {
        var k :| k in flat0 && flat0[k].frame == f;
        assert KeptAt(flat0, refs0, flat, refs, key, k);
        assert flat[k].frame == f;
      } else {
        assert flat[key].frame == f;
      }
    }
    assert Mapped(flat) == after;
  }

  lemma AnotherOn(flat: Flat, key: Key) returns (k: Key)
    requires key in flat && |Refs(flat, flat[key].frame)| > 1
    ensures k in flat && k != key && flat[k].frame == flat[key].frame
  {
    var rest := Refs(flat, flat[key].frame) - {key};
    assert key in Refs(flat, flat[key].frame) && |rest| == |Refs(flat, flat[key].frame)| - 1;
    k :| k in rest;
  }

  lemma RootsOfStructure(role0: map<nat, Role>, role: map<nat, Role>)
    requires Structure(role) == Structure(role0)
    ensures RootFrames(role) == RootFrames(role0)
  {
    forall f: nat ensures f in RootFrames(role) <==> f in RootFrames(role0) {
      assert f in Structure(role) <==> f in Structure(role0);
    }
  }

  /** A store that copies its page costs a frame exactly while another page is on the old one. */
  lemma StoreCosts(m: Moment, op: Op, e: Event, m': Moment)
    requires StepOk(m, op, e, m') && op.Store? && !e.Refused? && InOrder(m'.h)
    ensures var key := Key(op.root, op.vaddr / 4096);
      && key in m.h.flat
      && var p := Physical(m.h.flat[key]);
         |m'.h.free| == if p in m.h.refs && m.h.refs[p] > 1 then |m.h.free| - 1 else |m.h.free|
  {
    OpenBooks(m, op, e, m');
    var h, h', key := m.h, m'.h, Key(op.root, op.vaddr / 4096);
    if Tracked(h.refs, h.flat[key].frame) {
      FramesConserved(h);
      FramesConserved(h');
      RootsOfStructure(h.role, h'.role);
      MovedMapped(h.flat, h.refs, h'.flat, h'.refs, key);
      assert h.flat[key].frame in Mapped(h.flat);
    }
  }

  /** A frame the kernel has is never given back; it gains one exactly at a spawn or fork that finds one free frame. */
  lemma {:induction false} KernelGrows(trace: seq<Moment>, ops: seq<Op>, events: seq<Event>, i: nat, j: nat)
    requires Traced(trace, ops, events) && i <= j <= |events|
    ensures KernelFrames(trace[i].h.role) <= KernelFrames(trace[j].h.role)
    ensures KernelFrames(trace[i].h.role) == KernelFrames(trace[j].h.role) <==> forall l :: i <= l < j ==> !Strands(trace[l], ops[l])
  {
    if i < j {
      KernelGrows(trace, ops, events, i, j - 1);
      assert TracedAt(trace, ops, events, j - 1);
      var m, m' := trace[j - 1], trace[j];
      OpenBooks(m, ops[j - 1], events[j - 1], m');
      FreeNotKernel(m.h);
    }
  }

  lemma FreeNotKernel(h: Now)
    requires Sound(h)
    ensures h.free !! KernelFrames(h.role)
  {
    forall f | f in h.free ensures f !in KernelFrames(h.role) {
      assert PartitionAt(h.role, h.free, f);
    }
  }

  /** A spawn that finds one free frame: it is refused, and the frame is the kernel's. */
  method SpawnOnLastFrame(k: Kernel, live: set<nat>) returns (live': set<nat>, ghost e: Event, sound: bool)
    requires k.Valid() && Storable(k.flat, k.cow.refs) && Live(k, live) && |k.frames.free| == 1
    modifies k`mem, k`role, k`flat, k.frames, k.frames.bitmap, k.cow`refs, k.cow.slots
    ensures e == Refused && live' == live && sound && k.Valid()
    ensures k.frames.free == {} && KernelFrames(k.role) == KernelFrames(old(k.role)) + old(k.frames.free)
  {
    ghost var m := Moment(Here(k), live);
    live', e, sound := Step(k, live, Spawn);
    ghost var m' := Moment(Here(k), live');
    OpenBooks(m, Spawn, e, m');
    NoneFree(m, e, m');
  }

  lemma NoneFree(m: Moment, e: Event, m': Moment)
    requires Booked(m, Spawn, e, m') && e.Refused? && InOrder(m.h) && InOrder(m'.h) && |m.h.free| == 1
    ensures m'.h.free == {}
  {
    forall f | f in m'.h.free ensures false {
      FreeIff(m.h, f);
      FreeIff(m'.h, f);
    }
  }

  /** Every fork and every exit so far met its condition. */
  ghost predicate AllKept(trace: seq<Moment>, ops: seq<Op>, n: nat)
    requires n <= |ops| && n <= |trace|
  {
    forall j :: 0 <= j < n ==> KeepsOrder(trace[j], ops[j])
  }

  /** A run from m0 to m that goes on while it is in order. */
  ghost predicate RanTo(trace: seq<Moment>, ops: seq<Op>, events: seq<Event>, m0: Moment, m: Moment, sound: bool) {
    var n := |events|;
    && Traced(trace, ops, events) && trace[0] == m0 && trace[n] == m
    && (sound <==> InOrder(m.h)) && (sound <==> AllKept(trace, ops, n)) && (!sound ==> 0 < n && AllKept(trace, ops, n - 1))
  }

  lemma RanMore(trace: seq<Moment>, ops: seq<Op>, events: seq<Event>, m0: Moment, m: Moment, e: Event, m': Moment, sound: bool)
    requires RanTo(trace, ops, events, m0, m, true) && |events| < |ops| && StepOk(m, ops[|events|], e, m')
    requires sound <==> InOrder(m'.h)
    ensures RanTo(trace + [m'], ops, events + [e], m0, m', sound)
  {
    TraceMore(trace, ops, events, e, m');
    var n, trace' := |events|, trace + [m'];
    assert AllKept(trace', ops, n);
    assert trace'[n] == m;
  }

  /**
   * Any attempts, in any order, up to the first that leaves something out of order. Each attempt is granted exactly
   * when the state it meets allows it, and the run goes to its end exactly when every fork and exit meets its condition.
   */
  method Run(k: Kernel, live: set<nat>, ops: seq<Op>)
    returns (live': set<nat>, ghost events: seq<Event>, ghost trace: seq<Moment>, n: nat, sound: bool)
    requires k.Valid() && Storable(k.flat, k.cow.refs) && Live(k, live)
    modifies k`mem, k`role, k`flat, k.frames, k.frames.bitmap, k.cow`refs, k.cow.slots
    ensures |events| == n <= |ops| && (sound ==> n == |ops| && k.Valid()) && Live(k, live')
    ensures RanTo(trace, ops, events, Moment(old(Here(k)), live), Moment(Here(k), live'), sound)
    ensures View(k.mem, k.flat) == EagerRun(old(View(k.mem, k.flat)), events)
  {
    ghost var start := Moment(Here(k), live);
    live', events, n, sound := live, [], 0, true;
    trace := [start];
    while n < |ops| && sound
      invariant |events| == n <= |ops| && k.Works() && Live(k, live')
      invariant RanTo(trace, ops, events, start, Moment(Here(k), live'), sound)
    {
      ghost var e, m := Refused, Moment(Here(k), live');
      live', e, sound := Step(k, live', ops[n]);
      ghost var m' := Moment(Here(k), live');
      RanMore(trace, ops, events, start, m, e, m', sound);
      trace, events := trace + [m'], events + [e];
      n := n + 1;
    }
    TraceReplays(trace, ops, events);
  }
}
