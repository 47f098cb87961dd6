/** Paths, and whole runs of FAT32 operations, replayed on a plain table of names. */
module FatRuns {
  import opened FatModel
  import opened FatDirs
  import opened FatStores
  import opened FatRooms
  import opened FatWrites
  import opened Fat32

  /** What each name of each directory shows. */
  type Files = imap<Key, Node>

  ghost function FilesOf(data: seq<Bytes>, n: nat, t: Tree): Files {
    imap k: Key :: View(data, n, t, k.dir, k.name)
  }

  ghost function Get(fs: Files, d: nat, name: Bytes): Node {
    if Key(d, name) in fs then fs[Key(d, name)] else Absent
  }

  type Path = seq<Bytes>

  /** The directory a path leads to from d. */
  ghost function Walk(fs: Files, d: nat, path: Path): Node
    decreases |path|
  {
    if path == [] then Dir(d)
    else match Get(fs, d, path[0])
      case Dir(id) => Walk(fs, id, path[1..])
      case _ => Absent
  }

  ghost function Parent(path: Path): Path
    requires path != []
  {
    path[..|path| - 1]
  }

  ghost function Lookup(fs: Files, root: nat, path: Path): Node {
    if path == [] then Absent
    else match Walk(fs, root, Parent(path))
      case Dir(d) => Get(fs, d, path[|path| - 1])
      case _ => Absent
  }

  // ---------- the volume as a ledger ----------

  /** What each name shows, the clusters that are free, and the room in each directory. */
  datatype Disk = Disk(files: Files, free: int, spaces: imap<nat, Space>)

  ghost function DiskOf(fat: Fat, data: seq<Bytes>, n: nat, t: Tree): Disk {
    Disk(FilesOf(data, n, t), FreeCount(fat), SpacesOf(data, n, t))
  }

  ghost function SpacesOf(data: seq<Bytes>, n: nat, t: Tree): imap<nat, Space> {
    imap d: nat :: SpaceOf(data, n, t, d)
  }

  ghost function SpaceIn(disk: Disk, d: nat): Space {
    if d in disk.spaces then disk.spaces[d] else Space(0, 0)
  }

  datatype Op = Write(path: Path, bytes: Bytes) | Remove(path: Path) | MakeDir(path: Path)

  /** An operation that was carried out: whether it succeeded, and the directory it made. */
  datatype Done = Done(op: Op, ok: bool, id: nat)

  /** The clusters a new entry of d takes: its own, and one more if d has no vacant slot. */
  ghost function Cost(disk: Disk, n: nat, d: nat, op: Op): nat {
    (if op.Write? then Needed(|op.bytes|, SLOT * n) else 1) + if SpaceIn(disk, d).vacant == 0 then 1 else 0
  }

  /** A new name needs to be new and clusters for it to be free, an old one to be there. */
  ghost predicate SucceedsIn(disk: Disk, n: nat, d: nat, name: Bytes, op: Op) {
    if op.Remove? then Get(disk.files, d, name) != Absent
    else Get(disk.files, d, name) == Absent && disk.free >= Cost(disk, n, d, op)
  }

  ghost predicate Succeeds(disk: Disk, n: nat, root: nat, op: Op) {
    op.path != [] && match Walk(disk.files, root, Parent(op.path))
      case Dir(d) => SucceedsIn(disk, n, d, op.path[|op.path| - 1], op)
      case _ => false
  }

  /** A name hidden, and with a directory all its names. */
  ghost function Hidden(fs: Files, d: nat, name: Bytes): Files {
    imap k: Key :: if k == Key(d, name) || Get(fs, d, name) == Dir(k.dir) then Absent else Get(fs, k.dir, k.name)
  }

  ghost function Entered(disk: Disk, n: nat, d: nat, name: Bytes, op: Op, node: Node): Disk {
    var spaces := disk.spaces[d := Filled(SpaceIn(disk, d), n)];
    Disk(disk.files[Key(d, name) := node], disk.free - Cost(disk, n, d, op), if node.Dir? then spaces[node.id := Space(1, n)] else spaces)
  }

  ghost function Removed(disk: Disk, d: nat, name: Bytes): Disk {
    var node := Get(disk.files, d, name);
    var s := SpaceIn(disk, d);
    Disk(Hidden(disk.files, d, name),
         disk.free + (match node case Absent => 0 case File(_, _, k) => k case Dir(id) => SpaceIn(disk, id).clusters),
         (if node.Dir? then disk.spaces[node.id := Space(0, 0)] else disk.spaces)[d := Space(s.clusters, s.vacant + 1)])
  }

  ghost function ApplyIn(disk: Disk, n: nat, d: nat, name: Bytes, e: Done): Disk {
    if !e.ok then disk
    else match e.op
      case Write(_, bytes) => Entered(disk, n, d, name, e.op, NewFile(bytes, n))
      case Remove(_) => Removed(disk, d, name)
      case MakeDir(_) => Entered(disk, n, d, name, e.op, Dir(e.id))
  }

  ghost function Apply(disk: Disk, n: nat, root: nat, e: Done): Disk {
    if !e.ok || e.op.path == [] then disk
    else match Walk(disk.files, root, Parent(e.op.path))
      case Dir(d) => ApplyIn(disk, n, d, e.op.path[|e.op.path| - 1], e)
      case _ => disk
  }

  ghost function Replay(disk: Disk, n: nat, root: nat, log: seq<Done>): Disk {
    if log == [] then disk else Apply(Replay(disk, n, root, log[..|log| - 1]), n, root, log[|log| - 1])
  }

  lemma ShowsFiles(data: seq<Bytes>, n: nat, t: Tree, data': seq<Bytes>, t': Tree, d: nat, name: Bytes, node: Node)
    requires Shows(data, n, t, data', t', d, name, node)
    ensures FilesOf(data', n, t') == FilesOf(data, n, t)[Key(d, name) := node]
  {
    forall k: Key ensures FilesOf(data', n, t')[k] == FilesOf(data, n, t)[Key(d, name) := node][k] {
      assert View(data', n, t', k.dir, k.name) == FilesOf(data', n, t')[k];
    }
  }

  lemma HidesFiles(data: seq<Bytes>, n: nat, t: Tree, data': seq<Bytes>, t': Tree, d: nat, name: Bytes)
    requires Hides(data, n, t, data', t', d, name)
    ensures FilesOf(data', n, t') == Hidden(FilesOf(data, n, t), d, name)
  {
    forall k: Key ensures FilesOf(data', n, t')[k] == Hidden(FilesOf(data, n, t), d, name)[k] {
      assert View(data', n, t', k.dir, k.name) == FilesOf(data', n, t')[k];
    }
  }

  lemma SameFiles(data: seq<Bytes>, n: nat, t: Tree, data': seq<Bytes>, t': Tree)
    requires SameViews(data, n, t, data', t')
    ensures FilesOf(data', n, t') == FilesOf(data, n, t)
  {
    forall k: Key ensures FilesOf(data', n, t')[k] == FilesOf(data, n, t)[k] {
      assert View(data', n, t', k.dir, k.name) == FilesOf(data', n, t')[k];
    }
  }

  // ---------- a new name leaves every path as it was ----------

  lemma {:induction false} WalkKept(fs: Files, d: nat, path: Path, e: nat, name: Bytes, node: Node)
    requires Get(fs, e, name) == Absent && Walk(fs, d, path) != Absent
    ensures Walk(fs[Key(e, name) := node], d, path) == Walk(fs, d, path)
    decreases |path|
  {
    if path != [] {
      match Get(fs, d, path[0])
      case Dir(id) => WalkKept(fs, id, path[1..], e, name, node);
      case _ =>
    }
  }

  /** After a write, its path shows the bytes and every path that led somewhere leads to the same. */
  lemma WriteKeepsPaths(disk: Disk, n: nat, root: nat, path: Path, bytes: Bytes, other: Path)
    requires path != [] && Walk(disk.files, root, Parent(path)).Dir? && Lookup(disk.files, root, path) == Absent
    ensures var fs, fs' := disk.files, Apply(disk, n, root, Done(Write(path, bytes), true, 0)).files;
            Lookup(fs', root, path) == NewFile(bytes, n)
            && (Lookup(fs, root, other) != Absent ==> Lookup(fs', root, other) == Lookup(fs, root, other))
  {
    var fs := disk.files;
    var d, name := Walk(fs, root, Parent(path)).id, path[|path| - 1];
    WalkKept(fs, root, Parent(path), d, name, NewFile(bytes, n));
    if Lookup(fs, root, other) != Absent {
      WalkKept(fs, root, Parent(other), d, name, NewFile(bytes, n));
    }
  }

  /** Removing a file just written gives back its clusters and its slot: every name shows what it did, and
      only a cluster its directory had to grow by stays taken. */
  lemma RemoveUndoesWrite(disk: Disk, n: nat, root: nat, path: Path, bytes: Bytes)
    requires path != [] && n > 0 && Succeeds(disk, n, root, Write(path, bytes)) && forall k: Key :: k in disk.files
    ensures var there := Apply(disk, n, root, Done(Write(path, bytes), true, 0));
      var back := Apply(there, n, root, Done(Remove(path), true, 0));
      var d := Walk(disk.files, root, Parent(path)).id;
      && Succeeds(there, n, root, Remove(path)) && back.files == disk.files
      && back.free == disk.free - (if SpaceIn(disk, d).vacant == 0 then 1 else 0)
      && SpaceIn(back, d) == Opened(SpaceIn(disk, d), n)
  {
    var d, name := Walk(disk.files, root, Parent(path)).id, path[|path| - 1];
    var there := Apply(disk, n, root, Done(Write(path, bytes), true, 0));
    WalkKept(disk.files, root, Parent(path), d, name, NewFile(bytes, n));
    var back := Removed(there, d, name);
    forall k: Key ensures back.files[k] == disk.files[k] {
    }
  }

  // ---------- the operations by path ----------

  /** The directory a path leads to, and whether there is one. */
  method ResolveDir(v: Volume, path: Path) returns (ok: bool, d: nat)
    requires v.Valid()
    ensures var to := Walk(FilesOf(v.data[..], v.n, v.t), v.root, path);
            (ok <==> to.Dir?) && (ok ==> to == Dir(d) && d in v.t.depth)
  {
    ghost var fs := FilesOf(v.data[..], v.n, v.t);
    d, ok := v.root, true;
    var i := 0;
    while i < |path| && ok
      invariant i <= |path| && (ok ==> d in v.t.depth && Walk(fs, v.root, path) == Walk(fs, d, path[i..]))
      invariant !ok ==> Walk(fs, v.root, path) == Absent
      decreases |path| - i, ok
    {
      var found, _, j, e, k := v.FindEntryInDir(d, path[i]);
      MissingIff(v.data[..], v.n, v.t, d, path[i]);
      assert path[i..][0] == path[i] && path[i..][1..] == path[i + 1..];
      assert fs[Key(d, path[i])] == View(v.data[..], v.n, v.t, d, path[i]);
      if found {
        ViewIs(v.Table(), v.data[..], v.n, v.t, d, path[i], Pos(k, j));
        assert SlotOk(v.data[..], v.n, v.t, d, Pos(k, j));
      }
      if found && IsDir(e) {
        d, i := First(e), i + 1;
      } else {
        ok := false;
      }
    }
    assert path[|path|..] == [];
  }

  method ReadPath(v: Volume, path: Path, out: array<Byte>) returns (r: int)
    requires v.Valid()
    modifies out
    ensures match Lookup(FilesOf(v.data[..], v.n, v.t), v.root, path)
      case Absent => r == -1
      case Dir(_) => r == -1
      case File(size, bytes, _) =>
        if size > out.Length then r == -2
        else |bytes| <= out.Length && |bytes| < 0x1_0000_0000 && r == Signed(|bytes|) && out[..|bytes|] == bytes
  {
    r := -1;
    if path != [] {
      var ok, d := ResolveDir(v, path[..|path| - 1]);
      if ok {
        ghost var k := Key(d, path[|path| - 1]);
        assert FilesOf(v.data[..], v.n, v.t)[k] == View(v.data[..], v.n, v.t, d, path[|path| - 1]);
        r := v.ReadFile(d, path[|path| - 1], out);
      }
    }
  }

  predicate GoodOp(op: Op) {
    match op
    case Write(path, bytes) => (path != [] ==> GoodName(path[|path| - 1])) && |bytes| < 0x1_0000_0000
    case Remove(path) => true
    case MakeDir(path) => path != [] ==> GoodName(path[|path| - 1])
  }

  ghost function NowOf(v: Volume): Disk
    reads v, v.fat, v.data
  {
    DiskOf(v.Table(), v.data[..], v.n, v.t)
  }

  /** One operation, by path. */
  method Step(v: Volume, op: Op) returns (e: Done)
    requires v.Valid() && GoodOp(op)
    modifies v`t, v.fat, v.data
    ensures v.Valid() && StepOk(old(NowOf(v)), v.n, v.root, op, e, NowOf(v))
  {
    e := Done(op, false, 0);
    if op.path != [] {
      var found, d := ResolveDir(v, op.path[..|op.path| - 1]);
      if found {
        e := StepIn(v, op, d, op.path[|op.path| - 1]);
      }
    }
  }

  /** The operation succeeds exactly when it can, makes a directory only of a cluster that was none, and
      changes the ledger accordingly. */
  ghost predicate StepOk(disk: Disk, n: nat, root: nat, op: Op, e: Done, disk': Disk) {
    && e.op == op && (e.ok <==> Succeeds(disk, n, root, op)) && disk' == Apply(disk, n, root, e)
    && (e.ok && op.MakeDir? ==> SpaceIn(disk, e.id) == Space(0, 0))
  }

  ghost predicate StepInOk(disk: Disk, n: nat, d: nat, name: Bytes, op: Op, e: Done, disk': Disk) {
    && e.op == op && (e.ok <==> SucceedsIn(disk, n, d, name, op)) && disk' == ApplyIn(disk, n, d, name, e)
    && (e.ok && op.MakeDir? ==> SpaceIn(disk, e.id) == Space(0, 0))
  }

  method StepIn(v: Volume, op: Op, d: nat, name: Bytes) returns (e: Done)
    requires v.Valid() && d in v.t.depth && (op.Remove? || GoodName(name)) && (op.Write? ==> |op.bytes| < 0x1_0000_0000)
    modifies v`t, v.fat, v.data
    ensures v.Valid() && StepInOk(old(NowOf(v)), v.n, d, name, op, e, NowOf(v))
  {
    match op
    case Write(_, bytes) => e := StepWrite(v, op, d, name, bytes);
    case Remove(_) => e := StepRemove(v, op, d, name);
    case MakeDir(_) => e := StepMakeDir(v, op, d, name);
  }

  /** The ledger after an entry more. */
  lemma EnteredDisk(fat: Fat, data: seq<Bytes>, n: nat, t: Tree, fat': Fat, data': seq<Bytes>, t': Tree, d: nat, name: Bytes,
                    op: Op, node: Node)
    requires Shape(fat, data, n, t) && d in t.depth && (node.Dir? ==> node.id !in t.depth)
    requires Shows(data, n, t, data', t', d, name, node) && Takes(data, n, t, data', t', d, node)
    requires FreeCount(fat') + (if op.Write? then Needed(|op.bytes|, SLOT * n) else 1) + Extra(data, n, t, d) == FreeCount(fat)
    ensures DiskOf(fat', data', n, t') == Entered(DiskOf(fat, data, n, t), n, d, name, op, node)
  {
    RoomyIff(fat, data, n, t, d);
    ShowsFiles(data, n, t, data', t', d, name, node);
    TakenSpaces(data, n, t, data', t', d, node);
  }

  lemma TakenSpaces(data: seq<Bytes>, n: nat, t: Tree, data': seq<Bytes>, t': Tree, d: nat, node: Node)
    requires Takes(data, n, t, data', t', d, node)
    ensures var spaces := SpacesOf(data, n, t)[d := Filled(SpaceOf(data, n, t, d), n)];
      SpacesOf(data', n, t') == if node.Dir? then spaces[node.id := Space(1, n)] else spaces
  {
    var spaces := SpacesOf(data, n, t)[d := Filled(SpaceOf(data, n, t, d), n)];
    var after := if node.Dir? then spaces[node.id := Space(1, n)] else spaces;
    forall e: nat ensures SpacesOf(data', n, t')[e] == after[e] {
      assert SpaceOf(data', n, t', e) == SpacesOf(data', n, t')[e];
    }
  }

  lemma SameDisk(fat: Fat, data: seq<Bytes>, n: nat, t: Tree, data': seq<Bytes>, t': Tree)
    requires SameViews(data, n, t, data', t') && SameSpaces(data, n, t, data', t')
    ensures DiskOf(fat, data', n, t') == DiskOf(fat, data, n, t)
  {
    SameFiles(data, n, t, data', t');
    var disk, disk' := DiskOf(fat, data, n, t), DiskOf(fat, data', n, t');
    forall e: nat ensures disk'.spaces[e] == disk.spaces[e] {
      assert SpaceOf(data', n, t', e) == disk'.spaces[e];
    }
  }

  /** The ledger after an entry fewer. */
  lemma RemovedDisk(fat: Fat, data: seq<Bytes>, n: nat, t: Tree, fat': Fat, data': seq<Bytes>, t': Tree, d: nat, name: Bytes, node: Node)
    requires node == View(data, n, t, d, name) && (node.Dir? ==> node.id in t.depth && node.id in t.o.chains)
    requires Hides(data, n, t, data', t', d, name) && Gives(data, n, t, data', t', d, node)
    requires FreeCount(fat') == FreeCount(fat) + match node case Absent => 0 case File(_, _, k) => k case Dir(id) => ClustersOf(t, id)
    ensures DiskOf(fat', data', n, t') == Removed(DiskOf(fat, data, n, t), d, name)
  {
    assert Get(FilesOf(data, n, t), d, name) == View(data, n, t, d, name);
    HidesFiles(data, n, t, data', t', d, name);
    GivenSpaces(data, n, t, data', t', d, node);
    var disk := DiskOf(fat, data, n, t);
    assert Get(disk.files, d, name) == node;
    assert SpaceIn(disk, d) == SpaceOf(data, n, t, d);
    assert node.Dir? ==> SpaceIn(disk, node.id).clusters == ClustersOf(t, node.id);
  }

  lemma GivenSpaces(data: seq<Bytes>, n: nat, t: Tree, data': seq<Bytes>, t': Tree, d: nat, node: Node)
    requires Gives(data, n, t, data', t', d, node)
    ensures var s, spaces := SpaceOf(data, n, t, d), SpacesOf(data, n, t);
      SpacesOf(data', n, t') == (if node.Dir? then spaces[node.id := Space(0, 0)] else spaces)[d := Space(s.clusters, s.vacant + 1)]
  {
    var s, spaces := SpaceOf(data, n, t, d), SpacesOf(data, n, t);
    var after := (if node.Dir? then spaces[node.id := Space(0, 0)] else spaces)[d := Space(s.clusters, s.vacant + 1)];
    forall e: nat ensures SpacesOf(data', n, t')[e] == after[e] {
      assert SpaceOf(data', n, t', e) == SpacesOf(data', n, t')[e];
    }
  }

  /** A directory shown under a name is one, and not the directory itself. */
  lemma DirOfEntry(fat: Fat, data: seq<Bytes>, n: nat, t: Tree, d: nat, name: Bytes)
    requires Good(fat, data, n, t)
    ensures var node := View(data, n, t, d, name); node.Dir? ==> node.id in t.depth && node.id in t.o.chains && node.id != d
  {
    if !Missing(data, n, t, d, name) {
      var p :| Hit(data, n, t, d, name, p);
      ViewIs(fat, data, n, t, d, name, p);
      assert SlotOk(data, n, t, d, p);
    }
  }

  method StepWrite(v: Volume, op: Op, d: nat, name: Bytes, bytes: Bytes) returns (e: Done)
    requires v.Valid() && d in v.t.depth && GoodName(name) && |bytes| < 0x1_0000_0000 && op.Write? && op.bytes == bytes
    modifies v`t, v.fat, v.data
    ensures v.Valid() && StepInOk(old(NowOf(v)), v.n, d, name, op, e, NowOf(v))
  {
    ghost var table0, data0, t0 := v.Table(), v.data[..], v.t;
    RoomyIff(table0, data0, v.n, t0, d);
    assert Get(FilesOf(data0, v.n, t0), d, name) == View(data0, v.n, t0, d, name);
    var ok := v.WriteFile(d, name, bytes);
    e := Done(op, ok, 0);
    if ok {
      EnteredDisk(table0, data0, v.n, t0, v.Table(), v.data[..], v.t, d, name, op, NewFile(bytes, v.n));
    } else {
      SameDisk(table0, data0, v.n, t0, v.data[..], v.t);
    }
  }

  method StepRemove(v: Volume, op: Op, d: nat, name: Bytes) returns (e: Done)
    requires v.Valid() && d in v.t.depth && op.Remove?
    modifies v`t, v.fat, v.data
    ensures v.Valid() && StepInOk(old(NowOf(v)), v.n, d, name, op, e, NowOf(v))
  {
    ghost var table0, data0, t0 := v.Table(), v.data[..], v.t;
    assert Get(FilesOf(data0, v.n, t0), d, name) == View(data0, v.n, t0, d, name);
    var ok;
    ghost var first;
    ok, first := v.DeleteFile(d, name);
    e := Done(op, ok, 0);
    if ok {
      DirOfEntry(table0, data0, v.n, t0, d, name);
      RemovedDisk(table0, data0, v.n, t0, v.Table(), v.data[..], v.t, d, name, View(data0, v.n, t0, d, name));
    }
  }

  method StepMakeDir(v: Volume, op: Op, d: nat, name: Bytes) returns (e: Done)
    requires v.Valid() && d in v.t.depth && GoodName(name) && op.MakeDir?
    modifies v`t, v.fat, v.data
    ensures v.Valid() && StepInOk(old(NowOf(v)), v.n, d, name, op, e, NowOf(v))
  {
    ghost var table0, data0, t0 := v.Table(), v.data[..], v.t;
    RoomyIff(table0, data0, v.n, t0, d);
    assert Get(FilesOf(data0, v.n, t0), d, name) == View(data0, v.n, t0, d, name);
    var ok, id := v.CreateDir(d, name);
    e := Done(op, ok, id);
    if ok {
      EnteredDisk(table0, data0, v.n, t0, v.Table(), v.data[..], v.t, d, name, op, Dir(id));
    } else {
      SameDisk(table0, data0, v.n, t0, v.data[..], v.t);
    }
  }

  // ---------- runs ----------

  /** Operation i succeeded exactly when it could in the ledger that the log up to it leads to. */
  ghost predicate LoggedAt(disk: Disk, n: nat, root: nat, ops: seq<Op>, log: seq<Done>, i: nat) {
    i < |log| && i < |ops| ==>
      StepOk(Replay(disk, n, root, log[..i]), n, root, ops[i], log[i], Replay(disk, n, root, log[..i + 1]))
  }

  ghost predicate Logged(disk: Disk, n: nat, root: nat, ops: seq<Op>, log: seq<Done>) {
    |log| <= |ops| && forall i: nat {:trigger LoggedAt(disk, n, root, ops, log, i)} :: LoggedAt(disk, n, root, ops, log, i)
  }

  lemma LogMore(disk: Disk, n: nat, root: nat, ops: seq<Op>, log: seq<Done>, e: Done, disk': Disk)
    requires Logged(disk, n, root, ops, log) && |log| < |ops|
    requires StepOk(Replay(disk, n, root, log), n, root, ops[|log|], e, disk')
    ensures Logged(disk, n, root, ops, log + [e]) && disk' == Replay(disk, n, root, log + [e])
  {
    var log' := log + [e];
    assert log'[..|log|] == log && log'[..|log| + 1] == log';
    forall i: nat ensures LoggedAt(disk, n, root, ops, log', i) {
      assert LoggedAt(disk, n, root, ops, log, i);
      if i < |log| {
        assert log'[..i] == log[..i] && log'[..i + 1] == log[..i + 1];
      }
    }
  }

  /**
   * Any number of operations. The log alone decides each of them: it succeeds exactly when it can in the ledger that
   * replaying the log so far gives; the volume stays sound, and its names, its free clusters and the room in
   * its directories are those of the replay.
   */
  method Run(v: Volume, ops: seq<Op>) returns (log: seq<Done>)
    requires v.Valid() && forall i :: 0 <= i < |ops| ==> GoodOp(ops[i])
    modifies v`t, v.fat, v.data
    ensures v.Valid() && |log| == |ops| && Logged(old(NowOf(v)), v.n, v.root, ops, log)
    ensures NowOf(v) == Replay(old(NowOf(v)), v.n, v.root, log)
  {
    ghost var start := NowOf(v);
    log := [];
    while |log| < |ops|
      invariant v.Valid() && Logged(start, v.n, v.root, ops, log) && NowOf(v) == Replay(start, v.n, v.root, log)
    {
      var e := Step(v, ops[|log|]);
      LogMore(start, v.n, v.root, ops, log, e, NowOf(v));
      log := log + [e];
    }
  }
}
