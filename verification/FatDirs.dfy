/** FAT32 directories: 32-byte slots, and the tree of files and directories they spell. */
module FatDirs {
  import opened FatModel

  type Byte = b: nat | b < 256
  type Bytes = seq<Byte>

  const SLOT: nat := 32
  const UNUSED: Byte := 0
  const DELETED: Byte := 0xE5
  const ATTR_DIRECTORY: Byte := 0x10
  const ATTR_ARCHIVE: Byte := 0x20

  // ---------- one slot ----------

  type Slot = s: Bytes | |s| == SLOT witness seq(SLOT, _ => 0)

  predicate Unused(s: Slot) {
    s[0] == UNUSED
  }

  predicate Reusable(s: Slot) {
    s[0] == UNUSED || s[0] == DELETED
  }

  /** In use, and neither part of a long name nor a volume label. */
  predicate Visible(s: Slot) {
    !Reusable(s) && s[11] % 16 != 0x0F && s[11] / 8 % 2 == 0
  }

  predicate IsDir(s: Slot) {
    s[11] / 16 % 2 == 1
  }

  function Name(s: Slot): Bytes {
    s[..11]
  }

  function Word(lo: nat, hi: nat): nat {
    lo + 256 * hi
  }

  function Low(s: Slot, at: nat): nat
    requires at + 2 <= SLOT
  {
    Word(s[at], s[at + 1])
  }

  function First(s: Slot): nat {
    65536 * Low(s, 20) + Low(s, 26)
  }

  function Size(s: Slot): nat {
    Low(s, 28) + 65536 * Low(s, 30)
  }

  predicate GoodName(name: Bytes) {
    |name| == 11 && name[0] != UNUSED && name[0] != DELETED
  }

  function Half(v: nat): (b: Bytes)
    requires v < 65536
    ensures |b| == 2 && Word(b[0], b[1]) == v
  {
    [v % 256, v / 256]
  }

  /** The slot for a new file or directory: all its times are zero. */
  function Entry(name: Bytes, attr: Byte, first: nat, size: nat): (s: Slot)
    requires |name| == 11 && first < 0x1_0000_0000 && size < 0x1_0000_0000
  {
    name + [attr] + seq(8, _ => 0) + Half(first / 65536) + [0, 0, 0, 0] + Half(first % 65536)
    + Half(size % 65536) + Half(size / 65536)
  }

  lemma EntryFields(name: Bytes, attr: Byte, first: nat, size: nat)
    requires |name| == 11 && first < 0x1_0000_0000 && size < 0x1_0000_0000
    ensures var s := Entry(name, attr, first, size);
            Name(s) == name && s[11] == attr && First(s) == first && Size(s) == size
  {
    var s := Entry(name, attr, first, size);
    assert s[20] == Half(first / 65536)[0] && s[21] == Half(first / 65536)[1];
    assert s[26] == Half(first % 65536)[0] && s[27] == Half(first % 65536)[1];
    assert s[28] == Half(size % 65536)[0] && s[29] == Half(size % 65536)[1];
    assert s[30] == Half(size / 65536)[0] && s[31] == Half(size / 65536)[1];
  }

  /** Four bytes, least significant first. */
  function Number(b0: nat, b1: nat, b2: nat, b3: nat): nat {
    b0 + 256 * b1 + 65536 * b2 + 16777216 * b3
  }

  /** Where a slot keeps its fields: name, attributes, the cluster's high half at 20 and low half at 26, the size at 28. */
  lemma EntryBytes(name: Bytes, attr: Byte, first: nat, size: nat)
    requires |name| == 11 && first < 0x1_0000_0000 && size < 0x1_0000_0000
    ensures var s := Entry(name, attr, first, size);
      && s[0..11] == name && s[11] == attr
      && Number(s[26], s[27], s[20], s[21]) == first && Number(s[28], s[29], s[30], s[31]) == size
      && (forall i :: 12 <= i < 20 || 22 <= i < 26 ==> s[i] == 0)
  {
    var s := Entry(name, attr, first, size);
    EntryFields(name, attr, first, size);
    assert First(s) == Number(s[26], s[27], s[20], s[21]) && Size(s) == Number(s[28], s[29], s[30], s[31]);
  }

  /** The marks on the disk: 0x20 for a file, 0x10 for a directory, 0xE5 in a slot given up, 0x0FFFFFFF at a chain's end. */
  lemma Marks(name: Bytes, first: nat, size: nat)
    requires |name| == 11 && first < 0x1_0000_0000 && size < 0x1_0000_0000
    ensures Entry(name, ATTR_ARCHIVE, first, size)[11] == 0x20 && Entry(name, ATTR_DIRECTORY, first, size)[11] == 0x10
    ensures DELETED == 0xE5 && EOC == 0x0FFF_FFFF
  {
    EntryFields(name, ATTR_ARCHIVE, first, size);
    EntryFields(name, ATTR_DIRECTORY, first, size);
  }

  function SlotIn(cluster: Bytes, j: nat): Slot {
    if SLOT * j + SLOT <= |cluster| then cluster[SLOT * j..SLOT * j + SLOT] else seq(SLOT, _ => 0)
  }

  function SetSlot(cluster: Bytes, j: nat, s: Slot): (r: Bytes)
    requires SLOT * j + SLOT <= |cluster|
    ensures |r| == |cluster|
  {
    cluster[..SLOT * j] + s + cluster[SLOT * j + SLOT..]
  }

  lemma SetSlotIn(cluster: Bytes, j: nat, s: Slot, k: nat)
    requires SLOT * j + SLOT <= |cluster|
    ensures SlotIn(SetSlot(cluster, j, s), k) == if k == j then s else SlotIn(cluster, k)
  {
    var r := SetSlot(cluster, j, s);
    if SLOT * k + SLOT <= |cluster| {
      var a, b := SLOT * k, SLOT * j;
      if k == j {
        assert r[b..b + SLOT] == s;
      } else {
        assert if k < j then a + SLOT <= b else b + SLOT <= a;
        SetElsewhere(cluster, b, s, a);
      }
    }
  }

  lemma SetElsewhere(cluster: Bytes, b: nat, s: Slot, a: nat)
    requires b + SLOT <= |cluster| && a + SLOT <= |cluster| && (a + SLOT <= b || b + SLOT <= a)
    ensures (cluster[..b] + s + cluster[b + SLOT..])[a..a + SLOT] == cluster[a..a + SLOT]
  {
  }

  lemma ZeroSlot(cluster: Bytes, j: nat)
    requires forall i :: 0 <= i < |cluster| ==> cluster[i] == 0
    ensures SlotIn(cluster, j) == seq(SLOT, _ => 0)
  {
  }

  // ---------- positions in a directory ----------

  /** Slot j of the i-th cluster of a chain. */
  datatype Pos = Pos(i: nat, j: nat)

  predicate Before(p: Pos, q: Pos) {
    p.i < q.i || (p.i == q.i && p.j < q.j)
  }

  predicate InDir(ch: Chain, n: nat, p: Pos) {
    p.i < |ch| && p.j < n
  }

  function SlotAt(data: seq<Bytes>, ch: Chain, p: Pos): Slot {
    if p.i < |ch| && ch[p.i] < |data| then SlotIn(data[ch[p.i]], p.j) else seq(SLOT, _ => 0)
  }

  // ---------- the tree ----------

  datatype Place = Place(dir: nat, pos: Pos)
  datatype Key = Key(dir: nat, name: Bytes)

  /**
   * The objects with: how deep each directory lies, where the entry of each object stands,
   * where each name of each directory stands, and where each directory's unused slots begin.
   */
  datatype Tree = Tree(root: nat, o: Objects, depth: map<nat, nat>, place: map<nat, Place>,
                       names: map<Key, Pos>, end: map<nat, Pos>)

  /** A directory entry leads to a deeper directory, a file entry to nothing or to a file. */
  ghost predicate Leads(t: Tree, d: nat, s: Slot)
    requires d in t.depth
  {
    if IsDir(s) then First(s) in t.depth && t.depth[First(s)] > t.depth[d]
    else First(s) >= 2 ==> First(s) in t.o.chains && First(s) !in t.depth
  }

  ghost predicate EntryOk(t: Tree, d: nat, p: Pos, s: Slot)
    requires d in t.depth
  {
    && Leads(t, d, s)
    && Key(d, Name(s)) in t.names && t.names[Key(d, Name(s))] == p
    && (First(s) >= 2 ==> First(s) in t.place && t.place[First(s)] == Place(d, p))
  }

  ghost predicate IsSlot(n: nat, t: Tree, d: nat, p: Pos) {
    d in t.depth && d in t.o.chains && d in t.end && InDir(t.o.chains[d], n, p)
  }

  ghost predicate SlotOk(data: seq<Bytes>, n: nat, t: Tree, d: nat, p: Pos) {
    IsSlot(n, t, d, p) ==>
      var s := SlotAt(data, t.o.chains[d], p);
      (Unused(s) <==> !Before(p, t.end[d])) && (Visible(s) ==> EntryOk(t, d, p, s))
  }

  ghost predicate WellSized(data: seq<Bytes>, n: nat) {
    forall c :: 0 <= c < |data| ==> |data[c]| == SLOT * n
  }

  ghost predicate Shape(fat: Fat, data: seq<Bytes>, n: nat, t: Tree) {
    && |data| == |fat| && n > 0 && WellSized(data, n)
    && t.root in t.depth && t.depth[t.root] == 0
    && (forall d: nat :: d in t.depth ==> d in t.o.chains && d in t.end)
  }

  /** The volume holds the tree: chains are proper and disjoint, entries lead where they should. */
  ghost predicate Good(fat: Fat, data: seq<Bytes>, n: nat, t: Tree) {
    && Shape(fat, data, n, t) && ObjectsOk(fat, t.o)
    && forall d: nat, p: Pos {:trigger SlotOk(data, n, t, d, p)} :: SlotOk(data, n, t, d, p)
  }

  // ---------- what a reader sees ----------

  /** Nothing, a file with the clusters its chain has, or a directory. */
  datatype Node = Absent | File(size: nat, bytes: Bytes, clusters: nat) | Dir(id: nat)

  ghost function Content(data: seq<Bytes>, ch: Chain): Bytes {
    if ch == [] then [] else (if ch[0] < |data| then data[ch[0]] else []) + Content(data, ch[1..])
  }

  ghost function FileBytes(data: seq<Bytes>, t: Tree, s: Slot): Bytes {
    var all := if First(s) in t.o.chains then Content(data, t.o.chains[First(s)]) else [];
    if Size(s) <= |all| then all[..Size(s)] else all
  }

  ghost function ClustersOf(t: Tree, first: nat): nat {
    if first in t.o.chains then |t.o.chains[first]| else 0
  }

  ghost function NodeOf(data: seq<Bytes>, t: Tree, s: Slot): Node {
    if IsDir(s) then Dir(First(s)) else File(Size(s), FileBytes(data, t, s), ClustersOf(t, First(s)))
  }

  ghost predicate Hit(data: seq<Bytes>, n: nat, t: Tree, d: nat, name: Bytes, p: Pos) {
    IsSlot(n, t, d, p) && Visible(SlotAt(data, t.o.chains[d], p)) && Name(SlotAt(data, t.o.chains[d], p)) == name
  }

  ghost predicate Missing(data: seq<Bytes>, n: nat, t: Tree, d: nat, name: Bytes) {
    forall p: Pos :: !Hit(data, n, t, d, name, p)
  }

  /** What directory d shows under a name. */
  ghost function View(data: seq<Bytes>, n: nat, t: Tree, d: nat, name: Bytes): Node {
    if Missing(data, n, t, d, name) then Absent
    else var p :| Hit(data, n, t, d, name, p); NodeOf(data, t, SlotAt(data, t.o.chains[d], p))
  }

  /** No directory holds a name twice. */
  lemma HitUnique(fat: Fat, data: seq<Bytes>, n: nat, t: Tree, d: nat, name: Bytes, p: Pos, q: Pos)
    requires Good(fat, data, n, t) && Hit(data, n, t, d, name, p) && Hit(data, n, t, d, name, q)
    ensures p == q
  {
    assert SlotOk(data, n, t, d, p) && SlotOk(data, n, t, d, q);
  }

  lemma ViewIs(fat: Fat, data: seq<Bytes>, n: nat, t: Tree, d: nat, name: Bytes, p: Pos)
    requires Good(fat, data, n, t) && Hit(data, n, t, d, name, p)
    ensures d in t.o.chains && View(data, n, t, d, name) == NodeOf(data, t, SlotAt(data, t.o.chains[d], p))
  {
    forall q | Hit(data, n, t, d, name, q) ensures q == p {
      HitUnique(fat, data, n, t, d, name, p, q);
    }
  }
}
