/** What a FAT32 directory shows after a file or directory is entered or removed. */
module FatWrites {
  import opened FatModel
  import opened FatDirs
  import opened FatTrees
  import opened FatStores
  import opened FatRooms

  /** Every name of every directory shows what it did, except that d shows node under name. */
  ghost predicate Shows(data: seq<Bytes>, n: nat, t: Tree, data': seq<Bytes>, t': Tree, d: nat, name: Bytes, node: Node) {
    forall e: nat, other: Bytes {:trigger View(data', n, t', e, other)} ::
      View(data', n, t', e, other) == if e == d && other == name then node else View(data, n, t, e, other)
  }

  ghost predicate SameViews(data: seq<Bytes>, n: nat, t: Tree, data': seq<Bytes>, t': Tree) {
    forall e: nat, other: Bytes {:trigger View(data', n, t', e, other)} ::
      View(data', n, t', e, other) == View(data, n, t, e, other)
  }

  lemma ShowsAfter(data: seq<Bytes>, n: nat, t: Tree, data1: seq<Bytes>, t1: Tree, data': seq<Bytes>, t': Tree, d: nat, name: Bytes, node: Node)
    requires SameViews(data, n, t, data1, t1) && Shows(data1, n, t1, data', t', d, name, node)
    ensures Shows(data, n, t, data', t', d, name, node)
  {
    forall e: nat, other: Bytes
      ensures View(data', n, t', e, other) == if e == d && other == name then node else View(data, n, t, e, other)
    {
      assert View(data1, n, t1, e, other) == View(data, n, t, e, other);
    }
  }

  /** A name is missing exactly when the directory shows nothing under it. */
  lemma MissingIff(data: seq<Bytes>, n: nat, t: Tree, d: nat, name: Bytes)
    ensures Missing(data, n, t, d, name) <==> View(data, n, t, d, name) == Absent
  {
  }

  lemma MissingSame(data: seq<Bytes>, n: nat, t: Tree, data': seq<Bytes>, t': Tree, d: nat, name: Bytes)
    requires SameViews(data, n, t, data', t')
    ensures Missing(data', n, t', d, name) == Missing(data, n, t, d, name)
  {
    MissingIff(data, n, t, d, name);
    MissingIff(data', n, t', d, name);
    assert View(data', n, t', d, name) == View(data, n, t, d, name);
  }

  // ---------- clusters that were free ----------

  ghost predicate FreeOnly(fat: Fat, data: seq<Bytes>, fat': Fat, data': seq<Bytes>) {
    && |fat'| == |fat| == |data| == |data'|
    && forall c: nat :: c < |fat| && fat[c] != 0 ==> fat'[c] == fat[c] && data'[c] == data[c]
  }

  lemma FreeFrame(fat: Fat, data: seq<Bytes>, n: nat, t: Tree, fat': Fat, data': seq<Bytes>)
    requires Good(fat, data, n, t) && FreeOnly(fat, data, fat', data') && WellSized(data', n)
    ensures Agree(fat, data, fat', data', t) && Good(fat', data', n, t) && SameViews(data, n, t, data', t)
    ensures SameSpaces(data, n, t, data', t)
  {
    forall c: nat | c in t.o.owner && c < |fat| ensures fat[c] != 0 {
      var s := t.o.owner[c];
      assert ObjectAt(fat, t.o, s);
      InRange(fat, t.o.chains[s], c);
    }
    Frame(fat, data, n, t, fat', data');
    FrameSpaces(fat, data, n, t, fat', data');
    forall e: nat, other: Bytes ensures View(data', n, t, e, other) == View(data, n, t, e, other) {
      ViewFrame(fat, data, n, t, fat', data', e, other);
    }
  }

  lemma RoomySame(fat: Fat, data: seq<Bytes>, n: nat, t: Tree, fat': Fat, data': seq<Bytes>, d: nat)
    requires Good(fat, data, n, t) && Agree(fat, data, fat', data', t)
    ensures Roomy(data', n, t, d) == Roomy(data, n, t, d)
  {
    forall p: Pos | IsSlot(n, t, d, p) ensures SlotAt(data', t.o.chains[d], p) == SlotAt(data, t.o.chains[d], p) {
      SlotsAgree(fat, data, fat', data', t, d, p);
    }
    if Roomy(data, n, t, d) {
      var p: Pos :| IsSlot(n, t, d, p) && Reusable(SlotAt(data, t.o.chains[d], p));
      assert Reusable(SlotAt(data', t.o.chains[d], p));
    }
    if Roomy(data', n, t, d) {
      var p: Pos :| IsSlot(n, t, d, p) && Reusable(SlotAt(data', t.o.chains[d], p));
      assert Reusable(SlotAt(data, t.o.chains[d], p));
    }
  }

  // ---------- a chain waiting for its entry ----------

  ghost predicate Waiting(fat: Fat, data: seq<Bytes>, t: Tree, ch: Chain, bytes: Bytes) {
    if ch == [] then bytes == []
    else IsChain(fat, ch) && (forall c :: c in ch ==> c !in t.o.owner) && Holds(data, ch, bytes, |bytes|)
  }

  lemma StoredWaits(fat0: Fat, data0: seq<Bytes>, fat: Fat, data: seq<Bytes>, n: nat, t: Tree, ch: Chain, bytes: Bytes)
    requires Good(fat0, data0, n, t) && Storing(fat0, data0, fat, data, n, ch, bytes, |bytes|)
    ensures Waiting(fat, data, t, ch, bytes) && FreeOnly(fat0, data0, fat, data)
  {
    forall c | c in ch ensures c !in t.o.owner {
      FreeNotOwned(fat0, t.o, c);
    }
  }

  lemma FreedWaiting(fat: Fat, data: seq<Bytes>, n: nat, t: Tree, ch: Chain, bytes: Bytes)
    requires Good(fat, data, n, t) && Waiting(fat, data, t, ch, bytes)
    ensures Good(Freed(fat, ch), data, n, t)
  {
    Frame(fat, data, n, t, Freed(fat, ch), data);
  }

  /** What a file of these bytes shows once it is written. */
  ghost function NewFile(bytes: Bytes, n: nat): Node {
    File(|bytes|, bytes, Needed(|bytes|, SLOT * n))
  }

  /** A cluster more when the directory has no slot left. */
  ghost function Extra(data: seq<Bytes>, n: nat, t: Tree, d: nat): nat {
    if Roomy(data, n, t, d) then 0 else 1
  }

  /** Growing the directory leaves the waiting chain alone. */
  lemma GrowthWaits(fat: Fat, data: seq<Bytes>, n: nat, t: Tree, d: nat, c: nat, fat': Fat, data': seq<Bytes>, ch: Chain, bytes: Bytes)
    requires Good(fat, data, n, t) && d in t.depth && !Roomy(data, n, t, d) && c != 0 && FirstFree(fat, c)
    requires Lengthens(fat, data, n, t, d, c, fat', data', Grown(t, d, c)) && Waiting(fat, data, t, ch, bytes)
    ensures Waiting(fat', data', Grown(t, d, c), ch, bytes) && SameViews(data, n, t, data', Grown(t, d, c))
  {
    if ch != [] {
      FreeNotInChain(fat, ch, c);
      var dir := t.o.chains[d];
      assert ObjectAt(fat, t.o, d);
      assert dir[|dir| - 1] in dir;
      ChainFrame(fat, fat', ch);
      ContentFrame(data, data', ch);
    }
    forall e: nat, other: Bytes ensures View(data', n, Grown(t, d, c), e, other) == View(data, n, t, e, other) {
      LengthenedView(fat, data, n, t, d, c, fat', data', e, other);
    }
  }

  // ---------- the entry of a file ----------

  ghost function FileHeld(t: Tree, ch: Chain): Tree {
    if ch == [] then t else Held(t, ch)
  }

  lemma HoldFile(fat: Fat, data: seq<Bytes>, n: nat, t: Tree, ch: Chain, bytes: Bytes)
    requires Good(fat, data, n, t) && Waiting(fat, data, t, ch, bytes)
    ensures Good(fat, data, n, FileHeld(t, ch)) && SameViews(data, n, t, data, FileHeld(t, ch))
    ensures ch != [] ==> ch[0] !in t.o.chains && ch[0] >= 2
  {
    if ch != [] {
      HoldObject(fat, data, n, t, ch);
      InRange(fat, ch, ch[0]);
      forall e: nat, other: Bytes ensures View(data, n, Held(t, ch), e, other) == View(data, n, t, e, other) {
        HeldView(fat, data, n, t, ch, e, other);
      }
    }
  }

  /** No entry leads to an object that was not there. */
  lemma NewUnreferenced(fat: Fat, data: seq<Bytes>, n: nat, t: Tree, first: nat)
    requires Good(fat, data, n, t) && first >= 2 && first !in t.o.chains
    ensures Unreferenced(data, n, t, first)
  {
    forall d: nat, p: Pos | IsSlot(n, t, d, p) && Visible(SlotAt(data, t.o.chains[d], p))
      ensures First(SlotAt(data, t.o.chains[d], p)) != first
    {
      assert SlotOk(data, n, t, d, p);
    }
  }

  lemma HeldUnreferenced(data: seq<Bytes>, n: nat, t: Tree, ch: Chain, first: nat)
    requires Unreferenced(data, n, t, first) && ch != [] && ch[0] !in t.o.chains && ch[0] !in t.depth
    ensures Unreferenced(data, n, Held(t, ch), first)
  {
    var t' := Held(t, ch);
    forall d: nat, p: Pos | IsSlot(n, t', d, p) && Visible(SlotAt(data, t'.o.chains[d], p))
      ensures First(SlotAt(data, t'.o.chains[d], p)) != first
    {
      assert IsSlot(n, t, d, p);
    }
  }

  lemma HeldRoom(data: seq<Bytes>, n: nat, t: Tree, ch: Chain, d: nat, p: Pos)
    requires Room(data, n, t, d, p) && ch != [] && ch[0] !in t.o.chains
    ensures Room(data, n, Held(t, ch), d, p)
  {
    var t' := Held(t, ch);
    forall q: Pos | IsSlot(n, t', d, q) && Before(q, p) ensures !Unused(SlotAt(data, t'.o.chains[d], q)) {
      assert IsSlot(n, t, d, q);
    }
  }

  ghost predicate FileEntry(s: Slot, name: Bytes, ch: Chain, size: nat) {
    && Visible(s) && !IsDir(s) && Name(s) == name && Size(s) == size
    && First(s) == if ch == [] then 0 else ch[0]
  }

  /** The tree once a file's entry stands at p. */
  ghost function FileTree(data: seq<Bytes>, t: Tree, d: nat, p: Pos, s: Slot, ch: Chain): Tree
    requires d in t.o.chains
  {
    EnteredAt(data, FileHeld(t, ch), d, p, s)
  }

  lemma FileEnters(fat: Fat, data: seq<Bytes>, n: nat, t: Tree, d: nat, p: Pos, s: Slot, data': seq<Bytes>, ch: Chain, bytes: Bytes)
    requires Good(fat, data, n, t) && Waiting(fat, data, t, ch, bytes) && Room(data, n, t, d, p)
    requires FileEntry(s, Name(s), ch, |bytes|) && Missing(data, n, t, d, Name(s)) && Put(fat, data, n, t, d, p, s, data')
    ensures Enters(fat, data, n, FileHeld(t, ch), d, p, s, data') && SameViews(data, n, t, data, FileHeld(t, ch))
  {
    HoldFile(fat, data, n, t, ch, bytes);
    MissingSame(data, n, t, data, FileHeld(t, ch), d, Name(s));
    if ch != [] {
      HeldRoom(data, n, t, ch, d, p);
      NewUnreferenced(fat, data, n, t, ch[0]);
      HeldUnreferenced(data, n, t, ch, ch[0]);
    }
  }

  lemma FileNode(fat: Fat, data: seq<Bytes>, n: nat, t: Tree, d: nat, p: Pos, s: Slot, data': seq<Bytes>, ch: Chain, bytes: Bytes)
    requires Enters(fat, data, n, FileHeld(t, ch), d, p, s, data') && Good(fat, data, n, t) && Waiting(fat, data, t, ch, bytes)
    requires FileEntry(s, Name(s), ch, |bytes|) && d in t.o.chains
    ensures NodeOf(data', FileTree(data, t, d, p, s, ch), s) == File(|bytes|, bytes, |ch|)
  {
    var h := FileHeld(t, ch);
    if ch == [] {
      forall e: nat | e in t.o.chains ensures e >= 2 {
        StartInRange(fat, t.o, e);
      }
    } else {
      HoldFile(fat, data, n, t, ch, bytes);
      PutContent(fat, data, n, h, d, p, s, data', ch[0]);
    }
  }

  /** The volume with a new file: its bytes under its name, every other name as before. */
  lemma FileShows(fat: Fat, data: seq<Bytes>, n: nat, t: Tree, d: nat, p: Pos, s: Slot, data': seq<Bytes>, ch: Chain, bytes: Bytes)
    requires Good(fat, data, n, t) && Waiting(fat, data, t, ch, bytes) && Room(data, n, t, d, p)
    requires FileEntry(s, Name(s), ch, |bytes|) && Missing(data, n, t, d, Name(s)) && Put(fat, data, n, t, d, p, s, data')
    ensures Good(fat, data', n, FileTree(data, t, d, p, s, ch))
    ensures Shows(data, n, t, data', FileTree(data, t, d, p, s, ch), d, Name(s), File(|bytes|, bytes, |ch|))
  {
    FileEnters(fat, data, n, t, d, p, s, data', ch, bytes);
    EnterEntry(fat, data, n, FileHeld(t, ch), d, p, s, data');
    FileNode(fat, data, n, t, d, p, s, data', ch, bytes);
    var t' := FileTree(data, t, d, p, s, ch);
    forall e: nat, other: Bytes
      ensures View(data', n, t', e, other) == if e == d && other == Name(s) then File(|bytes|, bytes, |ch|) else View(data, n, t, e, other)
    {
      EnteredView(fat, data, n, FileHeld(t, ch), d, p, s, data', e, other);
      assert View(data, n, FileHeld(t, ch), e, other) == View(data, n, t, e, other);
    }
  }

  lemma FileTakes(fat: Fat, data: seq<Bytes>, n: nat, t: Tree, d: nat, p: Pos, s: Slot, data': seq<Bytes>, ch: Chain, bytes: Bytes)
    requires Good(fat, data, n, t) && Waiting(fat, data, t, ch, bytes) && Room(data, n, t, d, p)
    requires FileEntry(s, Name(s), ch, |bytes|) && Missing(data, n, t, d, Name(s)) && Put(fat, data, n, t, d, p, s, data')
    ensures Takes(data, n, t, data', FileTree(data, t, d, p, s, ch), d, File(|bytes|, bytes, |ch|))
  {
    var h := FileHeld(t, ch);
    FileEnters(fat, data, n, t, d, p, s, data', ch, bytes);
    HoldFile(fat, data, n, t, ch, bytes);
    if ch != [] {
      HeldSpaces(fat, data, n, t, ch);
    }
    forall e: nat ensures SpaceOf(data', n, FileTree(data, t, d, p, s, ch), e)
                       == if e == d then Filled(SpaceOf(data, n, t, d), n) else SpaceOf(data, n, t, e) {
      EnteredSpaces(fat, data, n, h, d, p, s, data', e);
      assert SpaceOf(data, n, h, e) == SpaceOf(data, n, t, e);
    }
  }

  // ---------- the entry of a directory ----------

  lemma ClaimUndone(fat0: Fat, c: nat)
    requires c != 0 && FirstFree(fat0, c)
    ensures FreeCount(fat0[c := EOC]) + 1 == FreeCount(fat0) && Freed(fat0[c := EOC], [c]) == fat0
  {
    FreeSet(fat0, 2, c, EOC);
  }

  lemma ClaimedWaits(fat0: Fat, data0: seq<Bytes>, n: nat, t: Tree, c: nat, fat: Fat, data: seq<Bytes>)
    requires Good(fat0, data0, n, t) && c != 0 && FirstFree(fat0, c) && |fat0| <= EOC_MIN
    requires fat == fat0[c := EOC] && data == data0[c := Zeros(SLOT * n)]
    ensures Waiting(fat, data, t, [c], []) && Blank(data[c]) && c !in t.depth
  {
    NewChain(fat0, c);
    FreeNotOwned(fat0, t.o, c);
    forall d: nat | d in t.o.chains ensures d in t.o.owner {
      StartOwned(fat0, t.o, d);
    }
  }

  lemma HeldDirRoom(data: seq<Bytes>, n: nat, t: Tree, k: nat, m: nat, d: nat, p: Pos)
    requires Room(data, n, t, d, p) && k !in t.o.chains
    ensures Room(data, n, HeldDir(t, k, m), d, p)
  {
    var t' := HeldDir(t, k, m);
    forall q: Pos | IsSlot(n, t', d, q) && Before(q, p) ensures !Unused(SlotAt(data, t'.o.chains[d], q)) {
      assert IsSlot(n, t, d, q);
    }
  }

  lemma HeldDirUnreferenced(data: seq<Bytes>, n: nat, t: Tree, k: nat, m: nat)
    requires Unreferenced(data, n, t, k) && k !in t.o.chains && k < |data| && Blank(data[k])
    ensures Unreferenced(data, n, HeldDir(t, k, m), k)
  {
    var t' := HeldDir(t, k, m);
    forall d: nat, p: Pos | IsSlot(n, t', d, p) && Visible(SlotAt(data, t'.o.chains[d], p))
      ensures First(SlotAt(data, t'.o.chains[d], p)) != k
    {
      ZeroSlot(data[k], p.j);
      assert IsSlot(n, t, d, p);
    }
  }

  lemma HeldDirViews(fat: Fat, data: seq<Bytes>, n: nat, t: Tree, k: nat, m: nat)
    requires Good(fat, data, n, t) && Waiting(fat, data, t, [k], []) && k < |data| && Blank(data[k])
    ensures Good(fat, data, n, HeldDir(t, k, m)) && SameViews(data, n, t, data, HeldDir(t, k, m))
    ensures k >= 2 && k !in t.o.chains
  {
    assert k in [k];
    HoldDir(fat, data, n, t, k, m);
    forall e: nat, other: Bytes ensures View(data, n, HeldDir(t, k, m), e, other) == View(data, n, t, e, other) {
      HeldDirView(fat, data, n, t, k, m, e, other);
    }
  }

  lemma HeldDirPut(fat: Fat, data: seq<Bytes>, n: nat, t: Tree, d: nat, p: Pos, s: Slot, data': seq<Bytes>, k: nat, m: nat)
    requires Put(fat, data, n, t, d, p, s, data') && k !in t.o.chains && m > t.depth[d] && IsDir(s) && First(s) == k
    ensures Put(fat, data, n, HeldDir(t, k, m), d, p, s, data') && Leads(HeldDir(t, k, m), d, s)
  {
    assert HeldDir(t, k, m).o.chains[d] == t.o.chains[d];
  }

  lemma DirEnters(fat: Fat, data: seq<Bytes>, n: nat, t: Tree, d: nat, p: Pos, s: Slot, data': seq<Bytes>, k: nat)
    requires Good(fat, data, n, t) && Waiting(fat, data, t, [k], []) && k < |data| && Blank(data[k]) && Room(data, n, t, d, p)
    requires Visible(s) && IsDir(s) && First(s) == k && Missing(data, n, t, d, Name(s)) && Put(fat, data, n, t, d, p, s, data')
    ensures Enters(fat, data, n, HeldDir(t, k, t.depth[d] + 1), d, p, s, data')
    ensures SameViews(data, n, t, data, HeldDir(t, k, t.depth[d] + 1)) && k !in t.o.chains
  {
    var m := t.depth[d] + 1;
    var h := HeldDir(t, k, m);
    HeldDirViews(fat, data, n, t, k, m);
    assert Put(fat, data, n, h, d, p, s, data') && Leads(h, d, s) by {
      HeldDirPut(fat, data, n, t, d, p, s, data', k, m);
    }
    assert Missing(data, n, h, d, Name(s)) by {
      MissingSame(data, n, t, data, h, d, Name(s));
    }
    assert Room(data, n, h, d, p) && Unreferenced(data, n, h, k) by {
      HeldDirFree(fat, data, n, t, k, m, d, p);
    }
    EntersWith(fat, data, n, h, d, p, s, data', k);
  }

  lemma EntersWith(fat: Fat, data: seq<Bytes>, n: nat, h: Tree, d: nat, p: Pos, s: Slot, data': seq<Bytes>, k: nat)
    requires Good(fat, data, n, h) && Put(fat, data, n, h, d, p, s, data') && Room(data, n, h, d, p) && Missing(data, n, h, d, Name(s))
    requires Unreferenced(data, n, h, k) && First(s) == k && Visible(s) && Leads(h, d, s)
    ensures Enters(fat, data, n, h, d, p, s, data')
  {
  }

  lemma HeldDirFree(fat: Fat, data: seq<Bytes>, n: nat, t: Tree, k: nat, m: nat, d: nat, p: Pos)
    requires Good(fat, data, n, t) && Room(data, n, t, d, p) && 2 <= k < |data| && k !in t.o.chains && Blank(data[k])
    ensures Room(data, n, HeldDir(t, k, m), d, p) && Unreferenced(data, n, HeldDir(t, k, m), k)
  {
    HeldDirRoom(data, n, t, k, m, d, p);
    NewUnreferenced(fat, data, n, t, k);
    HeldDirUnreferenced(data, n, t, k, m);
  }

  lemma DirView(fat: Fat, data: seq<Bytes>, n: nat, t: Tree, h: Tree, d: nat, p: Pos, s: Slot, data': seq<Bytes>, e: nat, other: Bytes)
    requires Enters(fat, data, n, h, d, p, s, data') && SameViews(data, n, t, data, h) && IsDir(s)
    ensures View(data', n, EnteredAt(data, h, d, p, s), e, other)
         == if e == d && other == Name(s) then Dir(First(s)) else View(data, n, t, e, other)
  {
    EnteredView(fat, data, n, h, d, p, s, data', e, other);
    assert View(data, n, h, e, other) == View(data, n, t, e, other);
  }

  /** The volume with a new directory: every other name as before. */
  lemma DirViews(fat: Fat, data: seq<Bytes>, n: nat, t: Tree, h: Tree, d: nat, p: Pos, s: Slot, data': seq<Bytes>)
    requires Enters(fat, data, n, h, d, p, s, data') && SameViews(data, n, t, data, h) && IsDir(s)
    ensures Good(fat, data', n, EnteredAt(data, h, d, p, s))
    ensures Shows(data, n, t, data', EnteredAt(data, h, d, p, s), d, Name(s), Dir(First(s)))
  {
    EnterEntry(fat, data, n, h, d, p, s, data');
    forall e: nat, other: Bytes
      ensures View(data', n, EnteredAt(data, h, d, p, s), e, other)
           == if e == d && other == Name(s) then Dir(First(s)) else View(data, n, t, e, other)
    {
      DirView(fat, data, n, t, h, d, p, s, data', e, other);
    }
  }

  lemma DirTakes(fat: Fat, data: seq<Bytes>, n: nat, t: Tree, d: nat, p: Pos, s: Slot, data': seq<Bytes>, k: nat, m: nat)
    requires Good(fat, data, n, t) && k !in t.o.chains && k < |data| && Blank(data[k]) && d in t.depth
    requires Enters(fat, data, n, HeldDir(t, k, m), d, p, s, data')
    ensures Takes(data, n, t, data', EnteredAt(data, HeldDir(t, k, m), d, p, s), d, Dir(k))
  {
    var h := HeldDir(t, k, m);
    forall e: nat ensures SpaceOf(data', n, EnteredAt(data, h, d, p, s), e)
                       == if e == k then Space(1, n)
                          else if e == d then Filled(SpaceOf(data, n, t, d), n)
                          else SpaceOf(data, n, t, e) {
      EnteredSpaces(fat, data, n, h, d, p, s, data', e);
      HeldDirSpaces(fat, data, n, t, k, m, e);
      HeldDirSpaces(fat, data, n, t, k, m, d);
    }
  }

  /** The volume with a new directory: shown under its name, every other name as before, one slot fewer. */
  lemma DirShows(fat: Fat, data: seq<Bytes>, n: nat, t: Tree, d: nat, p: Pos, s: Slot, data': seq<Bytes>, k: nat, h: Tree, t': Tree)
    requires Good(fat, data, n, t) && k !in t.o.chains && k < |data| && Blank(data[k]) && d in t.depth && IsDir(s) && First(s) == k
    requires h == HeldDir(t, k, t.depth[d] + 1) && Enters(fat, data, n, h, d, p, s, data') && SameViews(data, n, t, data, h)
    requires t' == EnteredAt(data, h, d, p, s)
    ensures Good(fat, data', n, t') && k in t'.depth
    ensures Shows(data, n, t, data', t', d, Name(s), Dir(k)) && Takes(data, n, t, data', t', d, Dir(k))
  {
    assert Takes(data, n, t, data', t', d, Dir(k)) by {
      DirTakes(fat, data, n, t, d, p, s, data', k, t.depth[d] + 1);
    }
    assert Good(fat, data', n, t') && Shows(data, n, t, data', t', d, Name(s), Dir(k)) by {
      DirViews(fat, data, n, t, h, d, p, s, data');
    }
  }

  // ---------- removal ----------

  /** The name, and with a directory all it held, shows nothing; every other name shows what it did. */
  ghost predicate Hides(data: seq<Bytes>, n: nat, t: Tree, data': seq<Bytes>, t': Tree, d: nat, name: Bytes) {
    forall e: nat, other: Bytes {:trigger View(data', n, t', e, other)} ::
      View(data', n, t', e, other)
      == if (e == d && other == name) || View(data, n, t, d, name) == Dir(e) then Absent else View(data, n, t, e, other)
  }

  lemma ErasedHides(fat: Fat, data: seq<Bytes>, n: nat, t: Tree, d: nat, p: Pos, s: Slot, data': seq<Bytes>)
    requires Erases(fat, data, n, t, d, p, s, data')
    ensures var gone := SlotAt(data, t.o.chains[d], p); Hides(data, n, t, data', Erased(t, First(gone)), d, Name(gone))
  {
    var gone := SlotAt(data, t.o.chains[d], p);
    var first := First(gone);
    var t' := Erased(t, first);
    ViewIs(fat, data, n, t, d, Name(gone), p);
    forall e: nat, other: Bytes
      ensures View(data', n, t', e, other)
           == if (e == d && other == Name(gone)) || View(data, n, t, d, Name(gone)) == Dir(e) then Absent else View(data, n, t, e, other)
    {
      ErasedView(fat, data, n, t, d, p, s, data', e, other);
      RemovedView(fat, data, n, t, d, p, e, other);
    }
  }

  /** A file's own chain shows no names; a directory's entry never leads below cluster 2. */
  lemma RemovedView(fat: Fat, data: seq<Bytes>, n: nat, t: Tree, d: nat, p: Pos, e: nat, name: Bytes)
    requires Good(fat, data, n, t) && IsSlot(n, t, d, p) && Visible(SlotAt(data, t.o.chains[d], p))
    ensures var gone := SlotAt(data, t.o.chains[d], p);
            (!IsDir(gone) && First(gone) >= 2 && e == First(gone) ==> View(data, n, t, e, name) == Absent)
            && (IsDir(gone) ==> First(gone) >= 2)
  {
    var gone := SlotAt(data, t.o.chains[d], p);
    assert SlotOk(data, n, t, d, p);
    if IsDir(gone) {
      StartInRange(fat, t.o, First(gone));
    }
  }

  /** Room in the table after a removal: what its entry led to, and no more. */
  lemma ErasedGives(fat: Fat, data: seq<Bytes>, n: nat, t: Tree, d: nat, p: Pos, s: Slot, data': seq<Bytes>)
    requires Erases(fat, data, n, t, d, p, s, data')
    ensures var gone := SlotAt(data, t.o.chains[d], p);
      && Gives(data, n, t, data', Erased(t, First(gone)), d, NodeOf(data, t, gone))
      && FreeCount(Released(fat, t, First(gone))) == FreeCount(fat) + ClustersOf(t, First(gone))
  {
    var gone := SlotAt(data, t.o.chains[d], p);
    var t' := Erased(t, First(gone));
    forall e: nat ensures SpaceOf(data', n, t', e)
                       == var was := SpaceOf(data, n, t, e);
                          if e == d then Space(was.clusters, was.vacant + 1)
                          else if NodeOf(data, t, gone) == Dir(e) then Space(0, 0)
                          else was {
      ErasedSpaces(fat, data, n, t, d, p, s, data', e);
    }
    if First(gone) in t.o.chains {
      StartInRange(fat, t.o, First(gone));
      DirChain(fat, t, First(gone));
      FreedCount(fat, t.o.chains[First(gone)]);
    }
  }
}
