/** How much room a FAT32 volume has: the free clusters, and the vacant slots of each directory. */
module FatRooms {
  import opened FatModel
  import opened FatDirs
  import opened FatTrees
  import opened FatStores

  // ---------- free clusters ----------

  lemma {:induction false} FreedSome(fat: Fat, ch: Chain, i: nat)
    requires IsChain(fat, ch) && i <= |ch|
    ensures FreeCount(Freed(fat, ch[..i])) == FreeCount(fat) + i
  {
    if i == 0 {
      assert Freed(fat, ch[..0]) == fat;
    } else {
      FreedSome(fat, ch, i - 1);
      StepFree(fat, ch, i - 1);
      InRange(fat, ch, ch[i - 1]);
      FreeSet(Freed(fat, ch[..i - 1]), 2, ch[i - 1], 0);
    }
  }

  /** Giving a chain back frees as many clusters as it has. */
  lemma FreedCount(fat: Fat, ch: Chain)
    requires IsChain(fat, ch)
    ensures FreeCount(Freed(fat, ch)) == FreeCount(fat) + |ch|
  {
    FreedSome(fat, ch, |ch|);
    assert ch[..|ch|] == ch;
  }

  lemma LengthensCount(fat: Fat, data: seq<Bytes>, n: nat, t: Tree, d: nat, c: nat, fat': Fat, data': seq<Bytes>)
    requires Good(fat, data, n, t) && d in t.depth && c != 0 && FirstFree(fat, c) && |fat| <= EOC_MIN
    requires Lengthens(fat, data, n, t, d, c, fat', data', Grown(t, d, c))
    ensures FreeCount(fat') + 1 == FreeCount(fat)
  {
    DirChain(fat, t, d);
    HangCount(fat, t.o.chains[d], c, fat');
  }

  // ---------- the slots of a directory ----------

  ghost function Row(i: nat, n: nat): set<Pos> {
    set j: nat | j < n :: Pos(i, j)
  }

  lemma {:induction false} RowSize(i: nat, n: nat)
    ensures |Row(i, n)| == n
  {
    if n > 0 {
      RowSize(i, n - 1);
      assert Row(i, n) == Row(i, n - 1) + {Pos(i, n - 1)};
    } else {
      assert Row(i, 0) == {};
    }
  }

  ghost function Positions(m: nat, n: nat): set<Pos> {
    set i: nat, j: nat | i < m && j < n :: Pos(i, j)
  }

  /** The slots a new entry may take. */
  ghost function Vacant(data: seq<Bytes>, n: nat, ch: Chain): set<Pos> {
    set p | p in Positions(|ch|, n) && Reusable(SlotAt(data, ch, p))
  }

  /** The clusters of a directory and how many of its slots are vacant. */
  datatype Space = Space(clusters: nat, vacant: nat)

  ghost function SpaceOf(data: seq<Bytes>, n: nat, t: Tree, d: nat): Space {
    if d in t.depth && d in t.o.chains then Space(|t.o.chains[d]|, |Vacant(data, n, t.o.chains[d])|) else Space(0, 0)
  }

  lemma PositionIn(m: nat, n: nat, p: Pos)
    ensures p in Positions(m, n) <==> p.i < m && p.j < n
  {
    assert p == Pos(p.i, p.j);
  }

  lemma RoomyIff(fat: Fat, data: seq<Bytes>, n: nat, t: Tree, d: nat)
    requires Shape(fat, data, n, t) && d in t.depth
    ensures Roomy(data, n, t, d) <==> SpaceOf(data, n, t, d).vacant > 0
  {
    var v := Vacant(data, n, t.o.chains[d]);
    if Roomy(data, n, t, d) {
      var p: Pos :| IsSlot(n, t, d, p) && Reusable(SlotAt(data, t.o.chains[d], p));
      PositionIn(|t.o.chains[d]|, n, p);
      assert p in v;
    }
    if v != {} {
      var p :| p in v;
      PositionIn(|t.o.chains[d]|, n, p);
      assert IsSlot(n, t, d, p) && Reusable(SlotAt(data, t.o.chains[d], p));
    }
  }

  lemma VacantSame(data: seq<Bytes>, n: nat, ch: Chain, data': seq<Bytes>)
    requires forall p :: InDir(ch, n, p) ==> SlotAt(data', ch, p) == SlotAt(data, ch, p)
    ensures Vacant(data', n, ch) == Vacant(data, n, ch)
  {
    forall p ensures p in Vacant(data', n, ch) <==> p in Vacant(data, n, ch) {
      PositionIn(|ch|, n, p);
    }
  }

  ghost predicate SameSpaces(data: seq<Bytes>, n: nat, t: Tree, data': seq<Bytes>, t': Tree) {
    forall e: nat {:trigger SpaceOf(data', n, t', e)} :: SpaceOf(data', n, t', e) == SpaceOf(data, n, t, e)
  }

  /** Clusters outside every object may change freely. */
  lemma FrameSpaces(fat: Fat, data: seq<Bytes>, n: nat, t: Tree, fat': Fat, data': seq<Bytes>)
    requires Good(fat, data, n, t) && Agree(fat, data, fat', data', t)
    ensures SameSpaces(data, n, t, data', t)
  {
    forall e: nat ensures SpaceOf(data', n, t, e) == SpaceOf(data, n, t, e) {
      if e in t.depth {
        forall p | InDir(t.o.chains[e], n, p) ensures SlotAt(data', t.o.chains[e], p) == SlotAt(data, t.o.chains[e], p) {
          SlotsAgree(fat, data, fat', data', t, e, p);
        }
        VacantSame(data, n, t.o.chains[e], data');
      }
    }
  }

  // ---------- a directory lengthened ----------

  lemma VacantMore(data: seq<Bytes>, n: nat, ch: Chain, c: nat)
    requires c < |data| && Blank(data[c])
    ensures Vacant(data, n, ch + [c]) == Vacant(data, n, ch) + Row(|ch|, n)
    ensures |Vacant(data, n, ch + [c])| == |Vacant(data, n, ch)| + n
  {
    var v, v', row := Vacant(data, n, ch), Vacant(data, n, ch + [c]), Row(|ch|, n);
    forall p ensures p in v' <==> p in v + row {
      PositionIn(|ch + [c]|, n, p);
      PositionIn(|ch|, n, p);
      assert p in row <==> p.i == |ch| && p.j < n by { assert p == Pos(p.i, p.j); }
      ZeroSlot(data[c], p.j);
    }
    forall p | p in v ensures p !in row {
      PositionIn(|ch|, n, p);
    }
    RowSize(|ch|, n);
    assert v' == v + row && v !! row;
  }

  lemma GrownSpaces(fat: Fat, data: seq<Bytes>, n: nat, t: Tree, d: nat, c: nat, e: nat)
    requires Good(fat, data, n, t) && d in t.depth && c < |data| && Blank(data[c])
    ensures var s := SpaceOf(data, n, t, d);
      SpaceOf(data, n, Grown(t, d, c), e) == if e == d then Space(s.clusters + 1, s.vacant + n) else SpaceOf(data, n, t, e)
  {
    VacantMore(data, n, t.o.chains[d], c);
  }

  lemma LengthenedSpaces(fat: Fat, data: seq<Bytes>, n: nat, t: Tree, d: nat, c: nat, fat': Fat, data': seq<Bytes>, e: nat)
    requires Good(fat, data, n, t) && d in t.depth && !Roomy(data, n, t, d) && c != 0 && FirstFree(fat, c)
    requires Lengthens(fat, data, n, t, d, c, fat', data', Grown(t, d, c))
    ensures SpaceOf(data, n, t, d).vacant == 0
    ensures SpaceOf(data', n, Grown(t, d, c), e)
         == if e == d then Space(SpaceOf(data, n, t, d).clusters + 1, n) else SpaceOf(data, n, t, e)
  {
    var f := fat[c := EOC];
    FreeNotOwned(fat, t.o, c);
    Frame(fat, data, n, t, f, data');
    FrameSpaces(fat, data, n, t, f, data');
    GrownSpaces(f, data', n, t, d, c, e);
    RoomyIff(fat, data, n, t, d);
    assert SpaceOf(data', n, t, d) == SpaceOf(data, n, t, d) && SpaceOf(data', n, t, e) == SpaceOf(data, n, t, e);
  }

  // ---------- an entry put in or taken out ----------

  /** One vacant slot fewer, in a cluster more when there was none. */
  ghost function Filled(s: Space, n: nat): Space {
    if s.vacant > 0 then Space(s.clusters, s.vacant - 1) else Space(s.clusters + 1, if n > 0 then n - 1 else 0)
  }

  lemma PutVacant(fat: Fat, data: seq<Bytes>, n: nat, t: Tree, d: nat, p: Pos, s: Slot, data': seq<Bytes>)
    requires Good(fat, data, n, t) && Put(fat, data, n, t, d, p, s, data')
    ensures var v := Vacant(data, n, t.o.chains[d]);
      && Vacant(data', n, t.o.chains[d]) == (if Reusable(s) then v + {p} else v - {p})
      && (p in v <==> Reusable(SlotAt(data, t.o.chains[d], p)))
  {
    var ch := t.o.chains[d];
    forall q ensures q in Vacant(data', n, ch) <==> (q in Vacant(data, n, ch) && q != p) || (q == p && Reusable(s)) {
      PositionIn(|ch|, n, q);
      PutSlots(fat, data, n, t, d, p, s, data', d, q);
    }
    PositionIn(|ch|, n, p);
  }

  /** Rewriting a slot of one directory leaves the others' slots alone. */
  lemma PutOthers(fat: Fat, data: seq<Bytes>, n: nat, t: Tree, d: nat, p: Pos, s: Slot, data': seq<Bytes>, e: nat)
    requires Good(fat, data, n, t) && Put(fat, data, n, t, d, p, s, data') && e in t.o.chains && e != d
    ensures Vacant(data', n, t.o.chains[e]) == Vacant(data, n, t.o.chains[e])
  {
    forall q | InDir(t.o.chains[e], n, q) ensures SlotAt(data', t.o.chains[e], q) == SlotAt(data, t.o.chains[e], q) {
      PutSlots(fat, data, n, t, d, p, s, data', e, q);
    }
    VacantSame(data, n, t.o.chains[e], data');
  }

  lemma EnteredSpaces(fat: Fat, data: seq<Bytes>, n: nat, t: Tree, d: nat, p: Pos, s: Slot, data': seq<Bytes>, e: nat)
    requires Good(fat, data, n, t) && Put(fat, data, n, t, d, p, s, data') && Room(data, n, t, d, p) && Visible(s)
    ensures SpaceOf(data, n, t, d).vacant > 0
    ensures SpaceOf(data', n, EnteredAt(data, t, d, p, s), e)
         == if e == d then Filled(SpaceOf(data, n, t, d), n) else SpaceOf(data, n, t, e)
  {
    PutVacant(fat, data, n, t, d, p, s, data');
    if e != d && e in t.depth {
      PutOthers(fat, data, n, t, d, p, s, data', e);
    }
  }

  lemma ErasedSpaces(fat: Fat, data: seq<Bytes>, n: nat, t: Tree, d: nat, p: Pos, s: Slot, data': seq<Bytes>, e: nat)
    requires Erases(fat, data, n, t, d, p, s, data')
    ensures var gone := SlotAt(data, t.o.chains[d], p);
      var was := SpaceOf(data, n, t, e);
      SpaceOf(data', n, Erased(t, First(gone)), e)
      == if e == d then Space(was.clusters, was.vacant + 1)
         else if NodeOf(data, t, gone) == Dir(e) then Space(0, 0)
         else was
  {
    var gone := SlotAt(data, t.o.chains[d], p);
    assert SlotOk(data, n, t, d, p);
    PutVacant(fat, data, n, t, d, p, s, data');
    if e != d && e in t.depth {
      PutOthers(fat, data, n, t, d, p, s, data', e);
    }
    if First(gone) >= 2 {
      ErasedTarget(fat, data, n, t, d, p, d, p);
    }
    if IsDir(gone) {
      StartInRange(fat, t.o, First(gone));
    }
  }

  // ---------- new objects ----------

  lemma HeldSpaces(fat: Fat, data: seq<Bytes>, n: nat, t: Tree, ch: Chain)
    requires Good(fat, data, n, t) && ch != [] && ch[0] !in t.o.chains
    ensures SameSpaces(data, n, t, data, Held(t, ch))
  {
  }

  lemma HeldDirSpaces(fat: Fat, data: seq<Bytes>, n: nat, t: Tree, c: nat, k: nat, e: nat)
    requires Good(fat, data, n, t) && c !in t.o.chains && c < |data| && Blank(data[c])
    ensures SpaceOf(data, n, HeldDir(t, c, k), e) == if e == c then Space(1, n) else SpaceOf(data, n, t, e)
  {
    VacantMore(data, n, [], c);
    assert [] + [c] == [c];
    assert Vacant(data, n, []) == {} by {
      forall p ensures p !in Vacant(data, n, []) {
        PositionIn(0, n, p);
      }
    }
  }

  // ---------- whole operations ----------

  /** A slot made vacant in a cluster more, if there was none. */
  ghost function Opened(s: Space, n: nat): Space {
    if s.vacant > 0 then s else Space(s.clusters + 1, n)
  }

  ghost predicate Opens(data: seq<Bytes>, n: nat, t: Tree, data': seq<Bytes>, t': Tree, d: nat) {
    forall e: nat {:trigger SpaceOf(data', n, t', e)} ::
      SpaceOf(data', n, t', e) == if e == d then Opened(SpaceOf(data, n, t, d), n) else SpaceOf(data, n, t, e)
  }

  /** An entry more in d, and k is a new empty directory if it is one. */
  ghost predicate Takes(data: seq<Bytes>, n: nat, t: Tree, data': seq<Bytes>, t': Tree, d: nat, node: Node) {
    forall e: nat {:trigger SpaceOf(data', n, t', e)} ::
      SpaceOf(data', n, t', e)
      == if node == Dir(e) then Space(1, n)
         else if e == d then Filled(SpaceOf(data, n, t, d), n)
         else SpaceOf(data, n, t, e)
  }

  /** An entry fewer in d, and a directory that goes with it. */
  ghost predicate Gives(data: seq<Bytes>, n: nat, t: Tree, data': seq<Bytes>, t': Tree, d: nat, node: Node) {
    forall e: nat {:trigger SpaceOf(data', n, t', e)} ::
      SpaceOf(data', n, t', e)
      == var was := SpaceOf(data, n, t, e);
         if e == d then Space(was.clusters, was.vacant + 1) else if node == Dir(e) then Space(0, 0) else was
  }

  lemma OpensHere(fat: Fat, data: seq<Bytes>, n: nat, t: Tree, d: nat)
    requires Shape(fat, data, n, t) && d in t.depth && Roomy(data, n, t, d)
    ensures Opens(data, n, t, data, t, d)
  {
    RoomyIff(fat, data, n, t, d);
  }

  lemma OpensMore(fat: Fat, data: seq<Bytes>, n: nat, t: Tree, d: nat, c: nat, fat': Fat, data': seq<Bytes>)
    requires Good(fat, data, n, t) && d in t.depth && !Roomy(data, n, t, d) && c != 0 && FirstFree(fat, c)
    requires Lengthens(fat, data, n, t, d, c, fat', data', Grown(t, d, c))
    ensures Opens(data, n, t, data', Grown(t, d, c), d)
  {
    forall e: nat ensures SpaceOf(data', n, Grown(t, d, c), e)
                       == if e == d then Opened(SpaceOf(data, n, t, d), n) else SpaceOf(data, n, t, e) {
      LengthenedSpaces(fat, data, n, t, d, c, fat', data', e);
    }
  }

  lemma TakesFrom(data0: seq<Bytes>, n: nat, t0: Tree, data: seq<Bytes>, t: Tree, data': seq<Bytes>, t': Tree, d: nat, node: Node)
    requires (SameSpaces(data0, n, t0, data, t) || Opens(data0, n, t0, data, t, d)) && Takes(data, n, t, data', t', d, node)
    ensures n > 0 ==> Takes(data0, n, t0, data', t', d, node)
  {
    if n > 0 {
      forall e: nat ensures SpaceOf(data', n, t', e)
                         == if node == Dir(e) then Space(1, n)
                            else if e == d then Filled(SpaceOf(data0, n, t0, d), n)
                            else SpaceOf(data0, n, t0, e) {
        assert SpaceOf(data, n, t, d) == SpaceOf(data, n, t, d) && SpaceOf(data, n, t, e) == SpaceOf(data, n, t, e);
      }
    }
  }
}
